/** Values shared by every module of the model: optional values, the
    JavaScript truthiness of optional strings, and the string building used
    for cache keys and error messages. */
module Common {

  /** Identifier of a request: an opaque string assigned by the store. */
  type Id = string

  /** A point in time, in milliseconds since the epoch. */
  type Instant = int

  /** An optional value; `None` stands for JavaScript's `undefined` or `null`. */
  datatype Option<+T> = None | Some(value: T)

  /** `Boolean(s)` for an optional string: absent and empty are both false. */
  predicate Truthy(s: Option<string>) {
    s.Some? && s.value != ""
  }

  /** `s ?? ''`: an absent value renders as the empty string. */
  function OrEmpty(s: Option<string>): (r: string)
    ensures r != "" <==> Truthy(s)
    ensures s.Some? ==> r == s.value
  {
    if s.Some? then s.value else ""
  }

  predicate StartsWith(s: string, prefix: string) {
    |prefix| <= |s| && s[..|prefix|] == prefix
  }

  predicate ColonFree(s: string) {
    forall i :: 0 <= i < |s| ==> s[i] != ':'
  }

  /** `a:b`, two parts joined by the cache-key delimiter. */
  function Colon(a: string, b: string): string {
    a + ":" + b
  }

  /** Position of the first ':' in `s`, or `|s|` when there is none. */
  function FirstColon(s: string): (n: nat)
    ensures n <= |s|
    ensures forall i :: 0 <= i < n ==> s[i] != ':'
    ensures n < |s| ==> s[n] == ':'
  {
    if |s| == 0 then 0
    else if s[0] == ':' then 0
    else 1 + FirstColon(s[1..])
  }

  /** A colon-free left part can be read back from the joined string. */
  lemma ColonSplit(a: string, b: string, c: string, d: string)
    requires ColonFree(a) && ColonFree(c)
    ensures Colon(a, b) == Colon(c, d) <==> a == c && b == d
  {
    if Colon(a, b) == Colon(c, d) {
      var s := Colon(a, b);
      assert s[|a|] == ':' && forall i :: 0 <= i < |a| ==> s[i] == a[i];
      assert FirstColon(s) == |a|;
      assert s == Colon(c, d);
      assert s[|c|] == ':' && forall i :: 0 <= i < |c| ==> s[i] == c[i];
      assert FirstColon(s) == |c|;
      assert a == s[..|a|] && c == s[..|c|];
      assert b == s[|a| + 1..] && d == s[|c| + 1..];
    }
  }

  /** The ASCII digit for `d`. */
  function DigitChar(d: nat): (c: char)
    requires d < 10
    ensures '0' <= c <= '9'
    ensures c as int - '0' as int == d
  {
    (48 + d) as char
  }

  /** Decimal rendering of a non-negative integer, as a JavaScript template
      literal renders an integral number. */
  function NatToString(n: nat): (s: string)
    ensures 1 <= |s|
    ensures n < 10 <==> |s| == 1
    ensures forall i :: 0 <= i < |s| ==> '0' <= s[i] <= '9'
    decreases n
  {
    if n < 10 then [DigitChar(n)] else NatToString(n / 10) + [DigitChar(n % 10)]
  }

  /** Distinct numbers render as distinct strings. */
  lemma {:induction false} NatToStringInjective(m: nat, n: nat)
    ensures NatToString(m) == NatToString(n) <==> m == n
    decreases m
  {
    if NatToString(m) == NatToString(n) {
      var s := NatToString(m);
      if m < 10 {
        assert DigitChar(m) == s[0] == DigitChar(n);
      } else {
        assert NatToString(m / 10) == s[..|s| - 1];
        assert NatToString(n / 10) == s[..|s| - 1];
        NatToStringInjective(m / 10, n / 10);
        assert DigitChar(m % 10) == s[|s| - 1] == DigitChar(n % 10);
      }
    }
  }

  /** `parts.join(sep)`. */
  function Join(parts: seq<string>, sep: string): (r: string)
    ensures |parts| == 1 ==> r == parts[0]
    ensures |parts| == 0 ==> r == ""
  {
    if |parts| == 0 then ""
    else if |parts| == 1 then parts[0]
    else parts[0] + sep + Join(parts[1..], sep)
  }

  /** Joining one more part appends the separator and that part. */
  lemma {:induction false} JoinSnoc(parts: seq<string>, sep: string, last: string)
    requires |parts| >= 1
    ensures Join(parts + [last], sep) == Join(parts, sep) + sep + last
    decreases |parts|
  {
    if |parts| == 1 {
      assert (parts + [last])[1..] == [last];
    } else {
      assert (parts + [last])[1..] == parts[1..] + [last];
      JoinSnoc(parts[1..], sep, last);
    }
  }
}
