/** Calendar dates in `yyyy-MM-dd` form: the `full-date` production of
    section 5.6 of RFC 3339, with the day-of-month limits of section 5.7
    (leap years by the Gregorian rule of its Appendix C). */
module Dates {
  import opened Common

  predicate IsDigit(c: char) {
    '0' <= c <= '9'
  }

  function DigitValue(c: char): (d: nat)
    requires IsDigit(c)
    ensures d < 10
    ensures DigitChar(d) == c
  {
    c as int - '0' as int
  }

  /** Four digits, '-', two digits, '-', two digits, and nothing else. */
  predicate HasDateShape(s: string) {
    && |s| == 10
    && IsDigit(s[0]) && IsDigit(s[1]) && IsDigit(s[2]) && IsDigit(s[3])
    && s[4] == '-'
    && IsDigit(s[5]) && IsDigit(s[6])
    && s[7] == '-'
    && IsDigit(s[8]) && IsDigit(s[9])
  }

  function YearOf(s: string): (y: nat)
    requires HasDateShape(s)
    ensures y < 10000
  {
    1000 * DigitValue(s[0]) + 100 * DigitValue(s[1]) + 10 * DigitValue(s[2]) + DigitValue(s[3])
  }

  function MonthOf(s: string): (m: nat)
    requires HasDateShape(s)
    ensures m < 100
  {
    10 * DigitValue(s[5]) + DigitValue(s[6])
  }

  function DayOf(s: string): (d: nat)
    requires HasDateShape(s)
    ensures d < 100
  {
    10 * DigitValue(s[8]) + DigitValue(s[9])
  }

  predicate IsLeapYear(y: nat) {
    y % 4 == 0 && (y % 100 != 0 || y % 400 == 0)
  }

  /** Number of days in month `m` of year `y`. */
  function DaysInMonth(y: nat, m: nat): (n: nat)
    requires 1 <= m <= 12
    ensures 28 <= n <= 31
    ensures n == 29 <==> m == 2 && IsLeapYear(y)
  {
    if m == 2 then (if IsLeapYear(y) then 29 else 28)
    else if m == 4 || m == 6 || m == 9 || m == 11 then 30
    else 31
  }

  /** A year, month and day that name a real day a four-digit year can write. */
  predicate IsCalendarDate(y: nat, m: nat, d: nat) {
    y < 10000 && 1 <= m <= 12 && 1 <= d <= DaysInMonth(y, m)
  }

  /** `s` is a valid calendar date written `yyyy-MM-dd`. */
  predicate IsFullDate(s: string) {
    HasDateShape(s) && IsCalendarDate(YearOf(s), MonthOf(s), DayOf(s))
  }

  /** `isValidDate`: an absent or empty string passes; any other string must
      be a full date. */
  predicate IsValidDate(s: Option<string>) {
    !Truthy(s) || IsFullDate(s.value)
  }

  /** Two zero-padded decimal digits. */
  function Pad2(n: nat): (s: string)
    requires n < 100
    ensures |s| == 2 && IsDigit(s[0]) && IsDigit(s[1])
    ensures 10 * DigitValue(s[0]) + DigitValue(s[1]) == n
  {
    [DigitChar(n / 10), DigitChar(n % 10)]
  }

  /** Four zero-padded decimal digits. */
  function Pad4(n: nat): (s: string)
    requires n < 10000
    ensures |s| == 4 && IsDigit(s[0]) && IsDigit(s[1]) && IsDigit(s[2]) && IsDigit(s[3])
    ensures 1000 * DigitValue(s[0]) + 100 * DigitValue(s[1]) + 10 * DigitValue(s[2]) + DigitValue(s[3]) == n
  {
    var high := Pad2(n / 100);
    var low := Pad2(n % 100);
    high + low
  }

  /** Writes a calendar date as `yyyy-MM-dd`. */
  function FormatDate(y: nat, m: nat, d: nat): (s: string)
    requires IsCalendarDate(y, m, d)
    ensures IsFullDate(s)
    ensures YearOf(s) == y && MonthOf(s) == m && DayOf(s) == d
  {
    Pad4(y) + "-" + Pad2(m) + "-" + Pad2(d)
  }

  /** A full date is exactly the formatting of the day it names: reading
      and writing dates are inverse to each other. */
  lemma FullDateRoundTrip(s: string)
    requires IsFullDate(s)
    ensures FormatDate(YearOf(s), MonthOf(s), DayOf(s)) == s
  {
    var year := s[..4];
    assert year[0] == s[0] && year[1] == s[1] && year[2] == s[2] && year[3] == s[3];
    Pad4Reads(year);
    Pad2Reads(s[5], s[6]);
    Pad2Reads(s[8], s[9]);
    assert Pad4(YearOf(s)) == year;
    assert Pad2(MonthOf(s)) == [s[5], s[6]];
    assert Pad2(DayOf(s)) == [s[8], s[9]];
    assert s == year + "-" + [s[5], s[6]] + "-" + [s[8], s[9]];
  }

  /** Two digits are the padding of the number they spell. */
  lemma Pad2Reads(c0: char, c1: char)
    requires IsDigit(c0) && IsDigit(c1)
    ensures Pad2(10 * DigitValue(c0) + DigitValue(c1)) == [c0, c1]
  {
    var n := 10 * DigitValue(c0) + DigitValue(c1);
    assert n / 10 == DigitValue(c0) && n % 10 == DigitValue(c1);
  }

  /** Four digits are the padding of the number they spell. */
  lemma Pad4Reads(s: string)
    requires |s| == 4 && IsDigit(s[0]) && IsDigit(s[1]) && IsDigit(s[2]) && IsDigit(s[3])
    ensures Pad4(1000 * DigitValue(s[0]) + 100 * DigitValue(s[1]) + 10 * DigitValue(s[2]) + DigitValue(s[3])) == s
  {
    var high := 10 * DigitValue(s[0]) + DigitValue(s[1]);
    var low := 10 * DigitValue(s[2]) + DigitValue(s[3]);
    var n := 100 * high + low;
    assert n / 100 == high && n % 100 == low;
    Pad2Reads(s[0], s[1]);
    Pad2Reads(s[2], s[3]);
    assert s == [s[0], s[1]] + [s[2], s[3]];
  }

  /** `isValidDate` accepts exactly the absent or empty string and the
      `yyyy-MM-dd` spellings of real calendar days. */
  lemma ValidDateIsFormatted(s: Option<string>)
    ensures IsValidDate(s) <==>
      !Truthy(s) || exists y, m, d :: IsCalendarDate(y, m, d) && s.value == FormatDate(y, m, d)
  {
    if Truthy(s) && IsFullDate(s.value) {
      FullDateRoundTrip(s.value);
      var y, m, d := YearOf(s.value), MonthOf(s.value), DayOf(s.value);
      assert IsCalendarDate(y, m, d) && s.value == FormatDate(y, m, d);
    }
  }

  /** A full date holds no ':'. */
  lemma FullDateColonFree(s: string)
    requires IsFullDate(s)
    ensures ColonFree(s)
  {
  }

  /** February 29th exists in leap years only; a one-digit month is not
      the `MM` form. */
  lemma DateExamples()
    ensures IsFullDate("2024-02-29")
    ensures !IsFullDate("2023-02-29")
    ensures !IsFullDate("2024-13-01")
    ensures !IsFullDate("2024-1-05")
    ensures IsValidDate(None) && IsValidDate(Some(""))
  {
  }
}
