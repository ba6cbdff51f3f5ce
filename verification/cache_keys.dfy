/** The cache of listed pages: how a filter names its entry, and the coarse
    invalidation every write performs. */
module CacheKeys {
  import opened Common
  import opened Dates
  import opened QuerySchema
  import opened RequestDtos

  /** Namespace of every key the service writes. */
  const CachePrefix: string := "request"

  /** Lifetime, in seconds, given to every entry the service writes. */
  const DefaultCacheLifetime: nat := 60

  /** The invalidation pattern `request:*`, read as a prefix. */
  const ListPrefix: string := CachePrefix + ":"

  /** A cached page and the lifetime it was stored with. */
  datatype CacheEntry = CacheEntry(value: seq<RequestDto>, lifetime: nat)

  type Cache = map<string, CacheEntry>

  /** A count as a template literal renders it: its digits, or the word
      "undefined" when absent (the key applies no `??` to counts). */
  function CountText(n: Option<nat>): (s: string)
    ensures ColonFree(s)
    ensures n.None? <==> s == "undefined"
  {
    if n.None? then "undefined"
    else
      var digits := NatToString(n.value);
      assert digits[0] != "undefined"[0];
      digits
  }

  /** Distinct counts render distinctly, absent included. */
  lemma CountTextInjective(a: Option<nat>, b: Option<nat>)
    ensures CountText(a) == CountText(b) <==> a == b
  {
    if a.Some? && b.Some? {
      NatToStringInjective(a.value, b.value);
    }
  }

  /** `toCacheKey`: `request:<date>:<from>:<to>:<skip>:<take>`. */
  function CacheKey(f: Filter): (key: string)
    ensures StartsWith(key, ListPrefix)
  {
    Colon(CachePrefix,
      Colon(OrEmpty(f.date),
        Colon(OrEmpty(f.from),
          Colon(OrEmpty(f.to),
            Colon(CountText(f.skip), CountText(f.take))))))
  }

  /** The filter's date texts hold no delimiter. */
  predicate KeySafe(f: Filter) {
    ColonFree(OrEmpty(f.date)) && ColonFree(OrEmpty(f.from)) && ColonFree(OrEmpty(f.to))
  }

  /** The two filters agree on everything the key renders: the three dates,
      with absent and empty alike, and the two counts. */
  predicate SameKeyFields(f: Filter, g: Filter) {
    && OrEmpty(f.date) == OrEmpty(g.date)
    && OrEmpty(f.from) == OrEmpty(g.from)
    && OrEmpty(f.to) == OrEmpty(g.to)
    && f.skip == g.skip
    && f.take == g.take
  }

  /** Filters whose dates hold no ':' share a key exactly when they agree
      on the rendered fields. */
  lemma CacheKeyInjective(f: Filter, g: Filter)
    requires KeySafe(f) && KeySafe(g)
    ensures CacheKey(f) == CacheKey(g) <==> SameKeyFields(f, g)
  {
    CountTextInjective(f.skip, g.skip);
    CountTextInjective(f.take, g.take);
    if CacheKey(f) == CacheKey(g) {
      var fSkipTake := Colon(CountText(f.skip), CountText(f.take));
      var gSkipTake := Colon(CountText(g.skip), CountText(g.take));
      var fTo := Colon(OrEmpty(f.to), fSkipTake);
      var gTo := Colon(OrEmpty(g.to), gSkipTake);
      var fFrom := Colon(OrEmpty(f.from), fTo);
      var gFrom := Colon(OrEmpty(g.from), gTo);
      var fDate := Colon(OrEmpty(f.date), fFrom);
      var gDate := Colon(OrEmpty(g.date), gFrom);
      ColonSplit(CachePrefix, fDate, CachePrefix, gDate);
      ColonSplit(OrEmpty(f.date), fFrom, OrEmpty(g.date), gFrom);
      ColonSplit(OrEmpty(f.from), fTo, OrEmpty(g.from), gTo);
      ColonSplit(OrEmpty(f.to), fSkipTake, OrEmpty(g.to), gSkipTake);
      ColonSplit(CountText(f.skip), CountText(f.take), CountText(g.skip), CountText(g.take));
    }
  }

  /** Every filter the schema accepts is safe to key. */
  lemma ValidFilterKeySafe(f: Filter)
    requires ValidFilter(f)
    ensures KeySafe(f)
  {
    if Truthy(f.date) { FullDateColonFree(f.date.value); }
    if Truthy(f.from) { FullDateColonFree(f.from.value); }
    if Truthy(f.to) { FullDateColonFree(f.to.value); }
  }

  /** Absent counts are keyed by the word "undefined". */
  lemma EmptyFilterKey()
    ensures CacheKey(Filter(None, None, None, None, None)) == "request::::undefined:undefined"
  {
  }

  /** `invalidateCache`: drops every key under the `request:` namespace and
      keeps every other key as it was. */
  function Invalidate(cache: Cache): (c: Cache)
    ensures forall k :: k in c <==> k in cache && !StartsWith(k, ListPrefix)
    ensures forall k :: k in c ==> c[k] == cache[k]
  {
    map k | k in cache && !StartsWith(k, ListPrefix) :: cache[k]
  }

  /** No cached page of any filter survives an invalidation. */
  lemma InvalidateDropsEveryPage(cache: Cache)
    ensures forall f :: CacheKey(f) !in Invalidate(cache)
  {
  }
}
