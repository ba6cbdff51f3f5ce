/** What the list operation asks of the store: the filter turned into a
    condition on `createdAt`, the matching records newest first, and the
    page cut out of them by `skip` and `take`. */
module StoreQuery {
  import opened Common
  import opened Requests
  import opened QuerySchema

  /** The date arithmetic the service leaves to its libraries, kept
      abstract: the instant a date string parses to, and the first and last
      instants of that day in the server's time zone. */
  datatype Calendar = Calendar(
    parse: string -> Instant,
    startOfDay: string -> Instant,
    endOfDay: string -> Instant)

  /** A day starts no later than it ends. */
  ghost predicate WellFormedCalendar(cal: Calendar) {
    forall d :: cal.startOfDay(d) <= cal.endOfDay(d)
  }

  /** An inclusive bound `gte <= createdAt <= lte`. */
  datatype Range = Range(gte: Instant, lte: Instant)

  /** The store condition; no range means no condition. */
  datatype Where = Where(createdAt: Option<Range>)

  /** The record satisfies the condition. */
  predicate Matches(r: Request, w: Where) {
    w.createdAt.None? || (w.createdAt.value.gte <= r.createdAt <= w.createdAt.value.lte)
  }

  /** Translates a filter into a store condition: a range only when both
      `from` and `to` are non-empty, then `date`, when non-empty, replaces
      whatever was set with its whole day. */
  function ToWhere(f: Filter, cal: Calendar): (w: Where)
    ensures Truthy(f.date) ==>
      w.createdAt == Some(Range(cal.startOfDay(f.date.value), cal.endOfDay(f.date.value)))
    ensures !Truthy(f.date) && Truthy(f.from) && Truthy(f.to) ==>
      w.createdAt == Some(Range(cal.parse(f.from.value), cal.parse(f.to.value)))
    ensures w.createdAt.None? <==> !Truthy(f.date) && !(Truthy(f.from) && Truthy(f.to))
  {
    var range := if Truthy(f.from) && Truthy(f.to)
                 then Some(Range(cal.parse(f.from.value), cal.parse(f.to.value)))
                 else None;
    var range' := if Truthy(f.date)
                  then Some(Range(cal.startOfDay(f.date.value), cal.endOfDay(f.date.value)))
                  else range;
    Where(range')
  }

  /** The filter read as a conjunction of its constraints: within the day of
      `date` when given, within `[from, to]` when both are given. */
  predicate InWindow(r: Request, f: Filter, cal: Calendar) {
    && (Truthy(f.date) ==> cal.startOfDay(f.date.value) <= r.createdAt <= cal.endOfDay(f.date.value))
    && (Truthy(f.from) && Truthy(f.to) ==> cal.parse(f.from.value) <= r.createdAt <= cal.parse(f.to.value))
  }

  /** On filters that do not combine `date` with a full range, the store
      condition is exactly the conjunction of the filter's constraints; in
      particular on every filter the schema accepts. */
  lemma WhereIsWindow(r: Request, f: Filter, cal: Calendar)
    requires !(Truthy(f.date) && Truthy(f.from) && Truthy(f.to))
    ensures Matches(r, ToWhere(f, cal)) <==> InWindow(r, f, cal)
  {
  }

  /** When `date` is given it wins: a range given with it is ignored. */
  lemma DateOverridesRange(r: Request, f: Filter, cal: Calendar)
    requires Truthy(f.date)
    ensures Matches(r, ToWhere(f, cal)) <==>
      cal.startOfDay(f.date.value) <= r.createdAt <= cal.endOfDay(f.date.value)
  {
  }

  /** Half a range constrains nothing. */
  lemma HalfRangeIgnored(r: Request, f: Filter, cal: Calendar)
    requires !Truthy(f.date) && (!Truthy(f.from) || !Truthy(f.to))
    ensures Matches(r, ToWhere(f, cal))
  {
  }

  /** A day filter is never empty: a record created at the first instant of
      the day matches it. */
  lemma DayIsNonEmpty(r: Request, f: Filter, cal: Calendar)
    requires WellFormedCalendar(cal) && Truthy(f.date)
    requires r.createdAt == cal.startOfDay(f.date.value)
    ensures Matches(r, ToWhere(f, cal))
  {
  }

  /** The records that satisfy the condition, by id. */
  function Matching(store: Store, w: Where): (m: Store)
    ensures forall k :: k in m <==> k in store && Matches(store[k], w)
    ensures forall k :: k in m ==> m[k] == store[k]
    ensures WellKeyed(store) ==> WellKeyed(m)
  {
    map k | k in store && Matches(store[k], w) :: store[k]
  }

  /** Newest first: `createdAt` never increases along the sequence. */
  predicate NewestFirst(rows: seq<Request>) {
    forall i, j :: 0 <= i < j < |rows| ==> rows[j].createdAt <= rows[i].createdAt
  }

  /** No two rows carry the same id. */
  predicate DistinctIds(rows: seq<Request>) {
    forall i, j :: 0 <= i < j < |rows| ==> rows[i].id != rows[j].id
  }

  /** `k` names a record no other record is newer than. */
  predicate IsNewest(m: Store, k: Id) {
    k in m && forall j :: j in m ==> m[j].createdAt <= m[k].createdAt
  }

  lemma RemoveOne(m: Store, k: Id)
    requires k in m
    ensures |m - {k}| == |m| - 1
    ensures WellKeyed(m) ==> WellKeyed(m - {k})
  {
    assert (m - {k}).Keys == m.Keys - {k};
  }

  /** A non-empty store has a newest record. */
  lemma {:induction false} NewestExists(m: Store)
    requires |m| > 0
    ensures exists k :: IsNewest(m, k)
    decreases |m|
  {
    var k0 :| k0 in m;
    var rest := m - {k0};
    RemoveOne(m, k0);
    assert forall j :: j in m ==> j == k0 || j in rest;
    if |rest| == 0 {
      assert rest == map[];
      assert IsNewest(m, k0);
    } else {
      NewestExists(rest);
      var k1 :| IsNewest(rest, k1);
      forall j | j in m && j != k0
        ensures m[j].createdAt <= m[k1].createdAt
      {
        assert j in rest && rest[j] == m[j];
      }
      if m[k0].createdAt <= m[k1].createdAt {
        assert IsNewest(m, k1);
      } else {
        assert IsNewest(m, k0);
      }
    }
  }

  /** The newest record followed by a newest-first listing of the others
      is a newest-first listing of the whole store. */
  lemma PrependNewest(m: Store, k: Id, tail: seq<Request>)
    requires IsNewest(m, k)
    requires |tail| == |m - {k}|
    requires forall i :: 0 <= i < |tail| ==> tail[i] in (m - {k}).Values
    requires forall j :: j in m - {k} ==> (m - {k})[j] in tail
    requires NewestFirst(tail)
    ensures forall i :: 0 <= i < |[m[k]] + tail| ==> ([m[k]] + tail)[i] in m.Values
    ensures forall j :: j in m ==> m[j] in [m[k]] + tail
    ensures NewestFirst([m[k]] + tail)
  {
    var rest := m - {k};
    forall i | 0 <= i < |tail|
      ensures tail[i] in m.Values && tail[i].createdAt <= m[k].createdAt
    {
      var j :| j in rest && rest[j] == tail[i];
      assert j in m && m[j] == tail[i];
    }
    forall j | j in m
      ensures m[j] in [m[k]] + tail
    {
      if j != k {
        assert j in rest && rest[j] == m[j];
      }
    }
  }

  /** `all` lists every record of `m`, newest first; when every record sits
      under its own id, each appears exactly once. */
  predicate IsListing(m: Store, all: seq<Request>) {
    && |all| == |m|
    && (forall i :: 0 <= i < |all| ==> all[i] in m.Values)
    && (forall k :: k in m ==> m[k] in all)
    && NewestFirst(all)
    && (WellKeyed(m) ==> DistinctIds(all))
  }

  /** A listing opens with a newest record. */
  lemma ListingHeadIsNewest(m: Store, all: seq<Request>)
    requires IsListing(m, all) && |all| > 0
    ensures forall k :: k in m ==> m[k].createdAt <= all[0].createdAt
  {
    forall k | k in m
      ensures m[k].createdAt <= all[0].createdAt
    {
      var j :| 0 <= j < |all| && all[j] == m[k];
    }
  }

  /** Every record of the store, newest first. Records created at the same
      instant come in an order the store does not promise. */
  ghost function Ordered(m: Store): (rows: seq<Request>)
    ensures |rows| == |m|
    ensures forall i :: 0 <= i < |rows| ==> rows[i] in m.Values
    ensures forall k :: k in m ==> m[k] in rows
    ensures NewestFirst(rows)
    ensures WellKeyed(m) ==> DistinctIds(rows)
    decreases |m|
  {
    if |m| == 0 then []
    else
      NewestExists(m);
      var k :| IsNewest(m, k);
      RemoveOne(m, k);
      var tail := Ordered(m - {k});
      PrependNewest(m, k, tail);
      if WellKeyed(m) then PrependDistinct(m, k, tail); [m[k]] + tail
      else [m[k]] + tail
  }

  /** A record put in front of rows drawn from the rest of a well-keyed
      store repeats none of their ids. */
  lemma PrependDistinct(m: Store, k: Id, tail: seq<Request>)
    requires WellKeyed(m) && k in m
    requires forall i :: 0 <= i < |tail| ==> tail[i] in (m - {k}).Values
    requires DistinctIds(tail)
    ensures DistinctIds([m[k]] + tail)
  {
    var rest := m - {k};
    forall i | 0 <= i < |tail|
      ensures tail[i].id != k
    {
      assert tail[i] in rest.Values;
      var j :| j in rest && rest[j] == tail[i];
      assert j in m && m[j] == tail[i];
    }
    forall i, j | 0 <= i < j < |[m[k]] + tail|
      ensures ([m[k]] + tail)[i].id != ([m[k]] + tail)[j].id
    {
      assert ([m[k]] + tail)[j] == tail[j - 1];
      if i > 0 {
        assert ([m[k]] + tail)[i] == tail[i - 1];
      }
    }
  }

  /** Offset of the first row a page keeps. */
  function Offset(n: nat, skip: Option<nat>): (o: nat)
    ensures o <= n
  {
    if skip.None? then 0 else if skip.value > n then n else skip.value
  }

  /** Number of rows a page of `n` rows holds. */
  function PageSize(n: nat, skip: Option<nat>, take: Option<nat>): nat {
    var rest := n - Offset(n, skip);
    if take.None? || take.value > rest then rest else take.value
  }

  /** Drops `skip` rows (none when absent) and keeps at most `take` of the
      rest (all when absent). */
  function Page<T>(rows: seq<T>, skip: Option<nat>, take: Option<nat>): (page: seq<T>)
    ensures |page| == PageSize(|rows|, skip, take)
    ensures take.Some? ==> |page| <= take.value
    ensures forall i :: 0 <= i < |page| ==> page[i] == rows[Offset(|rows|, skip) + i]
  {
    var rest := rows[Offset(|rows|, skip)..];
    if take.None? || take.value > |rest| then rest else rest[..take.value]
  }

  /** The store's answer to `findMany({ where, orderBy: { createdAt:
      'desc' }, take, skip })`. */
  ghost function QueryPage(store: Store, w: Where, skip: Option<nat>, take: Option<nat>): (rows: seq<Request>)
    ensures forall i :: 0 <= i < |rows| ==> rows[i] in store.Values && Matches(rows[i], w)
    ensures NewestFirst(rows)
    ensures |rows| == PageSize(|Matching(store, w)|, skip, take)
    ensures skip.None? && take.None? ==> forall k :: k in store && Matches(store[k], w) ==> store[k] in rows
  {
    var m := Matching(store, w);
    var all := Ordered(m);
    PageRowsIn(m.Values, all, skip, take);
    PageNewestFirst(all, skip, take);
    assert skip.None? && take.None? ==> Page(all, skip, take) == all;
    Page(all, skip, take)
  }

  /** The store's answer is the window of a newest-first listing of the
      matching records that starts `skip` rows in and holds at most `take`
      rows. */
  lemma QueryPageIsWindow(store: Store, w: Where, skip: Option<nat>, take: Option<nat>)
    ensures exists all: seq<Request> ::
      IsListing(Matching(store, w), all) && QueryPage(store, w, skip, take) == Page(all, skip, take)
  {
    var all := Ordered(Matching(store, w));
    assert IsListing(Matching(store, w), all);
  }

  /** A page holds only rows of the listing it was cut from. */
  lemma PageRowsIn(vals: set<Request>, all: seq<Request>, skip: Option<nat>, take: Option<nat>)
    requires forall i :: 0 <= i < |all| ==> all[i] in vals
    ensures forall i :: 0 <= i < |Page(all, skip, take)| ==> Page(all, skip, take)[i] in vals
  {
  }

  /** A contiguous run of a newest-first listing is newest first. */
  lemma SliceNewestFirst(all: seq<Request>, lo: nat, hi: nat)
    requires NewestFirst(all) && lo <= hi <= |all|
    ensures NewestFirst(all[lo..hi])
  {
    var run := all[lo..hi];
    forall i, j | 0 <= i < j < |run|
      ensures run[j].createdAt <= run[i].createdAt
    {
      assert run[i] == all[lo + i] && run[j] == all[lo + j];
    }
  }

  /** A page of a newest-first listing is newest first. */
  lemma PageNewestFirst(all: seq<Request>, skip: Option<nat>, take: Option<nat>)
    requires NewestFirst(all)
    ensures NewestFirst(Page(all, skip, take))
  {
    var o := Offset(|all|, skip);
    var n := |Page(all, skip, take)|;
    assert Page(all, skip, take) == all[o..o + n];
    SliceNewestFirst(all, o, o + n);
  }

  /** A page that skips nothing opens with a newest matching record: no
      match is newer than its first row. */
  lemma QueryPageStartsNewest(store: Store, w: Where, skip: Option<nat>, take: Option<nat>)
    requires skip.None? || skip == Some(0)
    requires |Matching(store, w)| > 0 && (take.None? || take.value > 0)
    ensures forall k :: k in store && Matches(store[k], w) ==>
      store[k].createdAt <= QueryPage(store, w, skip, take)[0].createdAt
  {
    var rows := QueryPage(store, w, skip, take);
    var m := Matching(store, w);
    QueryPageIsWindow(store, w, skip, take);
    var all: seq<Request> :| IsListing(m, all) && rows == Page(all, skip, take);
    assert Offset(|all|, skip) == 0;
    assert rows[0] == all[0];
    ListingHeadIsNewest(m, all);
  }
}
