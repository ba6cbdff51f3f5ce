/** The request service: a cache-aside list operation, creation, the three
    per-request transitions and the bulk cancellation, each one sequential
    step over the store and the cache. */
module RequestService {
  import opened Common
  import opened HttpErrors
  import opened Requests
  import opened RequestDtos
  import opened QuerySchema
  import opened CreateSchema
  import opened ClosingSchema
  import opened StoreQuery
  import opened CacheKeys

  /** The store and the cache the service works on. */
  datatype State = State(store: Store, cache: Cache)

  /** What an operation returns, and the store and cache it leaves. */
  datatype Step<+T> = Step(result: Result<T>, after: State)

  /** A successful write: the new store, and the cache with every listed
      page dropped. */
  function Commit(st: State, store: Store): (s: State)
    ensures s.store == store
    ensures forall f :: CacheKey(f) !in s.cache
    ensures forall k :: k in s.cache <==> k in st.cache && !StartsWith(k, ListPrefix)
  {
    InvalidateDropsEveryPage(st.cache);
    State(store, Invalidate(st.cache))
  }

  /** The page a cache miss computes: the matching records, newest first,
      paged, each mapped to its transfer object. */
  ghost function MissResult(store: Store, f: Filter, cal: Calendar): (page: seq<RequestDto>)
    ensures forall i :: 0 <= i < |page| ==>
      ToModel(page[i]) in store.Values && Matches(ToModel(page[i]), ToWhere(f, cal))
    ensures forall i, j :: 0 <= i < j < |page| ==> page[j].createdAt <= page[i].createdAt
    ensures |page| == PageSize(|Matching(store, ToWhere(f, cal))|, f.skip, f.take)
    ensures f.take.Some? ==> |page| <= f.take.value
    ensures f.skip.None? && f.take.None? ==>
      forall k :: k in store && Matches(store[k], ToWhere(f, cal)) ==> FromModel(store[k]) in page
  {
    var rows := QueryPage(store, ToWhere(f, cal), f.skip, f.take);
    MappedRows(rows);
    Dtos(rows)
  }

  /** A miss is the window of a newest-first listing of the matching
      records that starts `skip` rows in and holds at most `take` rows. */
  lemma MissResultIsWindow(store: Store, f: Filter, cal: Calendar)
    ensures exists all: seq<Request> ::
      IsListing(Matching(store, ToWhere(f, cal)), all) && MissResult(store, f, cal) == Dtos(Page(all, f.skip, f.take))
  {
    var rows := QueryPage(store, ToWhere(f, cal), f.skip, f.take);
    QueryPageIsWindow(store, ToWhere(f, cal), f.skip, f.take);
    var all: seq<Request> :| IsListing(Matching(store, ToWhere(f, cal)), all) && rows == Page(all, f.skip, f.take);
    assert MissResult(store, f, cal) == Dtos(Page(all, f.skip, f.take));
  }

  /** Each mapped row reads back as the row it came from. */
  lemma MappedRows(rows: seq<Request>)
    ensures forall i :: 0 <= i < |rows| ==> ToModel(Dtos(rows)[i]) == rows[i]
    ensures forall i :: 0 <= i < |rows| ==> FromModel(rows[i]) in Dtos(rows)
  {
    var page := Dtos(rows);
    forall i | 0 <= i < |rows|
      ensures ToModel(page[i]) == rows[i] && FromModel(rows[i]) in page
    {
      FromModelRoundTrip(rows[i], page[i]);
    }
  }

  /** `findAll`: a cached page is returned as stored, with no store query;
      on a miss the page is computed from the store and stored under the
      filter's key with the default lifetime. */
  ghost function FindAll(st: State, f: Filter, cal: Calendar): (s: Step<seq<RequestDto>>)
    ensures s.result.Ok?
    ensures s.after.store == st.store
    ensures CacheKey(f) in st.cache ==>
      s.result.value == st.cache[CacheKey(f)].value && s.after.cache == st.cache
    ensures CacheKey(f) !in st.cache ==>
      && s.result.value == MissResult(st.store, f, cal)
      && s.after.cache == st.cache[CacheKey(f) := CacheEntry(s.result.value, DefaultCacheLifetime)]
  {
    var key := CacheKey(f);
    if key in st.cache then
      Step(Ok(st.cache[key].value), st)
    else
      var page := MissResult(st.store, f, cal);
      var cache := st.cache[key := CacheEntry(page, DefaultCacheLifetime)];
      Step(Ok(page), State(st.store, cache))
  }

  /** The record the store creates from a create body. Its id and creation
      time come from the store; the initial status and the absent closing
      texts are the store's column defaults, taken here as given. */
  function NewRecord(id: Id, now: Instant, body: CreateBody): Request {
    Request(id, now, now, body.subject, body.description, None, None, Created)
  }

  /** `create`: adds exactly one record, under an id the store had not used,
      writing only the given subject and description, and drops every
      listed page. */
  function Create(st: State, body: CreateBody, id: Id, now: Instant): (s: Step<RequestDto>)
    requires id !in st.store
    ensures s.result.Ok?
    ensures s.after.store.Keys == st.store.Keys + {id}
    ensures forall k :: k in st.store ==> s.after.store[k] == st.store[k]
    ensures s.after.store[id].id == id
    ensures s.after.store[id].subject == body.subject && s.after.store[id].description == body.description
    ensures s.result.value == FromModel(s.after.store[id])
    ensures forall f :: CacheKey(f) !in s.after.cache
    ensures s.after.cache == Invalidate(st.cache)
  {
    var r := NewRecord(id, now, body);
    Step(Ok(FromModel(r)), Commit(st, st.store[id := r]))
  }

  /** `checkRequestExists`: nothing when the id is stored, the not-found
      error otherwise. */
  function CheckRequestExists(store: Store, id: Id): (e: Option<HttpError>)
    ensures e.None? <==> id in store
    ensures e.Some? ==> e.value.statusCode == NotFoundStatus && e.value == NotFound(id)
  {
    if id in store then None else Some(NotFound(id))
  }

  /** A missing id fails with the not-found error and touches nothing. */
  predicate FailsNotFound<T>(st: State, id: Id, s: Step<T>) {
    s.result == Err(NotFound(id)) && s.after == st
  }

  /** The write replaced record `id` by `r` and left every other record, and
      the set of ids, as they were. */
  predicate OnlyRecordChanged(before: Store, after: Store, id: Id) {
    && after.Keys == before.Keys
    && forall k :: k in before && k != id ==> after[k] == before[k]
  }

  /** `start`: sets the status to IN_PROGRESS, whatever it was before. */
  function Start(st: State, id: Id): (s: Step<RequestDto>)
    ensures id !in st.store <==> s.result.Err?
    ensures id !in st.store ==> FailsNotFound(st, id, s)
    ensures id in st.store ==>
      && OnlyRecordChanged(st.store, s.after.store, id)
      && SameIdentity(st.store[id], s.after.store[id])
      && s.after.store[id].status == InProgress
      && s.after.store[id].solutionText == st.store[id].solutionText
      && s.after.store[id].cancelReason == st.store[id].cancelReason
      && s.result.value == FromModel(s.after.store[id])
      && (forall f :: CacheKey(f) !in s.after.cache)
      && s.after.cache == Invalidate(st.cache)
  {
    match CheckRequestExists(st.store, id)
    case Some(e) => Step(Err(e), st)
    case None =>
      var r := st.store[id].(status := InProgress);
      Step(Ok(FromModel(r)), Commit(st, st.store[id := r]))
  }

  /** `complete`: sets the status to COMPLETED and the solution text to the
      closing text; the cancel reason stays as it was. */
  function Complete(st: State, id: Id, body: ClosingBody): (s: Step<RequestDto>)
    ensures id !in st.store <==> s.result.Err?
    ensures id !in st.store ==> FailsNotFound(st, id, s)
    ensures id in st.store ==>
      && OnlyRecordChanged(st.store, s.after.store, id)
      && SameIdentity(st.store[id], s.after.store[id])
      && s.after.store[id].status == Completed
      && s.after.store[id].solutionText == Some(body.closingText)
      && s.after.store[id].cancelReason == st.store[id].cancelReason
      && s.result.value == FromModel(s.after.store[id])
      && (forall f :: CacheKey(f) !in s.after.cache)
      && s.after.cache == Invalidate(st.cache)
  {
    match CheckRequestExists(st.store, id)
    case Some(e) => Step(Err(e), st)
    case None =>
      var r := st.store[id].(status := Completed, solutionText := Some(body.closingText));
      Step(Ok(FromModel(r)), Commit(st, st.store[id := r]))
  }

  /** `cancel`: sets the status to CANCELLED and the cancel reason to the
      closing text; the solution text stays as it was. */
  function Cancel(st: State, id: Id, body: ClosingBody): (s: Step<RequestDto>)
    ensures id !in st.store <==> s.result.Err?
    ensures id !in st.store ==> FailsNotFound(st, id, s)
    ensures id in st.store ==>
      && OnlyRecordChanged(st.store, s.after.store, id)
      && SameIdentity(st.store[id], s.after.store[id])
      && s.after.store[id].status == Cancelled
      && s.after.store[id].cancelReason == Some(body.closingText)
      && s.after.store[id].solutionText == st.store[id].solutionText
      && s.result.value == FromModel(s.after.store[id])
      && (forall f :: CacheKey(f) !in s.after.cache)
      && s.after.cache == Invalidate(st.cache)
  {
    match CheckRequestExists(st.store, id)
    case Some(e) => Step(Err(e), st)
    case None =>
      var r := st.store[id].(status := Cancelled, cancelReason := Some(body.closingText));
      Step(Ok(FromModel(r)), Commit(st, st.store[id := r]))
  }

  /** Ids of the records in progress. */
  function InProgressIds(store: Store): set<Id> {
    set k | k in store && store[k].status == InProgress
  }

  /** `cancelAllInProgress`: every record in progress becomes CANCELLED with
      its texts untouched, every other record stays, and the result is the
      number of records changed. */
  function CancelAllInProgress(st: State): (s: Step<int>)
    ensures s.result.Ok?
    ensures s.result.value == |InProgressIds(st.store)|
    ensures s.after.store.Keys == st.store.Keys
    ensures forall k :: k in st.store && st.store[k].status == InProgress ==>
      s.after.store[k] == st.store[k].(status := Cancelled)
    ensures forall k :: k in st.store && st.store[k].status != InProgress ==>
      s.after.store[k] == st.store[k]
    ensures InProgressIds(s.after.store) == {}
    ensures forall f :: CacheKey(f) !in s.after.cache
    ensures s.after.cache == Invalidate(st.cache)
  {
    var store := map k | k in st.store ::
      if st.store[k].status == InProgress then st.store[k].(status := Cancelled) else st.store[k];
    Step(Ok(|InProgressIds(st.store)|), Commit(st, store))
  }
}
