/** Properties of sequences of service operations: the cache never serves a
    stale page, the closing texts along the intended lifecycle, and what the
    missing source-state checks allow. */
module Lifecycle {
  import opened Common
  import opened Requests
  import opened RequestDtos
  import opened QuerySchema
  import opened CreateSchema
  import opened ClosingSchema
  import opened StoreQuery
  import opened CacheKeys
  import opened RequestService

  /** One call into the service, or the cache dropping an entry whose
      lifetime ran out. A create carries the id and instant the store
      assigns. */
  datatype Op =
    | CreateOp(body: CreateBody, id: Id, now: Instant)
    | StartOp(id: Id)
    | CompleteOp(id: Id, closing: ClosingBody)
    | CancelOp(id: Id, closing: ClosingBody)
    | CancelAllOp
    | FindAllOp(filter: Filter)
    | ExpireOp(key: string)

  /** The store can carry out the operation: a new id is unused. */
  predicate Applicable(st: State, op: Op) {
    op.CreateOp? ==> op.id !in st.store
  }

  ghost function Apply(st: State, op: Op, cal: Calendar): State
    requires Applicable(st, op)
  {
    match op
    case CreateOp(body, id, now) => Create(st, body, id, now).after
    case StartOp(id) => Start(st, id).after
    case CompleteOp(id, closing) => Complete(st, id, closing).after
    case CancelOp(id, closing) => Cancel(st, id, closing).after
    case CancelAllOp => CancelAllInProgress(st).after
    case FindAllOp(f) => FindAll(st, f, cal).after
    case ExpireOp(key) => State(st.store, st.cache - {key})
  }

  ghost predicate Admissible(st: State, ops: seq<Op>, cal: Calendar)
    decreases |ops|
  {
    |ops| == 0 || (Applicable(st, ops[0]) && Admissible(Apply(st, ops[0], cal), ops[1..], cal))
  }

  ghost function Run(st: State, ops: seq<Op>, cal: Calendar): State
    requires Admissible(st, ops, cal)
    decreases |ops|
  {
    if |ops| == 0 then st else Run(Apply(st, ops[0], cal), ops[1..], cal)
  }

  // ---------------------------------------------------------------------
  // Cache coherence
  // ---------------------------------------------------------------------

  /** Every page cached under the key of a filter the schema accepts is the
      page a miss would compute from the current store. */
  ghost predicate Coherent(st: State, cal: Calendar) {
    forall f :: ValidFilter(f) && CacheKey(f) in st.cache ==>
      st.cache[CacheKey(f)].value == MissResult(st.store, f, cal)
  }

  /** Accepted filters that share a key ask the store the same question. */
  lemma SameKeySamePage(store: Store, f: Filter, g: Filter, cal: Calendar)
    requires ValidFilter(f) && ValidFilter(g) && CacheKey(f) == CacheKey(g)
    ensures MissResult(store, f, cal) == MissResult(store, g, cal)
  {
    ValidFilterKeySafe(f);
    ValidFilterKeySafe(g);
    CacheKeyInjective(f, g);
    assert ToWhere(f, cal) == ToWhere(g, cal);
  }

  /** On a coherent cache, listing with an accepted filter returns exactly
      what the store holds now, and the cache stays coherent. */
  lemma FindAllIsFresh(st: State, f: Filter, cal: Calendar)
    requires Coherent(st, cal) && ValidFilter(f)
    ensures FindAll(st, f, cal).result.value == MissResult(st.store, f, cal)
    ensures Coherent(FindAll(st, f, cal).after, cal)
  {
    var after := FindAll(st, f, cal).after;
    if CacheKey(f) !in st.cache {
      forall g | ValidFilter(g) && CacheKey(g) in after.cache
        ensures after.cache[CacheKey(g)].value == MissResult(after.store, g, cal)
      {
        if CacheKey(g) == CacheKey(f) {
          SameKeySamePage(st.store, f, g, cal);
        }
      }
    }
  }

  /** Every operation keeps the cache coherent, provided listings use
      accepted filters. */
  lemma ApplyKeepsCoherent(st: State, op: Op, cal: Calendar)
    requires Coherent(st, cal) && Applicable(st, op)
    requires op.FindAllOp? ==> ValidFilter(op.filter)
    ensures Coherent(Apply(st, op, cal), cal)
  {
    if op.FindAllOp? {
      ReadKeepsCoherent(st, op, cal);
    } else if op.ExpireOp? {
      ExpireKeepsCoherent(st, op, cal);
    } else {
      WriteKeepsCoherent(st, op, cal);
    }
  }

  /** A listing with an accepted filter keeps the cache coherent. */
  lemma ReadKeepsCoherent(st: State, op: Op, cal: Calendar)
    requires Coherent(st, cal) && op.FindAllOp? && ValidFilter(op.filter)
    ensures Coherent(Apply(st, op, cal), cal)
  {
    assert Apply(st, op, cal) == FindAll(st, op.filter, cal).after;
    FindAllIsFresh(st, op.filter, cal);
  }

  /** The cache dropping an entry keeps it coherent. */
  lemma ExpireKeepsCoherent(st: State, op: Op, cal: Calendar)
    requires Coherent(st, cal) && op.ExpireOp?
    ensures Coherent(Apply(st, op, cal), cal)
  {
    assert Apply(st, op, cal) == State(st.store, st.cache - {op.key});
    DropKeepsCoherent(st, op.key, cal);
  }

  /** A write either fails and changes nothing, or leaves no page behind. */
  lemma WriteKeepsCoherent(st: State, op: Op, cal: Calendar)
    requires Coherent(st, cal) && Applicable(st, op)
    requires !op.FindAllOp? && !op.ExpireOp?
    ensures Coherent(Apply(st, op, cal), cal)
  {
    var after := Apply(st, op, cal);
    if after != st {
      assert forall f :: CacheKey(f) !in after.cache by {
        match op
        case CreateOp(body, id, now) =>
        case StartOp(id) =>
        case CompleteOp(id, closing) =>
        case CancelOp(id, closing) =>
        case CancelAllOp =>
      }
      NoPagesIsCoherent(after, cal);
    }
  }

  /** A cache holding no page is coherent with any store. */
  lemma NoPagesIsCoherent(st: State, cal: Calendar)
    requires forall f :: CacheKey(f) !in st.cache
    ensures Coherent(st, cal)
  {
  }

  /** Dropping an entry keeps the cache coherent. */
  lemma DropKeepsCoherent(st: State, key: string, cal: Calendar)
    requires Coherent(st, cal)
    ensures Coherent(State(st.store, st.cache - {key}), cal)
  {
  }

  /** Every listing in the sequence uses an accepted filter. */
  predicate ListingsValid(ops: seq<Op>) {
    forall i :: 0 <= i < |ops| && ops[i].FindAllOp? ==> ValidFilter(ops[i].filter)
  }

  lemma {:induction false} RunKeepsCoherent(st: State, ops: seq<Op>, cal: Calendar)
    requires Coherent(st, cal) && Admissible(st, ops, cal) && ListingsValid(ops)
    ensures Coherent(Run(st, ops, cal), cal)
    decreases |ops|
  {
    if |ops| > 0 {
      ApplyKeepsCoherent(st, ops[0], cal);
      assert ListingsValid(ops[1..]) by {
        forall i | 0 <= i < |ops[1..]| && ops[1..][i].FindAllOp?
          ensures ValidFilter(ops[1..][i].filter)
        {
          assert ops[1..][i] == ops[i + 1];
        }
      }
      RunKeepsCoherent(Apply(st, ops[0], cal), ops[1..], cal);
    }
  }

  /** No stale read: starting from an empty cache, after any sequence of
      operations a listing with an accepted filter returns exactly what the
      store holds at that moment. */
  lemma NoStaleRead(store: Store, ops: seq<Op>, f: Filter, cal: Calendar)
    requires Admissible(State(store, map[]), ops, cal) && ListingsValid(ops)
    requires ValidFilter(f)
    ensures var st := Run(State(store, map[]), ops, cal);
      FindAll(st, f, cal).result.value == MissResult(st.store, f, cal)
  {
    RunKeepsCoherent(State(store, map[]), ops, cal);
    FindAllIsFresh(Run(State(store, map[]), ops, cal), f, cal);
  }

  /** A write, failed transitions aside. */
  predicate IsWrite(st: State, op: Op) {
    || op.CreateOp? || op.CancelAllOp?
    || ((op.StartOp? || op.CompleteOp? || op.CancelOp?) && op.id in st.store)
  }

  /** After a write no page survives: the next listing, with any filter, is
      a miss computed from the written store, stored for the default
      lifetime. */
  lemma ReadAfterWriteIsMiss(st: State, op: Op, f: Filter, cal: Calendar)
    requires Applicable(st, op) && IsWrite(st, op)
    ensures CacheKey(f) !in Apply(st, op, cal).cache
    ensures var after := Apply(st, op, cal);
      && FindAll(after, f, cal).result.value == MissResult(after.store, f, cal)
      && FindAll(after, f, cal).after.cache[CacheKey(f)].lifetime == DefaultCacheLifetime
  {
  }

  /** A created request shows up in the next unfiltered listing. */
  lemma CreateIsVisible(st: State, body: CreateBody, id: Id, now: Instant, cal: Calendar)
    requires id !in st.store
    ensures var after := Create(st, body, id, now).after;
      FromModel(NewRecord(id, now, body)) in FindAll(after, Filter(None, None, None, None, None), cal).result.value
  {
    var after := Create(st, body, id, now).after;
    var f := Filter(None, None, None, None, None);
    assert after.store[id] == NewRecord(id, now, body);
    assert Matches(after.store[id], ToWhere(f, cal));
  }

  // ---------------------------------------------------------------------
  // Closing texts along the lifecycle
  // ---------------------------------------------------------------------

  /** A step of the intended lifecycle (CREATED, IN_PROGRESS, then
      COMPLETED or CANCELLED): start from CREATED, complete and cancel from
      IN_PROGRESS. The service itself checks none of this. */
  predicate Intended(st: State, op: Op) {
    match op
    case StartOp(id) => id in st.store ==> st.store[id].status == Created
    case CompleteOp(id, _) => id in st.store ==> st.store[id].status == InProgress
    case CancelOp(id, _) => id in st.store ==> st.store[id].status == InProgress
    case _ => true
  }

  /** Every operation of the sequence is applicable and intended. */
  ghost predicate IntendedRun(st: State, ops: seq<Op>, cal: Calendar)
    decreases |ops|
  {
    |ops| == 0
    || (Applicable(st, ops[0]) && Intended(st, ops[0]) && IntendedRun(Apply(st, ops[0], cal), ops[1..], cal))
  }

  lemma {:induction false} IntendedRunIsAdmissible(st: State, ops: seq<Op>, cal: Calendar)
    requires IntendedRun(st, ops, cal)
    ensures Admissible(st, ops, cal)
    decreases |ops|
  {
    if |ops| > 0 {
      IntendedRunIsAdmissible(Apply(st, ops[0], cal), ops[1..], cal);
    }
  }

  /** An intended operation keeps every record consistent. */
  lemma ApplyKeepsConsistent(st: State, op: Op, cal: Calendar)
    requires AllConsistent(st.store) && Applicable(st, op) && Intended(st, op)
    ensures AllConsistent(Apply(st, op, cal).store)
  {
    var after := Apply(st, op, cal).store;
    forall k | k in after
      ensures Consistent(after[k])
    {
      match op
      case CreateOp(body, id, now) =>
      case StartOp(id) =>
      case CompleteOp(id, closing) =>
      case CancelOp(id, closing) =>
      case CancelAllOp =>
        if st.store[k].status == InProgress {
          assert after[k] == st.store[k].(status := Cancelled);
        }
      case FindAllOp(f) =>
      case ExpireOp(key) =>
    }
  }

  // ---------------------------------------------------------------------
  // Keys
  // ---------------------------------------------------------------------

  /** No operation files a record under another record's id: create stores
      the new record under its own id, and the transitions keep each id. */
  lemma ApplyKeepsWellKeyed(st: State, op: Op, cal: Calendar)
    requires WellKeyed(st.store) && Applicable(st, op)
    ensures WellKeyed(Apply(st, op, cal).store)
  {
    var after := Apply(st, op, cal).store;
    forall k | k in after
      ensures after[k].id == k
    {
      match op
      case CreateOp(body, id, now) =>
        if k != id { assert k in st.store; }
      case StartOp(id) =>
      case CompleteOp(id, closing) =>
      case CancelOp(id, closing) =>
      case CancelAllOp =>
        assert k in st.store;
      case FindAllOp(f) =>
      case ExpireOp(key) =>
    }
  }

  /** A run that starts from a well-keyed store stays well-keyed, so every
      listing it serves names each record once. */
  lemma {:induction false} RunKeepsWellKeyed(st: State, ops: seq<Op>, cal: Calendar)
    requires WellKeyed(st.store) && Admissible(st, ops, cal)
    ensures WellKeyed(Run(st, ops, cal).store)
    decreases |ops|
  {
    if |ops| > 0 {
      ApplyKeepsWellKeyed(st, ops[0], cal);
      RunKeepsWellKeyed(Apply(st, ops[0], cal), ops[1..], cal);
    }
  }

  /** Along the intended lifecycle every record carries at most one closing
      text, and only the one matching its terminal status. */
  lemma {:induction false} IntendedRunKeepsConsistent(st: State, ops: seq<Op>, cal: Calendar)
    requires AllConsistent(st.store) && IntendedRun(st, ops, cal)
    ensures Admissible(st, ops, cal)
    ensures AllConsistent(Run(st, ops, cal).store)
    ensures forall k :: k in Run(st, ops, cal).store ==> ClosingExclusive(Run(st, ops, cal).store[k])
    decreases |ops|
  {
    IntendedRunIsAdmissible(st, ops, cal);
    if |ops| > 0 {
      ApplyKeepsConsistent(st, ops[0], cal);
      IntendedRunKeepsConsistent(Apply(st, ops[0], cal), ops[1..], cal);
    }
  }

  /** create, start, then complete or cancel: exactly the matching closing
      text is set. */
  lemma IntendedPathClosesOnce(st: State, body: CreateBody, id: Id, now: Instant, closing: ClosingBody, complete: bool)
    requires id !in st.store
    ensures var s1 := Create(st, body, id, now).after;
      var s2 := Start(s1, id).after;
      var s3 := if complete then Complete(s2, id, closing).after else Cancel(s2, id, closing).after;
      && (complete ==> s3.store[id].status == Completed && s3.store[id].solutionText == Some(closing.closingText)
                       && s3.store[id].cancelReason.None?)
      && (!complete ==> s3.store[id].status == Cancelled && s3.store[id].cancelReason == Some(closing.closingText)
                        && s3.store[id].solutionText.None?)
  {
  }

  /** The transitions do not check the source state: complete, start, cancel
      on one request leaves it CANCELLED carrying both closing texts. */
  lemma MissingGuardsAllowBothTexts(st: State, id: Id, solution: ClosingBody, reason: ClosingBody)
    requires id in st.store
    ensures var s1 := Complete(st, id, solution).after;
      var s2 := Start(s1, id).after;
      var s3 := Cancel(s2, id, reason).after;
      && s3.store[id].status == Cancelled
      && s3.store[id].solutionText == Some(solution.closingText)
      && s3.store[id].cancelReason == Some(reason.closingText)
      && !ClosingExclusive(s3.store[id])
  {
  }

  /** start reopens a closed request. */
  lemma StartReopens(st: State, id: Id)
    requires id in st.store && st.store[id].status in {Completed, Cancelled}
    ensures Start(st, id).after.store[id].status == InProgress
  {
  }

  /** With nothing in progress, the bulk cancellation changes nothing and
      reports 0. */
  lemma CancelAllNoneInProgress(st: State)
    requires InProgressIds(st.store) == {}
    ensures CancelAllInProgress(st).result.value == 0
    ensures CancelAllInProgress(st).after.store == st.store
  {
    forall k | k in st.store
      ensures st.store[k].status != InProgress
    {
      assert k !in InProgressIds(st.store);
    }
  }

  /** A second bulk cancellation right after the first reports 0 and
      changes nothing. */
  lemma CancelAllIdempotent(st: State)
    ensures var once := CancelAllInProgress(st).after;
      CancelAllInProgress(once).result.value == 0 && CancelAllInProgress(once).after.store == once.store
  {
    CancelAllNoneInProgress(CancelAllInProgress(st).after);
  }

  /** An unfiltered listing of a one-record store is that record. */
  lemma SingleRecordListing(r: Request, cal: Calendar)
    ensures MissResult(map[r.id := r], Filter(None, None, None, None, None), cal) == [FromModel(r)]
  {
    var store := map[r.id := r];
    var f := Filter(None, None, None, None, None);
    var w := ToWhere(f, cal);
    assert w.createdAt.None?;
    assert Matching(store, w) == store;
    assert |store| == 1;
    assert PageSize(1, None, None) == 1;
    var page := MissResult(store, f, cal);
    assert |page| == 1;
    assert FromModel(store[r.id]) in page;
    assert page[0] == FromModel(r);
  }

  /** Create a request, list it, start it and complete it. */
  lemma PrinterScenario(id: Id, now: Instant, cal: Calendar)
    ensures var s0 := State(map[], map[]);
      var created := Create(s0, CreateBody("Printer broken", "No toner"), id, now);
      var listed := FindAll(created.after, Filter(None, None, None, None, None), cal);
      var started := Start(listed.after, id);
      var completed := Complete(started.after, id, ClosingBody("Replaced cartridge"));
      && listed.result.value == [created.result.value]
      && created.result.value.status == Created
      && started.result.value.status == InProgress
      && completed.result.value.status == Completed
      && completed.result.value.solutionText == Some("Replaced cartridge")
      && completed.result.value.cancelReason.None?
  {
    var s0 := State(map[], map[]);
    var body := CreateBody("Printer broken", "No toner");
    var created := Create(s0, body, id, now);
    var a := NewRecord(id, now, body);
    assert created.after.store == map[id := a];
    assert created.after.cache == map[];
    SingleRecordListing(a, cal);
  }
}
