/** The main results about runs of the concurrent cache, from any fresh start, under any scheduling,
    and with any backend and origin failures. */
module ProtocolTheorems {
  import opened Objects
  import opened LruIndex
  import opened Protocol
  import opened ProtocolSafety
  import LruCache
  import CacheKey

  /** A call to the origin is under way for `key`. */
  predicate FetchInFlight(s: State, t: nat, key: string) {
    PcOf(s.pcs, t) == Fetching(key)
  }

  /** At most one fetch per key is in flight. */
  lemma AtMostOneFetch(cap: int, s0: State, run: seq<Timed>, key: string, t: nat, u: nat)
    requires Init(s0) && ValidRun(cap, s0, run)
    ensures var s := Run(cap, s0, run); FetchInFlight(s, t, key) && FetchInFlight(s, u, key) ==> t == u
  {
    InitInv(cap, s0);
    RunInv(cap, s0, run);
    var s := Run(cap, s0, run);
    assert Leading(PcOf(s.pcs, t)) ==> s.group[PcOf(s.pcs, t).key] == t;
  }

  /** A thread that waits for a flight never waits for nothing: the flight's leader exists and can take a step,
      whatever the backend and the origin do. */
  lemma WaitersAreLed(cap: int, s0: State, run: seq<Timed>, t: nat)
    requires Init(s0) && ValidRun(cap, s0, run)
    ensures var s := Run(cap, s0, run); var pc := PcOf(s.pcs, t);
      pc.Waiting? ==> pc.key in s.group && s.group[pc.key] != t && exists st: Step :: st.tid == s.group[pc.key] && Enabled(s, At(s.now, st))
  {
    InitInv(cap, s0);
    RunInv(cap, s0, run);
    var s := Run(cap, s0, run);
    var pc := PcOf(s.pcs, t);
    if pc.Waiting? {
      var u := s.group[pc.key];
      var lead := PcOf(s.pcs, u);
      assert Leading(lead);
      var st := match lead
        case Checking(_, _) => CheckIndex(u)
        case Reading(_, _, _, _) => ReadStore(u, ReadError)
        case Dropping(_, _) => DropEntry(u)
        case Fetching(_) => EndFetch(u, Unavailable)
        case Writing(_, _) => WriteStore(u, FailedUnchanged)
        case Inserting(_, _) => InsertEntry(u, false)
        case _ => Finish(u);
      assert Enabled(s, At(s.now, st));
    }
  }

  /** Fetches are conserved, so at most one more is started than have failed or lost their entry again. */
  lemma FetchesBounded(cap: int, s0: State, run: seq<Timed>, key: string)
    requires Init(s0) && ValidRun(cap, s0, run)
    ensures var s := Run(cap, s0, run);
      && s.log[Started(key)] == s.log[FetchFailed(key)] + s.log[SetFailed(key)] + s.log[Removed(key)]
                                + (if Has(s.index, key) || FlightOpen(s.group, s.pcs, key) then 1 else 0)
  {
    InitInv(cap, s0);
    RunInv(cap, s0, run);
    var s := Run(cap, s0, run);
    assert Balanced(s.log, key, Has(s.index, key), FlightOpen(s.group, s.pcs, key));
    if FlightOpen(s.group, s.pcs, key) {
      assert InWindow(PcOf(s.pcs, s.group[key]));
    }
  }

  /** From its failed double-check to its index insert, a flight's key is not indexed. So the update branch
      of Set never runs, and the evictions of an insert spare every object a flight has just written: those of
      the other flights and, unless nothing may be kept, its own. */
  lemma WindowKeepsKeyOut(cap: int, s0: State, run: seq<Timed>, t: nat)
    requires Init(s0) && ValidRun(cap, s0, run)
    ensures var s := Run(cap, s0, run); var pc := PcOf(s.pcs, t);
      && (InWindow(pc) ==> !Has(s.index, pc.key))
      && (pc.Inserting? ==>
            && Insert(s.index, pc.obj.meta, cap) == Evict([pc.obj.meta] + s.index, cap)
            && forall u :: u != t && InWindow(PcOf(s.pcs, u)) ==>
                 PcOf(s.pcs, u).key !in LruCache.Evicted(s.index, pc.obj.meta, cap))
      && (pc.Inserting? && cap > 0 ==> pc.key !in LruCache.Evicted(s.index, pc.obj.meta, cap))
  {
    InitInv(cap, s0);
    RunInv(cap, s0, run);
    var s := Run(cap, s0, run);
    var pc := PcOf(s.pcs, t);
    assert InWindow(pc) ==> !Has(s.index, pc.key);
    if pc.Inserting? {
      assert ThreadOk(s.fetched, s.installed, pc);
      LruCache.HasInsert(s.index, pc.obj.meta, cap);
      InsertFacts(s.index, pc.obj.meta, cap);
      forall u | u != t && InWindow(PcOf(s.pcs, u))
        ensures PcOf(s.pcs, u).key !in LruCache.Evicted(s.index, pc.obj.meta, cap)
      {
        OneLeader(s, t, u);
      }
    }
  }

  /** An indexed key has in storage exactly the object of the flight that indexed it, unless the storage half
      of a Delete has run since that object was written; then it has none. */
  lemma IndexAgreesWithStorage(cap: int, s0: State, run: seq<Timed>, m: Meta)
    requires Init(s0) && ValidRun(cap, s0, run)
    ensures var s := Run(cap, s0, run);
      m in s.index ==>
        && m.key in s.installed && s.installed[m.key].meta == m && s.installed[m.key] in s.fetched
        && (m.key in s.store <==> m.key !in s.lost)
        && (m.key in s.store ==> s.store[m.key] == s.installed[m.key])
  {
    InitInv(cap, s0);
    RunInv(cap, s0, run);
    var s := Run(cap, s0, run);
    if m in s.index {
      assert Placed(s.store, s.lost, m.key, s.installed[m.key]);
    }
  }

  ghost predicate NoDelete(run: seq<Timed>) {
    forall e :: e in run ==> !e.step.BeginDelete?
  }

  /** Without Delete, every indexed key has its object. */
  lemma IndexAgreesWithoutDelete(cap: int, s0: State, run: seq<Timed>, m: Meta)
    requires Init(s0) && ValidRun(cap, s0, run) && NoDelete(run)
    ensures var s := Run(cap, s0, run);
      m in s.index ==> m.key in s.installed && m.key in s.store && s.store[m.key] == s.installed[m.key] && s.store[m.key].meta == m
  {
    assert forall t :: PcOf(s0.pcs, t) == Idle;
    NothingLost(cap, s0, run);
    IndexAgreesWithStorage(cap, s0, run, m);
  }

  ghost predicate DeleteFree(s: State) {
    s.lost == {} && forall t :: !PcOf(s.pcs, t).Deleting? && !PcOf(s.pcs, t).Erasing?
  }

  /** How one step moves its own thread. */
  lemma OwnThread(cap: int, s: State, e: Timed)
    requires Enabled(s, e)
    ensures var t := e.step.tid;
      && t in Do(cap, s, e).pcs
      && var pc, pc' := PcOf(s.pcs, t), Do(cap, s, e).pcs[t];
      && (pc'.Idle? || pc'.key == if e.step.Begin? || e.step.BeginDelete? then e.step.key else pc.key)
      && (pc'.Deleting? ==> e.step.BeginDelete?) && (pc'.Erasing? ==> pc.Deleting?) && (pc'.Idle? ==> pc.Erasing?)
  {
  }

  lemma FlightMovesAlone(cap: int, s: State, e: Timed, u: nat)
    requires Enabled(s, e) && u != e.step.tid && (e.step.EndFetch? || e.step.WriteStore? || e.step.InsertEntry?)
    ensures PcOf(Do(cap, s, e).pcs, u) == PcOf(s.pcs, u)
  {
    var s1, t, pc := s.(now := e.time), e.step.tid, PcOf(s.pcs, e.step.tid);
    if e.step.EndFetch? {
      assert PcOf(DoEndFetch(s1, t, pc.key, e.step.response).pcs, u) == PcOf(s.pcs, u);
    } else if e.step.WriteStore? {
      assert PcOf(DoWrite(s1, t, pc.key, pc.obj, e.step.write).pcs, u) == PcOf(s.pcs, u);
    } else {
      assert PcOf(DoInsert(cap, s1, t, pc.key, pc.obj, e.step.evictOk).pcs, u) == PcOf(s.pcs, u);
    }
  }

  lemma CheckMovesAlone(s: State, t: nat, key: string, lead: bool, u: nat)
    requires u != t
    ensures PcOf(DoCheck(s, t, key, lead).pcs, u) == PcOf(s.pcs, u)
    ensures PcOf(Missed(RemoveEntry(s, key), t, key, lead).pcs, u) == PcOf(s.pcs, u)
  {
  }

  lemma OtherThreadsStay(cap: int, s: State, e: Timed, u: nat)
    requires Enabled(s, e) && u != e.step.tid && !e.step.Finish?
    ensures PcOf(Do(cap, s, e).pcs, u) == PcOf(s.pcs, u)
  {
    var pc := PcOf(s.pcs, e.step.tid);
    if e.step.EndFetch? || e.step.WriteStore? || e.step.InsertEntry? {
      FlightMovesAlone(cap, s, e, u);
    } else if e.step.CheckIndex? || e.step.DropEntry? {
      CheckMovesAlone(s.(now := e.time), e.step.tid, pc.key, pc.lead, u);
    }
  }

  /** How one step moves the threads: its own, and the waiters of a flight that ends. */
  lemma StepThreads(cap: int, s: State, e: Timed, u: nat)
    requires Enabled(s, e) && u != e.step.tid
    ensures var a, b := PcOf(s.pcs, u), PcOf(Do(cap, s, e).pcs, u);
      b == a || (a.Waiting? && b.Done? && b.key == a.key)
  {
    if e.step.Finish? {
      var pc := PcOf(s.pcs, e.step.tid);
      assert Do(cap, s, e) == DoFinish(s.(now := e.time), e.step.tid, pc.key, pc.result);
    } else {
      OtherThreadsStay(cap, s, e, u);
    }
  }

  /** A flight that ends gives its result to its leader and its waiters. */
  lemma FinishedPc(cap: int, s: State, e: Timed, t: nat)
    requires Enabled(s, e) && e.step.Finish?
    ensures var pc := PcOf(s.pcs, e.step.tid);
      PcOf(Do(cap, s, e).pcs, t) == if t == e.step.tid || PcOf(s.pcs, t) == Waiting(pc.key) then Done(pc.key, pc.result) else PcOf(s.pcs, t)
  {
    FinishMoves(s.(now := e.time), e.step.tid, PcOf(s.pcs, e.step.tid).key, PcOf(s.pcs, e.step.tid).result);
  }

  lemma UnsharedPc(cap: int, s: State, e: Timed, t: nat)
    requires Enabled(s, e) && t != e.step.tid && !(e.step.Finish? && PcOf(s.pcs, t) == Waiting(PcOf(s.pcs, e.step.tid).key))
    ensures PcOf(Do(cap, s, e).pcs, t) == PcOf(s.pcs, t)
  {
    if e.step.Finish? {
      FinishedPc(cap, s, e, t);
    } else {
      OtherThreadsStay(cap, s, e, t);
    }
  }

  /** A thread that was not leading and is now has just started its flight. */
  lemma NewLeadChecks(cap: int, s: State, e: Timed)
    requires Enabled(s, e) && (!Leading(PcOf(s.pcs, e.step.tid)) || e.step.Finish?)
    ensures var pc' := PcOf(Do(cap, s, e).pcs, e.step.tid); Leading(pc') ==> pc'.Checking?
  {
    var s1, t, pc := s.(now := e.time), e.step.tid, PcOf(s.pcs, e.step.tid);
    if e.step.Finish? {
      FinishMoves(s1, t, pc.key, pc.result);
    } else if e.step.CheckIndex? {
      assert Do(cap, s, e) == DoCheck(s1, t, pc.key, pc.lead);
    }
  }

  lemma StepKeepsLost(cap: int, s: State, e: Timed)
    requires Enabled(s, e) && !e.step.EraseStore?
    ensures Do(cap, s, e).lost <= s.lost
  {
  }

  lemma {:induction false} NothingLost(cap: int, s: State, run: seq<Timed>)
    requires DeleteFree(s) && ValidRun(cap, s, run) && NoDelete(run)
    ensures DeleteFree(Run(cap, s, run))
    decreases |run|
  {
    if run != [] {
      var s' := Do(cap, s, run[0]);
      assert run[0] in run;
      assert !PcOf(s.pcs, run[0].step.tid).Deleting? && !PcOf(s.pcs, run[0].step.tid).Erasing?;
      OwnThread(cap, s, run[0]);
      forall t | t != run[0].step.tid ensures !PcOf(s'.pcs, t).Deleting? && !PcOf(s'.pcs, t).Erasing? {
        StepThreads(cap, s, run[0], t);
        assert !PcOf(s.pcs, t).Deleting? && !PcOf(s.pcs, t).Erasing?;
      }
      StepKeepsLost(cap, s, run[0]);
      NothingLost(cap, s', run[1..]);
    }
  }

  /** Every answer carries an object, and every hit metadata, that some flight fetched under the same key;
      a hit was fresh when its index entry was checked. */
  lemma AnswersAreAuthentic(cap: int, s0: State, run: seq<Timed>, t: nat)
    requires Init(s0) && ValidRun(cap, s0, run)
    ensures var s := Run(cap, s0, run);
      match PcOf(s.pcs, t)
      case Done(key, Hit(obj, meta, at)) =>
        && obj in s.fetched && obj.meta.key == key
        && meta.key == key && (exists o :: o in s.fetched && o.meta == meta) && at <= meta.ExpiresAt()
      case Done(key, Fetched(obj)) => obj in s.fetched && obj.meta.key == key
      case _ => true
  {
    InitInv(cap, s0);
    RunInv(cap, s0, run);
    var s := Run(cap, s0, run);
    assert ThreadOk(s.fetched, s.installed, PcOf(s.pcs, t));
  }

  /** A dangling entry (indexed, object gone) cannot be served: the storage read of a Get that has passed the
      check can only fail, and its next step takes the entry out of the index. */
  lemma DanglingEntryIsDropped(cap: int, s0: State, run: seq<Timed>, t: nat, time: int, drop: int)
    requires Init(s0) && ValidRun(cap, s0, run)
    requires var s := Run(cap, s0, run); var pc := PcOf(s.pcs, t);
      pc.Reading? && Has(s.index, pc.key) && pc.key in s.lost && s.now <= time <= drop
    ensures var s := Run(cap, s0, run); var key := PcOf(s.pcs, t).key;
      && (forall read :: Enabled(s, At(time, ReadStore(t, read))) ==> read == ReadError)
      && Enabled(s, At(time, ReadStore(t, ReadError)))
      && var s1 := Do(cap, s, At(time, ReadStore(t, ReadError)));
      && Enabled(s1, At(drop, DropEntry(t)))
      && !Has(Do(cap, s1, At(drop, DropEntry(t))).index, key)
  {
    InitInv(cap, s0);
    RunInv(cap, s0, run);
    var s := Run(cap, s0, run);
    var key := PcOf(s.pcs, t).key;
    HasIff(s.index, key);
    IndexAgreesWithStorage(cap, s0, run, Lookup(s.index, key));
    var s1 := Do(cap, s, At(time, ReadStore(t, ReadError)));
    StepInv(cap, s, At(time, ReadStore(t, ReadError)));
    RemoveEntryShape(cap, s1.(now := drop), key);
  }

  // ---- the flush-rule blob ----

  /** The run only uses keys other than `kept`. */
  ghost predicate Avoids(run: seq<Timed>, kept: string) {
    forall e :: e in run ==> match e.step
      case Begin(_, key) => key != kept
      case BeginDelete(_, key) => key != kept
      case _ => true
  }

  ghost predicate Untouched(s: State, kept: string) {
    && kept !in s.group && !Has(s.index, kept)
    && forall t :: PcOf(s.pcs, t) == Idle || PcOf(s.pcs, t).key != kept
  }

  /** No run changes what is stored under a key that no request uses. */
  lemma {:induction false} OtherKeysFramed(cap: int, s: State, run: seq<Timed>, kept: string)
    requires Inv(cap, s) && Untouched(s, kept) && ValidRun(cap, s, run) && Avoids(run, kept)
    ensures SameAt(s.store, Run(cap, s, run).store, kept)
    decreases |run|
  {
    if run != [] {
      StepFramed(cap, s, run[0], kept);
      StepInv(cap, s, run[0]);
      OtherKeysFramed(cap, Do(cap, s, run[0]), run[1..], kept);
    }
  }

  lemma ThreadsFramed(cap: int, s: State, e: Timed, kept: string, u: nat)
    requires Untouched(s, kept) && Enabled(s, e) && Avoids([e], kept)
    ensures var pc := PcOf(Do(cap, s, e).pcs, u); pc == Idle || pc.key != kept
  {
    assert PcOf(s.pcs, u) == Idle || PcOf(s.pcs, u).key != kept;
    if u == e.step.tid {
      assert e in [e];
      OwnThread(cap, s, e);
    } else {
      StepThreads(cap, s, e, u);
    }
  }

  lemma GroupFramed(s: State, kept: string)
    requires GroupOk(s.group, s.pcs) && forall u :: PcOf(s.pcs, u) == Idle || PcOf(s.pcs, u).key != kept
    ensures kept !in s.group
  {
  }

  lemma StepFramed(cap: int, s: State, e: Timed, kept: string)
    requires Inv(cap, s) && Untouched(s, kept) && Enabled(s, e) && Avoids([e], kept)
    ensures Untouched(Do(cap, s, e), kept)
    ensures SameAt(s.store, Do(cap, s, e).store, kept)
  {
    var s' := Do(cap, s, e);
    forall u ensures PcOf(s'.pcs, u) == Idle || PcOf(s'.pcs, u).key != kept {
      ThreadsFramed(cap, s, e, kept, u);
    }
    StepInv(cap, s, e);
    GroupFramed(s', kept);
    assert PcOf(s.pcs, e.step.tid) == Idle || PcOf(s.pcs, e.step.tid).key != kept;
    IndexFramed(cap, s, e, kept);
    ObjectFramed(cap, s, e, kept);
  }

  lemma IndexFramed(cap: int, s: State, e: Timed, kept: string)
    requires Inv(cap, s) && Untouched(s, kept) && Enabled(s, e)
    ensures !Has(Do(cap, s, e).index, kept)
  {
    var s1, t, pc := s.(now := e.time), e.step.tid, PcOf(s.pcs, e.step.tid);
    assert pc == Idle || pc.key != kept;
    if e.step.CheckIndex? {
      IndexOnlyLoses(s, pc.key, e.time, kept);
      assert Do(cap, s, e).index == Check(s.index, pc.key, e.time).index by {
        RemoveLength(s.index, pc.key);
      }
    } else if e.step.DropEntry? || e.step.DropForDelete? {
      IndexOnlyLoses(s, pc.key, e.time, kept);
    } else if e.step.InsertEntry? {
      InsertSpares(cap, s, t, kept);
    } else {
      IndexSteps(cap, s, e);
    }
  }

  lemma IndexSteps(cap: int, s: State, e: Timed)
    requires Enabled(s, e) && !e.step.CheckIndex? && !e.step.DropEntry? && !e.step.DropForDelete? && !e.step.InsertEntry?
    ensures Do(cap, s, e).index == s.index
  {
  }

  /** The index gains only what an insert puts in. */
  lemma IndexGains(cap: int, s: State, e: Timed, m: Meta)
    requires Inv(cap, s) && Enabled(s, e)
    ensures m in Do(cap, s, e).index ==> m in s.index || (e.step.InsertEntry? && PcOf(s.pcs, e.step.tid).obj.meta == m)
  {
    var s1, t, pc := s.(now := e.time), e.step.tid, PcOf(s.pcs, e.step.tid);
    if e.step.CheckIndex? {
      CheckFacts(s.index, pc.key, e.time);
      RemoveMembers(s.index, pc.key);
      RemoveLength(s.index, pc.key);
      assert Do(cap, s, e) == DoCheck(s1, t, pc.key, pc.lead);
    } else if e.step.DropEntry? || e.step.DropForDelete? {
      RemoveMembers(s.index, pc.key);
    } else if e.step.InsertEntry? {
      InsertFacts(s.index, pc.obj.meta, cap);
    } else {
      IndexSteps(cap, s, e);
    }
  }

  lemma InsertSpares(cap: int, s: State, t: nat, kept: string)
    requires Inv(cap, s) && PcOf(s.pcs, t).Inserting? && PcOf(s.pcs, t).key != kept && !Has(s.index, kept)
    ensures !Has(Insert(s.index, PcOf(s.pcs, t).obj.meta, cap), kept)
  {
    var pc := PcOf(s.pcs, t);
    assert InWindow(pc) && !Has(s.index, pc.key);
    assert ThreadOk(s.fetched, s.installed, pc);
    LruCache.HasInsert(s.index, pc.obj.meta, cap);
  }

  lemma CheckingStores(cap: int, s: State, e: Timed)
    requires Enabled(s, e) && (e.step.CheckIndex? || e.step.DropEntry? || e.step.DropForDelete?)
    ensures Do(cap, s, e).store == s.store
  {
    var s1, t, pc := s.(now := e.time), e.step.tid, PcOf(s.pcs, e.step.tid);
    match e.step
    case CheckIndex(_) => assert DoCheck(s1, t, pc.key, pc.lead).store == s.store;
    case DropEntry(_) => assert Missed(RemoveEntry(s1, pc.key), t, pc.key, pc.lead).store == s.store;
    case DropForDelete(_) => assert RemoveEntry(s1, pc.key).store == s.store;
  }

  /** Only three kinds of steps write to the backend. */
  lemma StoreSteps(cap: int, s: State, e: Timed)
    requires Enabled(s, e) && !e.step.WriteStore? && !e.step.InsertEntry? && !e.step.EraseStore?
    ensures Do(cap, s, e).store == s.store
  {
    var s1, t, pc := s.(now := e.time), e.step.tid, PcOf(s.pcs, e.step.tid);
    if e.step.CheckIndex? || e.step.DropEntry? || e.step.DropForDelete? {
      CheckingStores(cap, s, e);
    } else if e.step.EndFetch? {
      assert DoEndFetch(s1, t, pc.key, e.step.response).store == s.store;
    }
  }

  /** `after` says of `kept` what `before` says. */
  ghost predicate SameAt(before: ObjectMap, after: ObjectMap, kept: string) {
    (kept in after <==> kept in before) && (kept in before ==> after[kept] == before[kept])
  }

  lemma InsertFramed(cap: int, s: State, t: nat, key: string, obj: Obj, evictOk: bool, kept: string)
    requires Inv(cap, s) && PcOf(s.pcs, t) == Inserting(key, obj) && key != kept && !Has(s.index, kept)
    ensures SameAt(s.store, DoInsert(cap, s, t, key, obj, evictOk).store, kept)
  {
    assert InWindow(PcOf(s.pcs, t)) && !Has(s.index, key);
    assert ThreadOk(s.fetched, s.installed, PcOf(s.pcs, t));
    LruCache.HasInsert(s.index, obj.meta, cap);
  }

  lemma WriteFramed(s: State, t: nat, key: string, obj: Obj, write: WriteResult, kept: string)
    requires key != kept
    ensures SameAt(s.store, DoWrite(s, t, key, obj, write).store, kept)
  {
  }

  lemma ObjectFramed(cap: int, s: State, e: Timed, kept: string)
    requires Inv(cap, s) && Enabled(s, e) && !Has(s.index, kept)
    requires PcOf(s.pcs, e.step.tid) == Idle || PcOf(s.pcs, e.step.tid).key != kept
    ensures SameAt(s.store, Do(cap, s, e).store, kept)
  {
    var s1, t, pc := s.(now := e.time), e.step.tid, PcOf(s.pcs, e.step.tid);
    if e.step.InsertEntry? {
      InsertFramed(cap, s1, t, pc.key, pc.obj, e.step.evictOk, kept);
    } else if e.step.WriteStore? {
      WriteFramed(s1, t, pc.key, pc.obj, e.step.write, kept);
    } else if !e.step.EraseStore? {
      StoreSteps(cap, s, e);
    }
  }

  lemma IndexOnlyLoses(s: State, key: string, now: int, kept: string)
    requires Distinct(s.index) && !Has(s.index, kept)
    ensures !Has(RemoveEntry(s, key).index, kept) && !Has(Check(s.index, key, now).index, kept)
  {
    HasRemove(s.index, key);
    if Has(s.index, key) {
      HasTouch(s.index, key);
    }
  }

  ghost predicate IsBuilt(key: string) {
    exists domain, path, query, hash :: key == CacheKey.Format(domain, path, query, hash)
  }

  /** Every request and every delete of the run uses a key made by Build. */
  ghost predicate BuiltKeys(run: seq<Timed>) {
    forall e :: e in run && (e.step.Begin? || e.step.BeginDelete?) ==> IsBuilt(e.step.key)
  }

  /** No run of requests, evictions and deletes changes the stored flush rules. */
  lemma FlushRulesUntouched(cap: int, s0: State, run: seq<Timed>)
    requires Init(s0) && ValidRun(cap, s0, run) && BuiltKeys(run)
    ensures var before, after, k := s0.store, Run(cap, s0, run).store, CacheKey.PERSIST_KEY;
      (k in after <==> k in before) && (k in before ==> after[k] == before[k])
  {
    forall e | e in run && (e.step.Begin? || e.step.BeginDelete?) ensures e.step.key != CacheKey.PERSIST_KEY {
      assert IsBuilt(e.step.key);
      var domain, path, query, hash :| e.step.key == CacheKey.Format(domain, path, query, hash);
      CacheKey.KeyIsNotPersistKey(domain, path, query, hash);
    }
    InitInv(cap, s0);
    assert forall t :: PcOf(s0.pcs, t) == Idle;
    OtherKeysFramed(cap, s0, run, CacheKey.PERSIST_KEY);
  }

  // ---- uninterrupted calls ----

  /** The steps of a Get with nothing in between do what the sequential Get does. */
  lemma UninterruptedGet(cap: int, s: State, t: nat, key: string, time: int, readOk: bool)
    requires Distinct(s.index) && PcOf(s.pcs, t) == Checking(key, false) && time >= s.now
    ensures var (c, r) := LruCache.GetResult(LruCache.CacheState(s.index, s.store), key, time, readOk);
      var s1 := Do(cap, s, At(time, CheckIndex(t)));
      if PcOf(s1.pcs, t) == Entering(key) then r == None && s1.index == c.index && s1.store == c.store
      else
        var read := if readOk && key in s.store then ReadOk else ReadError;
        Enabled(s1, At(time, ReadStore(t, read))) &&
        var s2 := Do(cap, s1, At(time, ReadStore(t, read)));
        if read.ReadOk? then
          && s2.index == c.index && s2.store == c.store && r.Some?
          && exists obj, at :: PcOf(s2.pcs, t) == Done(key, Hit(obj, r.value.meta, at)) && obj.body == r.value.body
        else
          Enabled(s2, At(time, DropEntry(t))) &&
          var s3 := Do(cap, s2, At(time, DropEntry(t)));
          r == None && s3.index == c.index && s3.store == c.store && PcOf(s3.pcs, t) == Entering(key)
  {
    var s0 := s.(now := time);
    var s1 := Do(cap, s, At(time, CheckIndex(t)));
    assert s1 == DoCheck(s0, t, key, false);
    RemoveLength(s.index, key);
    match Check(s.index, key, time)
    case Miss(_) =>
    case Fresh(index, meta) =>
      HasTouch(s.index, key);
      if readOk && key in s.store {
        var s2 := Do(cap, s1, At(time, ReadStore(t, ReadOk)));
        assert PcOf(s2.pcs, t) == Done(key, Hit(s.store[key], meta, time));
      }
  }

  /** The two steps of a Set with nothing in between do what the sequential Set does. */
  lemma UninterruptedSet(cap: int, s: State, t: nat, key: string, obj: Obj, time: int, w: WriteResult, evictOk: bool)
    requires PcOf(s.pcs, t) == Writing(key, obj) && time >= s.now
    ensures var c := LruCache.SetResult(LruCache.CacheState(s.index, s.store), cap, key, obj, w, evictOk);
      var s1 := Do(cap, s, At(time, WriteStore(t, w)));
      if w.Written? then
        Enabled(s1, At(time, InsertEntry(t, evictOk))) &&
        var s2 := Do(cap, s1, At(time, InsertEntry(t, evictOk)));
        s2.index == c.index && s2.store == c.store && PcOf(s2.pcs, t) == Returning(key, Fetched(obj))
      else s1.index == c.index && s1.store == c.store && PcOf(s1.pcs, t) == Returning(key, Fetched(obj))
  {
    var s1 := Do(cap, s, At(time, WriteStore(t, w)));
    assert s1 == DoWrite(s.(now := time), t, key, obj, w);
  }

  /** The two steps of a Delete with nothing in between do what the sequential Delete does. */
  lemma UninterruptedDelete(cap: int, s: State, t: nat, key: string, time: int, ok: bool)
    requires PcOf(s.pcs, t) == Deleting(key) && time >= s.now
    ensures var c := LruCache.DeleteResult(LruCache.CacheState(s.index, s.store), key, ok);
      var s1 := Do(cap, s, At(time, DropForDelete(t)));
      Enabled(s1, At(time, EraseStore(t, ok))) &&
      var s2 := Do(cap, s1, At(time, EraseStore(t, ok)));
      s2.index == c.index && s2.store == c.store && PcOf(s2.pcs, t) == Idle
  {
    RemoveLength(s.index, key);
  }
}
