/** What can happen between the index check of a hit and its storage read, when no two steps read the same time. */
module ProtocolOvertaking {
  import opened Objects
  import opened LruIndex
  import opened Protocol
  import opened ProtocolSafety
  import opened ProtocolTime
  import opened ProtocolFlights
  import ProtocolTheorems

  /** The state after the first n steps. */
  ghost function After(cap: int, s: State, run: seq<Timed>, n: nat): State
    requires ValidRun(cap, s, run) && n <= |run|
    decreases n
  {
    if n == 0 then s else After(cap, Do(cap, s, run[0]), run[1..], n - 1)
  }

  lemma {:induction false} AfterStep(cap: int, s: State, run: seq<Timed>, n: nat)
    requires ValidRun(cap, s, run) && n < |run|
    ensures Enabled(After(cap, s, run, n), run[n])
    ensures After(cap, s, run, n + 1) == Do(cap, After(cap, s, run, n), run[n])
    decreases n
  {
    if n > 0 {
      AfterStep(cap, Do(cap, s, run[0]), run[1..], n - 1);
    }
  }

  lemma {:induction false} AfterAll(cap: int, s: State, run: seq<Timed>)
    requires ValidRun(cap, s, run)
    ensures After(cap, s, run, |run|) == Run(cap, s, run)
    decreases |run|
  {
    if run != [] {
      AfterAll(cap, Do(cap, s, run[0]), run[1..]);
    }
  }

  lemma {:induction false} AfterTimed(cap: int, s: State, run: seq<Timed>, n: nat)
    requires Inv(cap, s) && Timely(s) && ValidRun(cap, s, run) && StrictClock(s.now, run) && n <= |run|
    ensures Inv(cap, After(cap, s, run, n)) && Timely(After(cap, s, run, n))
    ensures n < |run| ==> run[n].time > After(cap, s, run, n).now
    decreases n
  {
    if n > 0 {
      StepInv(cap, s, run[0]);
      StepTimed(cap, s, run[0]);
      NowIsTime(cap, s, run[0]);
      AfterTimed(cap, Do(cap, s, run[0]), run[1..], n - 1);
    }
  }

  /** A strictly timed run from a fresh start. */
  ghost predicate StrictRun(cap: int, s0: State, run: seq<Timed>) {
    Init(s0) && ValidRun(cap, s0, run) && StrictClock(s0.now, run)
  }

  lemma AfterFresh(cap: int, s0: State, run: seq<Timed>, n: nat)
    requires StrictRun(cap, s0, run) && n <= |run|
    ensures Inv(cap, After(cap, s0, run, n)) && Timely(After(cap, s0, run, n))
    ensures n < |run| ==> run[n].time > After(cap, s0, run, n).now
  {
    InitInv(cap, s0);
    assert Timely(s0) by {
      assert forall u :: PcOf(s0.pcs, u) == Idle;
    }
    AfterTimed(cap, s0, run, n);
  }

  // ---- between the check and the read ----

  /** The step leaves a flight's new object in storage under the key. */
  predicate Stores(s: State, e: Timed, key: string) {
    && e.step.WriteStore? && (e.step.write.Written? || e.step.write.FailedKept?)
    && PcOf(s.pcs, e.step.tid).Writing? && PcOf(s.pcs, e.step.tid).key == key
  }

  /** Some flight has stored its object under the key between step i and step j of the run. */
  ghost predicate Overwritten(cap: int, s0: State, run: seq<Timed>, i: nat, j: nat, key: string)
    requires ValidRun(cap, s0, run) && j <= |run|
  {
    exists w :: i < w < j && Stores(After(cap, s0, run, w), run[w], key)
  }

  /** Step i is the index check and step j the successful storage read of one Get of thread t. */
  ghost predicate Span(run: seq<Timed>, t: nat, i: nat, j: nat) {
    && i < j < |run| && run[i].step == CheckIndex(t) && run[j].step == ReadStore(t, ReadOk)
    && forall k :: i < k < j ==> run[k].step.tid != t
  }

  ghost predicate Same(s: State, key: string, meta: Meta) {
    key in s.store ==> s.store[key].meta == meta
  }

  ghost predicate Newer(s: State, key: string, at: int) {
    key in s.store ==> s.store[key].meta.writtenAt > at
  }

  lemma OthersStore(cap: int, s: State, e: Timed, key: string)
    requires Enabled(s, e) && !Stores(s, e, key)
    ensures var s' := Do(cap, s, e); key in s'.store ==> key in s.store && s'.store[key] == s.store[key]
  {
    var s1, t, pc := s.(now := e.time), e.step.tid, PcOf(s.pcs, e.step.tid);
    match e.step
    case WriteStore(_, write) => assert Do(cap, s, e).store == DoWrite(s1, t, pc.key, pc.obj, write).store;
    case InsertEntry(_, evictOk) => assert Do(cap, s, e).store == DoInsert(cap, s1, t, pc.key, pc.obj, evictOk).store;
    case EraseStore(_, ok) => assert Do(cap, s, e).store == if ok then s.store - {pc.key} else s.store;
    case _ => ProtocolTheorems.StoreSteps(cap, s, e);
  }

  /** What a flight stores under a key that is being read was fetched after the reader's check. */
  lemma StoresNewer(cap: int, s: State, e: Timed, t: nat)
    requires Timely(s) && Enabled(s, e) && PcOf(s.pcs, t).Reading? && Stores(s, e, PcOf(s.pcs, t).key)
    ensures Newer(Do(cap, s, e), PcOf(s.pcs, t).key, PcOf(s.pcs, t).at)
  {
    var s1, u, pc := s.(now := e.time), e.step.tid, PcOf(s.pcs, e.step.tid);
    assert Apart(PcOf(s.pcs, t), pc);
    assert Do(cap, s, e).store == DoWrite(s1, u, pc.key, pc.obj, e.step.write).store;
  }

  /** The thread still reads, with the object its metadata describes unless a flight has stored another since. */
  ghost predicate Pending(s: State, t: nat, pc: Pc, over: bool) {
    pc.Reading? && PcOf(s.pcs, t) == pc && if over then Newer(s, pc.key, pc.at) else Same(s, pc.key, pc.meta)
  }

  lemma PendingStep(cap: int, s: State, e: Timed, t: nat, pc: Pc, over: bool)
    requires Timely(s) && Enabled(s, e) && e.step.tid != t && Pending(s, t, pc, over)
    ensures Pending(Do(cap, s, e), t, pc, over || Stores(s, e, pc.key))
  {
    ProtocolTheorems.StepThreads(cap, s, e, t);
    if Stores(s, e, pc.key) {
      StoresNewer(cap, s, e, t);
    } else {
      OthersStore(cap, s, e, pc.key);
    }
  }

  lemma AfterCheck(cap: int, s: State, e: Timed)
    requires Inv(cap, s) && Enabled(s, e) && e.step.CheckIndex?
    ensures var pc := PcOf(Do(cap, s, e).pcs, e.step.tid);
      pc.Reading? ==> pc.key == PcOf(s.pcs, e.step.tid).key && pc.at == e.time && Same(Do(cap, s, e), pc.key, pc.meta)
  {
    var s1, t, key, lead := s.(now := e.time), e.step.tid, PcOf(s.pcs, e.step.tid).key, PcOf(s.pcs, e.step.tid).lead;
    assert Do(cap, s, e) == DoCheck(s1, t, key, lead);
    CheckFacts(s.index, key, e.time);
    if Check(s.index, key, e.time).Fresh? {
      assert Placed(s.store, s.lost, key, s.installed[key]);
    }
  }

  /** The key that the thread's Get looks up. */
  function KeyAt(s: State, t: nat): string {
    if PcOf(s.pcs, t).Idle? then "" else PcOf(s.pcs, t).key
  }

  lemma {:induction false} Meanwhile(cap: int, s0: State, run: seq<Timed>, t: nat, i: nat, n: nat) returns (pc: Pc)
    requires StrictRun(cap, s0, run) && i < n < |run| && run[i].step == CheckIndex(t)
    requires PcOf(After(cap, s0, run, n).pcs, t).Reading? && forall k :: i < k < n ==> run[k].step.tid != t
    ensures pc.Reading? && pc.at == run[i].time && pc.key == KeyAt(After(cap, s0, run, i), t)
    ensures Pending(After(cap, s0, run, n), t, pc, Overwritten(cap, s0, run, i, n, pc.key))
    decreases n
  {
    if i == n - 1 {
      pc := JustChecked(cap, s0, run, t, i);
    } else {
      StillReading(cap, s0, run, t, n - 1);
      pc := Meanwhile(cap, s0, run, t, i, n - 1);
      StillPending(cap, s0, run, t, i, n - 1, pc);
    }
  }

  lemma StillPending(cap: int, s0: State, run: seq<Timed>, t: nat, i: nat, n: nat, pc: Pc)
    requires StrictRun(cap, s0, run) && i < n < |run| && run[n].step.tid != t && pc.Reading?
    requires Pending(After(cap, s0, run, n), t, pc, Overwritten(cap, s0, run, i, n, pc.key))
    ensures Pending(After(cap, s0, run, n + 1), t, pc, Overwritten(cap, s0, run, i, n + 1, pc.key))
  {
    AfterFresh(cap, s0, run, n);
    AfterStep(cap, s0, run, n);
    PendingStep(cap, After(cap, s0, run, n), run[n], t, pc, Overwritten(cap, s0, run, i, n, pc.key));
    OneMore(cap, s0, run, i, n, pc.key);
  }

  lemma JustChecked(cap: int, s0: State, run: seq<Timed>, t: nat, i: nat) returns (pc: Pc)
    requires StrictRun(cap, s0, run) && i < |run| && run[i].step == CheckIndex(t)
    requires PcOf(After(cap, s0, run, i + 1).pcs, t).Reading?
    ensures pc.Reading? && pc.at == run[i].time && pc.key == KeyAt(After(cap, s0, run, i), t)
    ensures Pending(After(cap, s0, run, i + 1), t, pc, Overwritten(cap, s0, run, i, i + 1, pc.key))
  {
    AfterFresh(cap, s0, run, i);
    AfterStep(cap, s0, run, i);
    AfterCheck(cap, After(cap, s0, run, i), run[i]);
    pc := PcOf(After(cap, s0, run, i + 1).pcs, t);
  }

  lemma StillReading(cap: int, s0: State, run: seq<Timed>, t: nat, n: nat)
    requires ValidRun(cap, s0, run) && n < |run| && run[n].step.tid != t
    requires PcOf(After(cap, s0, run, n + 1).pcs, t).Reading?
    ensures PcOf(After(cap, s0, run, n).pcs, t) == PcOf(After(cap, s0, run, n + 1).pcs, t)
  {
    AfterStep(cap, s0, run, n);
    ProtocolTheorems.StepThreads(cap, After(cap, s0, run, n), run[n], t);
  }

  lemma OneMore(cap: int, s0: State, run: seq<Timed>, i: nat, n: nat, key: string)
    requires ValidRun(cap, s0, run) && i < n < |run|
    ensures Overwritten(cap, s0, run, i, n + 1, key) <==>
      Overwritten(cap, s0, run, i, n, key) || Stores(After(cap, s0, run, n), run[n], key)
  {
  }

  /** The answer a Get of the thread has just made. */
  predicate Answers(pc: Pc, key: string, r: Result) {
    pc == Returning(key, r) || pc == Done(key, r)
  }

  lemma ReadAnswers(cap: int, s: State, e: Timed)
    requires Enabled(s, e) && e.step.ReadStore? && e.step.read.ReadOk?
    ensures var t, pc := e.step.tid, PcOf(s.pcs, e.step.tid);
      Answers(PcOf(Do(cap, s, e).pcs, t), pc.key, Hit(s.store[pc.key], pc.meta, pc.at))
  {
  }

  /** A Get that finds a fresh entry at step i and reads its object at step j answers with the very object its
      metadata describes exactly when no flight has stored an object under the key in between. */
  lemma SpanDecides(cap: int, s0: State, run: seq<Timed>, t: nat, i: nat, j: nat)
    requires StrictRun(cap, s0, run) && Span(run, t, i, j)
    ensures var key := KeyAt(After(cap, s0, run, i), t);
      exists obj, meta ::
        && Answers(PcOf(After(cap, s0, run, j + 1).pcs, t), key, Hit(obj, meta, run[i].time))
        && (obj.meta == meta <==> !Overwritten(cap, s0, run, i, j, key))
  {
    AfterFresh(cap, s0, run, j);
    AfterStep(cap, s0, run, j);
    var s := After(cap, s0, run, j);
    var pc := Meanwhile(cap, s0, run, t, i, j);
    ReadAnswers(cap, s, run[j]);
    MetaDecides(s, t, pc, Overwritten(cap, s0, run, i, j, pc.key));
    assert Answers(PcOf(After(cap, s0, run, j + 1).pcs, t), pc.key, Hit(s.store[pc.key], pc.meta, run[i].time));
  }

  lemma MetaDecides(s: State, t: nat, pc: Pc, over: bool)
    requires Timely(s) && Pending(s, t, pc, over) && pc.key in s.store
    ensures s.store[pc.key].meta == pc.meta <==> !over
  {
    assert ThreadTimed(s.now, s.store, PcOf(s.pcs, t));
  }

  // ---- every hit has its span ----

  lemma OnlyCheckReads(cap: int, s: State, e: Timed)
    requires Enabled(s, e) && !e.step.CheckIndex?
    ensures !PcOf(Do(cap, s, e).pcs, e.step.tid).Reading?
  {
    var s1, t, pc := s.(now := e.time), e.step.tid, PcOf(s.pcs, e.step.tid);
    if e.step.EndFetch? {
      assert !PcOf(DoEndFetch(s1, t, pc.key, e.step.response).pcs, t).Reading?;
    } else if e.step.WriteStore? {
      assert !PcOf(DoWrite(s1, t, pc.key, pc.obj, e.step.write).pcs, t).Reading?;
    } else if e.step.InsertEntry? {
      assert !PcOf(DoInsert(cap, s1, t, pc.key, pc.obj, e.step.evictOk).pcs, t).Reading?;
    } else if e.step.Finish? {
      FinishMoves(s1, t, pc.key, pc.result);
    }
  }

  /** A thread that reads has checked the index, and has done nothing since. */
  lemma {:induction false} FindCheck(cap: int, s0: State, run: seq<Timed>, t: nat, n: nat) returns (i: nat)
    requires Init(s0) && ValidRun(cap, s0, run) && n <= |run| && PcOf(After(cap, s0, run, n).pcs, t).Reading?
    ensures i < n && run[i].step == CheckIndex(t) && forall k :: i < k < n ==> run[k].step.tid != t
    decreases n
  {
    assert n > 0;
    if run[n - 1].step.tid == t {
      AfterStep(cap, s0, run, n - 1);
      if !run[n - 1].step.CheckIndex? {
        OnlyCheckReads(cap, After(cap, s0, run, n - 1), run[n - 1]);
      }
      i := n - 1;
    } else {
      StillReading(cap, s0, run, t, n - 1);
      i := FindCheck(cap, s0, run, t, n - 1);
    }
  }

  /** A hit comes from a storage read of the thread, or from the leader of its flight. */
  lemma HitComes(cap: int, s: State, e: Timed, t: nat, key: string, r: Result)
    requires Enabled(s, e) && Answers(PcOf(Do(cap, s, e).pcs, t), key, r) && r.Hit?
    ensures
      || Answers(PcOf(s.pcs, t), key, r)
      || e.step == ReadStore(t, ReadOk)
      || (e.step.Finish? && PcOf(s.pcs, e.step.tid) == Returning(key, r))
  {
    var s1, u, pc := s.(now := e.time), e.step.tid, PcOf(s.pcs, e.step.tid);
    if e.step.Finish? {
      FinishMoves(s1, u, pc.key, pc.result);
    } else if u != t {
      ProtocolTheorems.OtherThreadsStay(cap, s, e, t);
    } else if !(e.step.ReadStore? && e.step.read.ReadOk?) {
      OwnAnswer(cap, s, e);
    }
  }

  predicate HasHit(pc: Pc) {
    (pc.Returning? || pc.Done?) && pc.result.Hit?
  }

  lemma OwnAnswer(cap: int, s: State, e: Timed)
    requires Enabled(s, e) && !e.step.Finish? && !(e.step.ReadStore? && e.step.read.ReadOk?)
    ensures !HasHit(PcOf(Do(cap, s, e).pcs, e.step.tid))
  {
    var s1, t, pc := s.(now := e.time), e.step.tid, PcOf(s.pcs, e.step.tid);
    if e.step.CheckIndex? {
      assert !HasHit(PcOf(DoCheck(s1, t, pc.key, pc.lead).pcs, t));
    } else if e.step.EndFetch? {
      assert !HasHit(PcOf(DoEndFetch(s1, t, pc.key, e.step.response).pcs, t));
    } else if e.step.WriteStore? {
      assert !HasHit(PcOf(DoWrite(s1, t, pc.key, pc.obj, e.step.write).pcs, t));
    } else if e.step.InsertEntry? {
      assert !HasHit(PcOf(DoInsert(cap, s1, t, pc.key, pc.obj, e.step.evictOk).pcs, t));
    }
  }

  lemma {:induction false} FindSpan(cap: int, s0: State, run: seq<Timed>, t: nat, n: nat, key: string, r: Result)
    returns (u: nat, i: nat, j: nat)
    requires Init(s0) && ValidRun(cap, s0, run) && n <= |run| && r.Hit? && Answers(PcOf(After(cap, s0, run, n).pcs, t), key, r)
    ensures j < n && Span(run, u, i, j) && Answers(PcOf(After(cap, s0, run, j + 1).pcs, u), key, r)
    decreases n
  {
    assert n > 0;
    var from := OneBack(cap, s0, run, t, n - 1, key, r);
    if from.Some? {
      u, i, j := FindSpan(cap, s0, run, from.value, n - 1, key, r);
    } else {
      u, j := t, n - 1;
      i := FindCheck(cap, s0, run, t, j);
    }
  }

  /** Whoever had the hit before step n, unless step n is the read it comes from. */
  lemma OneBack(cap: int, s0: State, run: seq<Timed>, t: nat, n: nat, key: string, r: Result) returns (from: Option<nat>)
    requires ValidRun(cap, s0, run) && n < |run| && r.Hit? && Answers(PcOf(After(cap, s0, run, n + 1).pcs, t), key, r)
    ensures from.Some? ==> Answers(PcOf(After(cap, s0, run, n).pcs, from.value), key, r)
    ensures from.None? ==> run[n].step == ReadStore(t, ReadOk) && PcOf(After(cap, s0, run, n).pcs, t).Reading?
  {
    var s, e := After(cap, s0, run, n), run[n];
    AfterStep(cap, s0, run, n);
    HitComes(cap, s, e, t, key, r);
    from := if Answers(PcOf(s.pcs, t), key, r) then Some(t) else if e.step == ReadStore(t, ReadOk) then None else Some(e.step.tid);
  }

  // ---- which object a hit carries ----

  /** Step w is the last between i and j that leaves a flight's object in storage under the key. */
  ghost predicate LastStore(cap: int, s0: State, run: seq<Timed>, i: nat, j: nat, key: string, w: nat)
    requires ValidRun(cap, s0, run) && j <= |run|
  {
    i < w < j && Stores(After(cap, s0, run, w), run[w], key) && forall v :: w < v < j ==> !Stores(After(cap, s0, run, v), run[v], key)
  }

  /** The object that the thread of the step is writing. */
  function BeingWritten(s: State, e: Timed): Option<Obj> {
    var pc := PcOf(s.pcs, e.step.tid);
    if pc.Writing? then Some(pc.obj) else None
  }

  /** If a flight has stored an object since step i and the key still has one, it is the last one stored. */
  lemma {:induction false} LastStoreStays(cap: int, s0: State, run: seq<Timed>, i: nat, n: nat, key: string, w: nat)
    requires ValidRun(cap, s0, run) && i < n <= |run| && LastStore(cap, s0, run, i, n, key, w)
    ensures var s := After(cap, s0, run, n); key in s.store ==> BeingWritten(After(cap, s0, run, w), run[w]) == Some(s.store[key])
    decreases n
  {
    var s := After(cap, s0, run, n - 1);
    AfterStep(cap, s0, run, n - 1);
    if w == n - 1 {
      StoresWritten(cap, s, run[w], key);
    } else {
      OthersStore(cap, s, run[n - 1], key);
      LastStoreStays(cap, s0, run, i, n - 1, key, w);
    }
  }

  lemma StoresWritten(cap: int, s: State, e: Timed, key: string)
    requires Enabled(s, e) && Stores(s, e, key)
    ensures var s' := Do(cap, s, e); key in s'.store && BeingWritten(s, e) == Some(s'.store[key])
  {
    var pc := PcOf(s.pcs, e.step.tid);
    assert Do(cap, s, e).store == DoWrite(s.(now := e.time), e.step.tid, pc.key, pc.obj, e.step.write).store;
  }

  lemma {:induction false} SomeLast(cap: int, s0: State, run: seq<Timed>, i: nat, n: nat, key: string) returns (w: nat)
    requires ValidRun(cap, s0, run) && i < n <= |run| && Overwritten(cap, s0, run, i, n, key)
    ensures LastStore(cap, s0, run, i, n, key, w)
    decreases n
  {
    if Stores(After(cap, s0, run, n - 1), run[n - 1], key) && i < n - 1 {
      w := n - 1;
    } else {
      w := SomeLast(cap, s0, run, i, n - 1, key);
    }
  }

  /** The last object stored under the key between i and j must not be stored (its TTL is 0 or less). */
  ghost predicate LastIsNoStore(cap: int, s0: State, run: seq<Timed>, i: nat, j: nat, key: string)
    requires ValidRun(cap, s0, run) && j <= |run|
  {
    exists w: nat, o :: LastStore(cap, s0, run, i, j, key, w) && BeingWritten(After(cap, s0, run, w), run[w]) == Some(o) && o.meta.ttl <= 0
  }

  /** The object read at step j is the last one stored since step i, if any was. */
  lemma SpanReads(cap: int, s0: State, run: seq<Timed>, t: nat, i: nat, j: nat, key: string, r: Result)
    requires ValidRun(cap, s0, run) && Span(run, t, i, j) && r.Hit? && Answers(PcOf(After(cap, s0, run, j + 1).pcs, t), key, r)
    ensures forall w: nat :: LastStore(cap, s0, run, i, j, key, w) ==> BeingWritten(After(cap, s0, run, w), run[w]) == Some(r.obj)
  {
    AfterStep(cap, s0, run, j);
    ReadAnswers(cap, After(cap, s0, run, j), run[j]);
    forall w: nat | LastStore(cap, s0, run, i, j, key, w) ensures BeingWritten(After(cap, s0, run, w), run[w]) == Some(r.obj) {
      LastStoreStays(cap, s0, run, i, j, key, w);
    }
  }

  /** In every run each hit, also one that waiters get from their leader, stems from an index check at some step
      i and a storage read at some later step j. It carries the last object that a flight has stored under the
      key between the two; if there is none, the object its metadata describes, and only then. */
  lemma HitMatchesExactly(cap: int, s0: State, run: seq<Timed>, t: nat, key: string, obj: Obj, meta: Meta, at: int)
    returns (u: nat, i: nat, j: nat)
    requires StrictRun(cap, s0, run) && PcOf(Run(cap, s0, run).pcs, t) == Done(key, Hit(obj, meta, at))
    ensures Span(run, u, i, j) && run[i].time == at && KeyAt(After(cap, s0, run, i), u) == key
    ensures obj.meta == meta <==> !Overwritten(cap, s0, run, i, j, key)
    ensures forall w: nat :: LastStore(cap, s0, run, i, j, key, w) ==> BeingWritten(After(cap, s0, run, w), run[w]) == Some(obj)
  {
    AfterAll(cap, s0, run);
    u, i, j := FindSpan(cap, s0, run, t, |run|, key, Hit(obj, meta, at));
    SpanDecides(cap, s0, run, u, i, j);
    SpanReads(cap, s0, run, u, i, j, key, Hit(obj, meta, at));
  }

  /** The hit checked at that time carries a response that must not be stored exactly when the last object stored
      between its index check and its storage read is one. */
  ghost predicate NoStoreDecided(cap: int, s0: State, run: seq<Timed>, key: string, at: int, noStore: bool)
    requires ValidRun(cap, s0, run)
  {
    exists u: nat, i: nat, j: nat ::
      && Span(run, u, i, j) && run[i].time == at && KeyAt(After(cap, s0, run, i), u) == key
      && (noStore <==> LastIsNoStore(cap, s0, run, i, j, key))
  }

  lemma NoStoreHit(cap: int, s0: State, run: seq<Timed>, t: nat, key: string, obj: Obj, meta: Meta, at: int)
    requires StrictRun(cap, s0, run) && PcOf(Run(cap, s0, run).pcs, t) == Done(key, Hit(obj, meta, at)) && meta.ttl > 0
    ensures NoStoreDecided(cap, s0, run, key, at, obj.meta.ttl <= 0)
  {
    var u, i, j := HitMatchesExactly(cap, s0, run, t, key, obj, meta, at);
    if Overwritten(cap, s0, run, i, j, key) {
      var w := SomeLast(cap, s0, run, i, j, key);
    }
    assert obj.meta.ttl <= 0 <==> LastIsNoStore(cap, s0, run, i, j, key);
  }

  /** A response that must not be stored (TTL 0 or less) reaches a request that led or joined the flight that
      fetched it before it ended, and a hit exactly when it is the last object stored between the hit's index check
      and its storage read; its metadata never reaches a hit. */
  lemma NoStoreReachesExactly(cap: int, s0: State, run: seq<Timed>, t: nat)
    requires StrictRun(cap, s0, run)
    ensures var h, pc := TraceOf(cap, s0, START, run), PcOf(Run(cap, s0, run).pcs, t);
      && (pc.Done? && pc.result.Fetched? ==>
            && t in h.joined && h.joined[t].flight < |h.flights|
            && var f := h.flights[h.joined[t].flight];
            && f.key == pc.key && f.brought == Some(pc.result.obj)
            && f.ended.Some? && f.began <= h.joined[t].at < f.ended.value.at)
      && (pc.Done? && pc.result.Hit? ==>
            && pc.result.meta.ttl > 0
            && NoStoreDecided(cap, s0, run, pc.key, pc.result.at, pc.result.obj.meta.ttl <= 0))
  {
    FlightIsShared(cap, s0, run, t);
    var pc := PcOf(Run(cap, s0, run).pcs, t);
    if pc.Done? && pc.result.Hit? {
      var Hit(obj, meta, at) := pc.result;
      AfterAll(cap, s0, run);
      AfterFresh(cap, s0, run, |run|);
      ProtocolTheorems.AnswersAreAuthentic(cap, s0, run, t);
      NoStoreHit(cap, s0, run, t, pc.key, obj, meta, at);
    }
  }
}
