/** Where answers come from: responses of the origin, and failures of the origin or of a read. */
module ProtocolProvenance {
  import opened Objects
  import opened Protocol
  import opened ProtocolSafety
  import opened ProtocolOvertaking
  import ProtocolTheorems

  /** The step ends a fetch for the key with a response, and the object is that response, stamped with the time. */
  predicate Brings(s: State, e: Timed, key: string, obj: Obj) {
    && e.step.EndFetch? && PcOf(s.pcs, e.step.tid) == Fetching(key) && e.step.response.Response?
    && obj.body == e.step.response.body && obj.meta.headers == e.step.response.headers && obj.meta.ttl == e.step.response.ttl
    && obj.meta.key == key && obj.meta.writtenAt == e.time && obj.meta.size == |e.step.response.body|
  }

  lemma StepBrings(cap: int, s: State, e: Timed, obj: Obj)
    requires Enabled(s, e)
    ensures obj in Do(cap, s, e).fetched ==> obj in s.fetched || Brings(s, e, obj.meta.key, obj)
  {
    var s1, t, pc := s.(now := e.time), e.step.tid, PcOf(s.pcs, e.step.tid);
    match e.step
    case EndFetch(_, response) => assert Do(cap, s, e) == DoEndFetch(s1, t, pc.key, response);
    case CheckIndex(_) => assert Do(cap, s, e) == DoCheck(s1, t, pc.key, pc.lead);
    case WriteStore(_, write) => assert Do(cap, s, e) == DoWrite(s1, t, pc.key, pc.obj, write);
    case InsertEntry(_, evictOk) => assert Do(cap, s, e) == DoInsert(cap, s1, t, pc.key, pc.obj, evictOk);
    case _ =>
  }

  lemma {:induction false} FetchedWasBrought(cap: int, s0: State, run: seq<Timed>, n: nat, obj: Obj) returns (i: nat)
    requires Init(s0) && ValidRun(cap, s0, run) && n <= |run| && obj in After(cap, s0, run, n).fetched
    ensures i < n && Brings(After(cap, s0, run, i), run[i], obj.meta.key, obj)
    decreases n
  {
    assert n > 0;
    AfterStep(cap, s0, run, n - 1);
    StepBrings(cap, After(cap, s0, run, n - 1), run[n - 1], obj);
    if Brings(After(cap, s0, run, n - 1), run[n - 1], obj.meta.key, obj) {
      i := n - 1;
    } else {
      i := FetchedWasBrought(cap, s0, run, n - 1, obj);
    }
  }

  ghost predicate WasBrought(cap: int, s0: State, run: seq<Timed>, key: string, obj: Obj)
    requires ValidRun(cap, s0, run)
  {
    exists i: nat :: i < |run| && Brings(After(cap, s0, run, i), run[i], key, obj)
  }

  /** In every run the object of every answer is a response that the origin gave in that run for the same key: its
      body, headers and lifetime, with the size of the body and the time at which it came. */
  lemma AnswersComeFromTheOrigin(cap: int, s0: State, run: seq<Timed>, t: nat)
    requires Init(s0) && ValidRun(cap, s0, run)
    ensures var pc := PcOf(Run(cap, s0, run).pcs, t);
      pc.Done? && !pc.result.Failed? ==> WasBrought(cap, s0, run, pc.key, pc.result.obj)
  {
    ProtocolTheorems.AnswersAreAuthentic(cap, s0, run, t);
    AfterAll(cap, s0, run);
    var pc := PcOf(Run(cap, s0, run).pcs, t);
    if pc.Done? && !pc.result.Failed? {
      var i := FetchedWasBrought(cap, s0, run, |run|, pc.result.obj);
    }
  }

  // ---- failures ----

  /** The step fails the flight of the key: the origin does, or the body of a stored object cannot be read. */
  predicate Fails(s: State, e: Timed, key: string) {
    && PcOf(s.pcs, e.step.tid) != Idle && PcOf(s.pcs, e.step.tid).key == key && Leading(PcOf(s.pcs, e.step.tid))
    && ((e.step.EndFetch? && e.step.response.Unavailable?) || (e.step.ReadStore? && e.step.read.BodyError?))
  }

  predicate HasFailed(pc: Pc, key: string) {
    pc == Returning(key, Failed) || pc == Done(key, Failed)
  }

  /** What fails a flight is what its leader returns. */
  lemma FailsReturns(cap: int, s: State, e: Timed, key: string)
    requires Enabled(s, e) && Fails(s, e, key)
    ensures PcOf(Do(cap, s, e).pcs, e.step.tid) == Returning(key, Failed)
  {
    if e.step.EndFetch? {
      assert Do(cap, s, e) == DoEndFetch(s.(now := e.time), e.step.tid, key, Unavailable);
    }
  }

  lemma ChecksDoNotFail(s: State, t: nat, k: string, lead: bool, key: string)
    ensures !HasFailed(PcOf(DoCheck(s, t, k, lead).pcs, t), key) && !HasFailed(PcOf(Missed(s, t, k, lead).pcs, t), key)
  {
  }

  /** A failed Set is no failure. */
  lemma SetsDoNotFail(cap: int, s: State, t: nat, k: string, obj: Obj, write: WriteResult, evictOk: bool, key: string)
    ensures !HasFailed(PcOf(DoWrite(s, t, k, obj, write).pcs, t), key)
    ensures !HasFailed(PcOf(DoInsert(cap, s, t, k, obj, evictOk).pcs, t), key)
  {
  }

  lemma OwnFailure(cap: int, s: State, e: Timed, key: string)
    requires Enabled(s, e) && !e.step.Finish?
    ensures HasFailed(PcOf(Do(cap, s, e).pcs, e.step.tid), key) ==> Fails(s, e, key)
  {
    var s1, t, pc := s.(now := e.time), e.step.tid, PcOf(s.pcs, e.step.tid);
    if e.step.CheckIndex? {
      ChecksDoNotFail(s1, t, pc.key, pc.lead, key);
    } else if e.step.DropEntry? {
      ChecksDoNotFail(RemoveEntry(s1, pc.key), t, pc.key, pc.lead, key);
    } else if e.step.WriteStore? {
      SetsDoNotFail(cap, s1, t, pc.key, pc.obj, e.step.write, true, key);
    } else if e.step.InsertEntry? {
      SetsDoNotFail(cap, s1, t, pc.key, pc.obj, Written, e.step.evictOk, key);
    } else if e.step.EndFetch? {
      FetchFails(s1, t, pc.key, e.step.response, key);
    }
  }

  lemma FetchFails(s: State, t: nat, k: string, response: FetchOutcome, key: string)
    ensures HasFailed(PcOf(DoEndFetch(s, t, k, response).pcs, t), key) <==> k == key && response.Unavailable?
  {
  }

  lemma FailureComes(cap: int, s: State, e: Timed, t: nat, key: string) returns (from: Option<nat>)
    requires Enabled(s, e) && HasFailed(PcOf(Do(cap, s, e).pcs, t), key)
    ensures from.Some? ==> HasFailed(PcOf(s.pcs, from.value), key)
    ensures from.None? ==> Fails(s, e, key)
  {
    var pc := PcOf(s.pcs, e.step.tid);
    if e.step.Finish? {
      ProtocolTheorems.FinishedPc(cap, s, e, t);
      from := if t == e.step.tid || PcOf(s.pcs, t) == Waiting(pc.key) then Some(e.step.tid) else Some(t);
    } else if t != e.step.tid {
      ProtocolTheorems.OtherThreadsStay(cap, s, e, t);
      from := Some(t);
    } else {
      OwnFailure(cap, s, e, key);
      from := None;
    }
  }

  /** In every run a request fails only when the origin has failed a flight of its key, or the body of a stored
      object could not be read in one; a failed write never fails a request. */
  lemma {:induction false} FailuresAreReal(cap: int, s0: State, run: seq<Timed>, n: nat, t: nat, key: string) returns (i: nat)
    requires Init(s0) && ValidRun(cap, s0, run) && n <= |run| && HasFailed(PcOf(After(cap, s0, run, n).pcs, t), key)
    ensures i < n && Fails(After(cap, s0, run, i), run[i], key)
    decreases n
  {
    assert n > 0;
    AfterStep(cap, s0, run, n - 1);
    var from := FailureComes(cap, After(cap, s0, run, n - 1), run[n - 1], t, key);
    if from.Some? {
      i := FailuresAreReal(cap, s0, run, n - 1, from.value, key);
    } else {
      i := n - 1;
    }
  }
}
