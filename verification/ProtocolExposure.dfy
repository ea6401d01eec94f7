/** When a request that is about to look up its key can still be given something old. */
module ProtocolExposure {
  import opened Objects
  import opened LruIndex
  import opened Protocol
  import opened ProtocolSafety
  import ProtocolTheorems
  import ProtocolOvertaking
  import ProtocolRaces

  /** The stored object was written before c. */
  predicate OlderStored(s: State, key: string, c: int) {
    key in s.store && s.store[key].meta.writtenAt < c
  }

  predicate OlderResult(r: Result, c: int) {
    !r.Failed? && r.obj.meta.writtenAt < c
  }

  /** A thread at this place has, or is about to read, an object under the key that was written before c. */
  predicate HasOlder(s: State, pc: Pc, key: string, c: int) {
    match pc
    case Reading(k, _, _, _) => k == key && OlderStored(s, key, c)
    case Writing(k, obj) => k == key && obj.meta.writtenAt < c
    case Inserting(k, obj) => k == key && obj.meta.writtenAt < c
    case Returning(k, r) => k == key && OlderResult(r, c)
    case Done(k, r) => k == key && OlderResult(r, c)
    case _ => false
  }

  /** An entry that can still be hit has an older object, or the leader of the key's flight has one at hand. */
  predicate Exposed(s: State, key: string, c: int) {
    || (Has(s.index, key) && !Lookup(s.index, key).Expired(s.now + 1) && OlderStored(s, key, c))
    || (key in s.group && HasOlder(s, PcOf(s.pcs, s.group[key]), key, c))
  }

  /** No step of the run begins a call of the thread. */
  ghost predicate StaysIn(run: seq<Timed>, t: nat) {
    forall e :: e in run && (e.step.Begin? || e.step.BeginDelete?) ==> e.step.tid != t
  }

  /** The thread's request can end with an object written before c. */
  ghost predicate CanEndOlder(cap: int, s: State, t: nat, c: int) {
    exists run :: ValidRun(cap, s, run) && StrictClock(s.now, run) && StaysIn(run, t) && EndsOlder(Run(cap, s, run), t, c)
  }

  predicate EndsOlder(s: State, t: nat, c: int) {
    PcOf(s.pcs, t).Done? && OlderResult(PcOf(s.pcs, t).result, c)
  }

  // ---- only if ----

  /** Neither the index nor the key's flight nor the request has anything older. */
  ghost predicate Safe(s: State, t: nat, key: string, c: int) {
    && !Exposed(s, key, c) && !HasOlder(s, PcOf(s.pcs, t), key, c)
    && !PcOf(s.pcs, t).Idle? && !PcOf(s.pcs, t).Deleting? && !PcOf(s.pcs, t).Erasing? && PcOf(s.pcs, t).key == key
  }

  /** What a flight stores is what its leader has at hand. */
  lemma NothingOlderStored(cap: int, s: State, e: Timed, key: string, c: int)
    requires GroupOk(s.group, s.pcs) && Enabled(s, e) && !Exposed(s, key, c)
    ensures OlderStored(Do(cap, s, e), key, c) ==> OlderStored(s, key, c)
  {
    if ProtocolOvertaking.Stores(s, e, key) {
      var pc := PcOf(s.pcs, e.step.tid);
      assert Leading(pc) && s.group[key] == e.step.tid;
      assert Do(cap, s, e).store == DoWrite(s.(now := e.time), e.step.tid, pc.key, pc.obj, e.step.write).store;
    } else {
      ProtocolOvertaking.OthersStore(cap, s, e, key);
    }
  }

  lemma IndexStaysSafe(cap: int, s: State, e: Timed, key: string, c: int)
    requires Inv(cap, s) && Enabled(s, e) && e.time > s.now && !Exposed(s, key, c)
    ensures var s' := Do(cap, s, e);
      Has(s'.index, key) && !Lookup(s'.index, key).Expired(s'.now + 1) ==> !OlderStored(s', key, c)
  {
    var s' := Do(cap, s, e);
    NothingOlderStored(cap, s, e, key, c);
    NowIsTime(cap, s, e);
    StepInv(cap, s, e);
    HasIff(s'.index, key);
    if Has(s'.index, key) {
      var m := Lookup(s'.index, key);
      ProtocolTheorems.IndexGains(cap, s, e, m);
      if m in s.index {
        LookupUnique(s.index, m);
      } else {
        InsertedIsSafe(s, e.step.tid, key, c);
      }
    }
  }

  lemma InsertedIsSafe(s: State, u: nat, key: string, c: int)
    requires GroupOk(s.group, s.pcs) && Origin(s) && Coherent(s) && PcOf(s.pcs, u).Inserting? && PcOf(s.pcs, u).obj.meta.key == key
    requires !Exposed(s, key, c)
    ensures !OlderStored(s, key, c)
  {
    var pc := PcOf(s.pcs, u);
    assert ThreadOk(s.fetched, s.installed, pc);
    assert Leading(pc) && s.group[key] == u;
    assert Placed(s.store, s.lost, pc.key, pc.obj);
  }

  lemma FetchedIsSafe(s: State, t: nat, k: string, response: FetchOutcome, key: string, c: int)
    requires c < s.now
    ensures var s' := DoEndFetch(s, t, k, response); !HasOlder(s', PcOf(s'.pcs, t), key, c)
  {
  }

  lemma StoredIsSafe(cap: int, s: State, t: nat, k: string, obj: Obj, write: WriteResult, evictOk: bool, key: string, c: int)
    requires k == key ==> obj.meta.writtenAt >= c
    ensures var s' := DoWrite(s, t, k, obj, write); !HasOlder(s', PcOf(s'.pcs, t), key, c)
    ensures var s' := DoInsert(cap, s, t, k, obj, evictOk); !HasOlder(s', PcOf(s'.pcs, t), key, c)
  {
  }

  lemma ReadIsSafe(cap: int, s: State, e: Timed, key: string, c: int)
    requires Enabled(s, e) && e.step.ReadStore? && !HasOlder(s, PcOf(s.pcs, e.step.tid), key, c)
    ensures !HasOlder(Do(cap, s, e), PcOf(Do(cap, s, e).pcs, e.step.tid), key, c)
  {
  }

  /** A thread that has nothing older gets nothing older by a step of its own. */
  lemma OwnStaysSafe(cap: int, s: State, e: Timed, key: string, c: int)
    requires Inv(cap, s) && Enabled(s, e) && s.now < e.time && c <= s.now && !Exposed(s, key, c)
    requires !HasOlder(s, PcOf(s.pcs, e.step.tid), key, c)
    ensures !HasOlder(Do(cap, s, e), PcOf(Do(cap, s, e).pcs, e.step.tid), key, c)
  {
    var s1, t, pc := s.(now := e.time), e.step.tid, PcOf(s.pcs, e.step.tid);
    match e.step
    case CheckIndex(_) => CheckedIsSafe(s, t, pc.key, pc.lead, e.time, key, c);
    case ReadStore(_, _) => ReadIsSafe(cap, s, e, key, c);
    case EndFetch(_, response) => FetchedIsSafe(s1, t, pc.key, response, key, c);
    case WriteStore(_, write) => StoredIsSafe(cap, s1, t, pc.key, pc.obj, write, true, key, c);
    case InsertEntry(_, evictOk) => StoredIsSafe(cap, s1, t, pc.key, pc.obj, Written, evictOk, key, c);
    case Finish(_) => ProtocolTheorems.FinishedPc(cap, s, e, t);
    case _ =>
  }

  lemma CheckedIsSafe(s: State, t: nat, k: string, lead: bool, time: int, key: string, c: int)
    requires Distinct(s.index) && s.now < time && !Exposed(s, key, c)
    ensures var s' := DoCheck(s.(now := time), t, k, lead); !HasOlder(s', PcOf(s'.pcs, t), key, c)
  {
  }

  /** Another thread at most ends the flight the request waits for. */
  lemma OtherStaysSafe(cap: int, s: State, e: Timed, t: nat, key: string, c: int)
    requires GroupOk(s.group, s.pcs) && Enabled(s, e) && t != e.step.tid && Safe(s, t, key, c)
    ensures !HasOlder(Do(cap, s, e), PcOf(Do(cap, s, e).pcs, t), key, c)
  {
    NothingOlderStored(cap, s, e, key, c);
    var pc := PcOf(s.pcs, e.step.tid);
    if e.step.Finish? && PcOf(s.pcs, t) == Waiting(pc.key) {
      ProtocolTheorems.FinishedPc(cap, s, e, t);
      assert Leading(pc) && s.group[key] == e.step.tid;
    } else {
      ProtocolTheorems.UnsharedPc(cap, s, e, t);
    }
  }

  lemma LeaderStaysSafe(cap: int, s: State, e: Timed, key: string, c: int)
    requires Inv(cap, s) && Enabled(s, e) && s.now < e.time && c <= s.now && !Exposed(s, key, c)
    ensures var s' := Do(cap, s, e); key in s'.group ==> !HasOlder(s', PcOf(s'.pcs, s'.group[key]), key, c)
  {
    var s' := Do(cap, s, e);
    StepInv(cap, s, e);
    if key in s'.group {
      var u := s'.group[key];
      assert Leading(PcOf(s'.pcs, u)) && PcOf(s'.pcs, u).key == key;
      if u != e.step.tid {
        ProtocolTheorems.StepThreads(cap, s, e, u);
        NothingOlderStored(cap, s, e, key, c);
      } else if Leading(PcOf(s.pcs, u)) && !e.step.Finish? {
        ProtocolTheorems.OwnThread(cap, s, e);
        assert PcOf(s.pcs, u).key == key ==> s.group[key] == u;
        OwnStaysSafe(cap, s, e, key, c);
      } else {
        ProtocolTheorems.NewLeadChecks(cap, s, e);
      }
    }
  }

  lemma StepSafe(cap: int, s: State, e: Timed, t: nat, key: string, c: int)
    requires Inv(cap, s) && Enabled(s, e) && s.now < e.time && c <= s.now && Safe(s, t, key, c)
    requires (e.step.Begin? || e.step.BeginDelete?) ==> e.step.tid != t
    ensures Safe(Do(cap, s, e), t, key, c)
  {
    LeaderStaysSafe(cap, s, e, key, c);
    IndexStaysSafe(cap, s, e, key, c);
    if t == e.step.tid {
      ProtocolTheorems.OwnThread(cap, s, e);
      OwnStaysSafe(cap, s, e, key, c);
    } else {
      ProtocolTheorems.StepThreads(cap, s, e, t);
      OtherStaysSafe(cap, s, e, t, key, c);
    }
  }

  lemma {:induction false} RunSafe(cap: int, s: State, run: seq<Timed>, t: nat, key: string, c: int)
    requires Inv(cap, s) && ValidRun(cap, s, run) && StrictClock(s.now, run) && StaysIn(run, t) && c <= s.now && Safe(s, t, key, c)
    ensures Safe(Run(cap, s, run), t, key, c)
    decreases |run|
  {
    if run != [] {
      assert run[0] in run && forall e :: e in run[1..] ==> e in run;
      StepInv(cap, s, run[0]);
      NowIsTime(cap, s, run[0]);
      StepSafe(cap, s, run[0], t, key, c);
      RunSafe(cap, Do(cap, s, run[0]), run[1..], t, key, c);
    }
  }

  // ---- if ----

  /** A strictly timed run without any new call, from one state to another. */
  ghost predicate Leads(cap: int, s: State, run: seq<Timed>, s1: State) {
    && ValidRun(cap, s, run) && StrictClock(s.now, run) && Run(cap, s, run) == s1
    && s1.now == (if run == [] then s.now else run[|run| - 1].time)
    && forall e :: e in run ==> !e.step.Begin? && !e.step.BeginDelete?
  }

  /** One more step, one tick later. */
  lemma Next(cap: int, s: State, run: seq<Timed>, s1: State, st: Step) returns (run': seq<Timed>, s2: State)
    requires Leads(cap, s, run, s1) && Enabled(s1, At(s1.now + 1, st)) && !st.Begin? && !st.BeginDelete?
    ensures s2 == Do(cap, s1, At(s1.now + 1, st)) && Leads(cap, s, run', s2)
  {
    var e := At(s1.now + 1, st);
    ProtocolRaces.ThenStep(cap, s, run, e);
    ProtocolRaces.ThenLater(s.now, run, e);
    run', s2 := run + [e], Do(cap, s1, e);
    NowIsTime(cap, s1, e);
  }

  /** The thread moves; no other thread, no flight and no stored object changes. */
  ghost predicate Alone(s: State, s1: State, t: nat, pc: Pc) {
    s1.store == s.store && s1.group == s.group && PcOf(s1.pcs, t) == pc && forall u :: u != t ==> PcOf(s1.pcs, u) == PcOf(s.pcs, u)
  }

  lemma Checks(cap: int, s: State, run: seq<Timed>, s1: State, t: nat, key: string) returns (run': seq<Timed>, s2: State, pc: Pc)
    requires Leads(cap, s, run, s1) && PcOf(s1.pcs, t) == Checking(key, false)
    ensures Leads(cap, s, run', s2) && Alone(s1, s2, t, pc)
    ensures if Has(s1.index, key) && !Lookup(s1.index, key).Expired(s1.now + 1)
            then pc == Reading(key, false, Lookup(s1.index, key), s1.now + 1) else pc == Entering(key)
  {
    run', s2 := Next(cap, s, run, s1, CheckIndex(t));
    assert s2 == DoCheck(s1.(now := s1.now + 1), t, key, false);
    pc := PcOf(s2.pcs, t);
  }

  /** A hit. */
  lemma Reads(cap: int, s: State, run: seq<Timed>, s1: State, t: nat) returns (run': seq<Timed>, s2: State)
    requires Leads(cap, s, run, s1) && PcOf(s1.pcs, t).Reading? && PcOf(s1.pcs, t).key in s1.store
    ensures Leads(cap, s, run', s2)
    ensures var pc := PcOf(s1.pcs, t); var r := Hit(s1.store[pc.key], pc.meta, pc.at);
      Alone(s1, s2, t, if pc.lead then Returning(pc.key, r) else Done(pc.key, r))
  {
    run', s2 := Next(cap, s, run, s1, ReadStore(t, ReadOk));
  }

  /** A failed read takes the entry out, and the request goes on to the group. */
  lemma FailsToRead(cap: int, s: State, run: seq<Timed>, s1: State, t: nat, key: string) returns (run': seq<Timed>, s2: State)
    requires Leads(cap, s, run, s1) && PcOf(s1.pcs, t).Reading? && PcOf(s1.pcs, t).key == key && !PcOf(s1.pcs, t).lead
    ensures Leads(cap, s, run', s2) && Alone(s1, s2, t, Entering(key))
  {
    run', s2 := Next(cap, s, run, s1, ReadStore(t, ReadError));
    var s' := s2;
    assert Alone(s1, s', t, Dropping(key, false));
    run', s2 := Next(cap, s, run', s', DropEntry(t));
    assert Alone(s', s2, t, Entering(key));
  }

  lemma Joins(cap: int, s: State, run: seq<Timed>, s1: State, t: nat, key: string) returns (run': seq<Timed>, s2: State)
    requires Leads(cap, s, run, s1) && PcOf(s1.pcs, t) == Entering(key) && key in s1.group
    ensures Leads(cap, s, run', s2) && Alone(s1, s2, t, Waiting(key))
  {
    run', s2 := Next(cap, s, run, s1, Join(t));
  }

  /** With any failures, a request can always get to wait for a flight that is under way. */
  lemma Boards(cap: int, s: State, t: nat, key: string) returns (run: seq<Timed>, s1: State)
    requires PcOf(s.pcs, t) == Checking(key, false) && key in s.group
    ensures Leads(cap, s, run, s1) && Alone(s, s1, t, Waiting(key))
  {
    var pc;
    run, s1, pc := Checks(cap, s, [], s, t, key);
    if pc.Reading? {
      run, s1 := FailsToRead(cap, s, run, s1, t, key);
    }
    run, s1 := Joins(cap, s, run, s1, t, key);
  }

  /** The leader gets to the end of its flight with what it has at hand. */
  lemma LeaderReturns(cap: int, s: State, run: seq<Timed>, s1: State, u: nat, key: string, c: int)
    returns (run': seq<Timed>, s2: State, r: Result)
    requires Leads(cap, s, run, s1) && Leading(PcOf(s1.pcs, u)) && HasOlder(s1, PcOf(s1.pcs, u), key, c)
    ensures Leads(cap, s, run', s2) && PcOf(s2.pcs, u) == Returning(key, r) && OlderResult(r, c)
    ensures forall t :: t != u ==> PcOf(s2.pcs, t) == PcOf(s1.pcs, t)
  {
    var pc := PcOf(s1.pcs, u);
    match pc
    case Reading(_, _, meta, at) =>
      run', s2 := Reads(cap, s, run, s1, u);
      r := Hit(s1.store[key], meta, at);
    case Writing(_, obj) =>
      run', s2 := Next(cap, s, run, s1, WriteStore(u, FailedUnchanged));
      assert s2 == DoWrite(s1.(now := s1.now + 1), u, key, obj, FailedUnchanged);
      r := Fetched(obj);
    case Inserting(_, obj) =>
      run', s2 := Next(cap, s, run, s1, InsertEntry(u, false));
      assert s2 == DoInsert(cap, s1.(now := s1.now + 1), u, key, obj, false);
      r := Fetched(obj);
    case Returning(_, result) =>
      run', s2, r := run, s1, result;
  }

  lemma EndsFlight(cap: int, s: State, run: seq<Timed>, s1: State, u: nat, t: nat, key: string, r: Result)
    returns (run': seq<Timed>, s2: State)
    requires Leads(cap, s, run, s1) && PcOf(s1.pcs, u) == Returning(key, r) && PcOf(s1.pcs, t) == Waiting(key)
    ensures Leads(cap, s, run', s2) && PcOf(s2.pcs, t) == Done(key, r)
  {
    run', s2 := Next(cap, s, run, s1, Finish(u));
    ProtocolTheorems.FinishedPc(cap, s1, At(s1.now + 1, Finish(u)), t);
  }

  /** From an exposed state the request can end with something older, without any further call. */
  lemma ExposedEndsOlder(cap: int, s: State, t: nat, key: string, c: int) returns (run: seq<Timed>, s1: State)
    requires GroupOk(s.group, s.pcs) && PcOf(s.pcs, t) == Checking(key, false) && Exposed(s, key, c)
    ensures Leads(cap, s, run, s1) && EndsOlder(s1, t, c)
  {
    if Has(s.index, key) && !Lookup(s.index, key).Expired(s.now + 1) && OlderStored(s, key, c) {
      var pc;
      run, s1, pc := Checks(cap, s, [], s, t, key);
      run, s1 := Reads(cap, s, run, s1, t);
    } else {
      var u := s.group[key];
      var r;
      assert Leading(PcOf(s.pcs, u)) && u != t;
      run, s1 := Boards(cap, s, t, key);
      run, s1, r := LeaderReturns(cap, s, run, s1, u, key, c);
      run, s1 := EndsFlight(cap, s, run, s1, u, t, key, r);
    }
  }

  /** A request about to look up its key, at a time not before c, can end with an object written before c exactly
      when its key is exposed. */
  lemma EndsOlderExactly(cap: int, s: State, t: nat, key: string, c: int)
    requires Inv(cap, s) && PcOf(s.pcs, t) == Checking(key, false) && c <= s.now
    ensures CanEndOlder(cap, s, t, c) <==> Exposed(s, key, c)
  {
    if Exposed(s, key, c) {
      var run, s1 := ExposedEndsOlder(cap, s, t, key, c);
      assert StaysIn(run, t);
    }
    forall run | ValidRun(cap, s, run) && StrictClock(s.now, run) && StaysIn(run, t) && EndsOlder(Run(cap, s, run), t, c)
      ensures Exposed(s, key, c)
    {
      if !Exposed(s, key, c) {
        RunSafe(cap, s, run, t, key, c);
      }
    }
  }
}
