/** What every interleaving keeps when no two steps read the same time. */
module ProtocolTime {
  import opened Objects
  import opened LruIndex
  import opened Protocol
  import opened ProtocolSafety

  /** The object read is the one the checked metadata describes, or was fetched after the check. */
  ghost predicate SameOrLater(obj: Obj, meta: Meta, at: int) {
    meta.writtenAt < at && (obj.meta == meta || obj.meta.writtenAt > at)
  }

  ghost predicate ThreadTimed(now: int, store: ObjectMap, pc: Pc) {
    match pc
    case Reading(key, _, meta, at) =>
      meta.writtenAt < at <= now && (key in store ==> SameOrLater(store[key], meta, at))
    case Writing(_, obj) => obj.meta.writtenAt <= now
    case Inserting(_, obj) => obj.meta.writtenAt <= now
    case Returning(_, r) => r.Hit? ==> SameOrLater(r.obj, r.meta, r.at)
    case Done(_, r) => r.Hit? ==> SameOrLater(r.obj, r.meta, r.at)
    case _ => true
  }

  /** A flight that is about to write under a key being read fetched its object after the reader's check. */
  ghost predicate Apart(a: Pc, b: Pc) {
    a.Reading? && (b.Writing? || b.Inserting?) && a.key == b.key ==> b.obj.meta.writtenAt > a.at
  }

  ghost predicate ThreadsTimed(now: int, store: ObjectMap, pcs: map<nat, Pc>) {
    && (forall t :: ThreadTimed(now, store, PcOf(pcs, t)))
    && (forall t, u :: Apart(PcOf(pcs, t), PcOf(pcs, u)))
  }

  ghost predicate Timely(s: State) {
    && (forall k :: k in s.installed ==> s.installed[k].meta.writtenAt <= s.now)
    && ThreadsTimed(s.now, s.store, s.pcs)
  }

  lemma Later(s: State, time: int)
    requires Timely(s) && time >= s.now
    ensures Timely(s.(now := time))
  {
    forall t ensures ThreadTimed(time, s.store, PcOf(s.pcs, t)) {
      assert ThreadTimed(s.now, s.store, PcOf(s.pcs, t));
    }
  }

  lemma GotoTimed(s: State, t: nat, pc: Pc)
    requires Timely(s) && ThreadTimed(s.now, s.store, pc)
    requires forall u :: Apart(PcOf(s.pcs, u), pc) && Apart(pc, PcOf(s.pcs, u))
    ensures Timely(Goto(s, t, pc))
  {
    assert forall u :: PcOf(Goto(s, t, pc).pcs, u) == if u == t then pc else PcOf(s.pcs, u);
  }

  /** Objects may disappear from the backend at any time. */
  lemma StoreShrinks(s: State, store: ObjectMap)
    requires Timely(s) && forall k :: k in store ==> k in s.store && store[k] == s.store[k]
    ensures Timely(s.(store := store))
  {
    forall t ensures ThreadTimed(s.now, store, PcOf(s.pcs, t)) {
      assert ThreadTimed(s.now, s.store, PcOf(s.pcs, t));
    }
  }

  lemma CheckTimed(cap: int, s: State, t: nat, key: string, lead: bool)
    requires Inv(cap, s) && Timely(s) && PcOf(s.pcs, t) == Checking(key, lead)
    requires forall k :: k in s.installed ==> s.installed[k].meta.writtenAt < s.now
    ensures Timely(DoCheck(s, t, key, lead))
  {
    CheckFacts(s.index, key, s.now);
    match Check(s.index, key, s.now)
    case Fresh(index, meta) =>
      var pc := Reading(key, lead, meta, s.now);
      forall u ensures Apart(pc, PcOf(s.pcs, u)) {
        HasIff(s.index, key);
        assert InWindow(PcOf(s.pcs, u)) ==> !Has(s.index, PcOf(s.pcs, u).key);
      }
      assert Placed(s.store, s.lost, key, s.installed[key]);
      GotoTimed(s.(index := index), t, pc);
    case Miss(_) =>
      GotoTimed(RemoveEntry(s, key), t, if lead then Fetching(key) else Entering(key));
  }

  lemma EndFetchTimed(s: State, t: nat, key: string, response: FetchOutcome, now: int)
    requires Timely(s) && s.now < now
    ensures Timely(DoEndFetch(s.(now := now), t, key, response))
  {
    Later(s, now);
    match response
    case Unavailable => GotoTimed(s.(now := now), t, Returning(key, Failed));
    case Response(body, ttl, headers) =>
      var pc := Writing(key, Obj(body, Meta(key, now, ttl, |body|, headers)));
      forall u ensures Apart(PcOf(s.pcs, u), pc) {
        assert ThreadTimed(s.now, s.store, PcOf(s.pcs, u));
      }
      GotoTimed(s.(now := now), t, pc);
  }

  lemma WriteTimed(s: State, t: nat, key: string, obj: Obj, write: WriteResult)
    requires Timely(s) && PcOf(s.pcs, t) == Writing(key, obj)
    ensures Timely(DoWrite(s, t, key, obj, write))
  {
    var s1 := s.(store := AfterWrite(s.store, key, obj, write));
    assert ThreadTimed(s.now, s.store, PcOf(s.pcs, t));
    forall u ensures ThreadTimed(s1.now, s1.store, PcOf(s.pcs, u)) {
      assert ThreadTimed(s.now, s.store, PcOf(s.pcs, u)) && Apart(PcOf(s.pcs, u), PcOf(s.pcs, t));
    }
    var pc := if write.Written? then Inserting(key, obj) else Returning(key, Fetched(obj));
    forall u ensures Apart(PcOf(s.pcs, u), pc) {
      assert Apart(PcOf(s.pcs, u), PcOf(s.pcs, t));
    }
    GotoTimed(s1, t, pc);
  }

  lemma InsertTimed(cap: int, s: State, t: nat, key: string, obj: Obj, evictOk: bool)
    requires Timely(s) && PcOf(s.pcs, t) == Inserting(key, obj)
    ensures Timely(DoInsert(cap, s, t, key, obj, evictOk))
  {
    assert ThreadTimed(s.now, s.store, PcOf(s.pcs, t));
    var s' := DoInsert(cap, s, t, key, obj, evictOk);
    StoreShrinks(s, s'.store);
    GotoTimed(s.(store := s'.store), t, Returning(key, Fetched(obj)));
  }

  lemma FinishTimed(s: State, t: nat, key: string, r: Result)
    requires Timely(s) && PcOf(s.pcs, t) == Returning(key, r)
    ensures Timely(DoFinish(s, t, key, r))
  {
    assert forall u ::
      PcOf(DoFinish(s, t, key, r).pcs, u) == if u == t || PcOf(s.pcs, u) == Waiting(key) then Done(key, r) else PcOf(s.pcs, u);
    assert ThreadTimed(s.now, s.store, PcOf(s.pcs, t));
  }

  lemma ReadTimed(s: State, e: Timed, cap: int)
    requires Timely(s) && Enabled(s, e) && e.step.ReadStore?
    ensures Timely(Do(cap, s, e))
  {
    var t, pc := e.step.tid, PcOf(s.pcs, e.step.tid);
    assert ThreadTimed(s.now, s.store, pc);
    var pc' := match e.step.read
      case ReadOk =>
        var r := Hit(s.store[pc.key], pc.meta, pc.at);
        if pc.lead then Returning(pc.key, r) else Done(pc.key, r)
      case ReadError => Dropping(pc.key, pc.lead)
      case BodyError => Returning(pc.key, Failed);
    Later(s, e.time);
    GotoTimed(s.(now := e.time), t, pc');
  }

  lemma JoinTimed(s: State, t: nat, key: string)
    requires Timely(s)
    ensures Timely(Goto(s, t, Waiting(key)))
    ensures Timely(Goto(s.(group := s.group[key := t]), t, Checking(key, true)))
  {
    GotoTimed(s, t, Waiting(key));
    GotoTimed(s.(group := s.group[key := t]), t, Checking(key, true));
  }

  lemma EraseTimed(s: State, t: nat, key: string, ok: bool)
    requires Timely(s)
    ensures Timely(Goto(if ok then s.(store := s.store - {key}, lost := s.lost + {key}) else s, t, Idle))
  {
    StoreShrinks(s, s.store - {key});
    GotoTimed(if ok then s.(store := s.store - {key}, lost := s.lost + {key}) else s, t, Idle);
  }

  lemma DropTimed(s: State, t: nat, key: string, lead: bool)
    requires Timely(s)
    ensures Timely(Missed(RemoveEntry(s, key), t, key, lead)) && Timely(Goto(RemoveEntry(s, key), t, Erasing(key)))
  {
    GotoTimed(RemoveEntry(s, key), t, if lead then Fetching(key) else Entering(key));
    GotoTimed(RemoveEntry(s, key), t, Erasing(key));
  }

  lemma CheckNow(cap: int, s: State, t: nat, key: string, lead: bool, time: int)
    requires Inv(cap, s) && Timely(s) && PcOf(s.pcs, t) == Checking(key, lead) && time > s.now
    ensures Timely(DoCheck(s.(now := time), t, key, lead))
  {
    Later(s, time);
    assert Inv(cap, s.(now := time));
    CheckTimed(cap, s.(now := time), t, key, lead);
  }

  /** The steps that enter or leave a call, or move inside it, without storing anything. */
  predicate Moves(st: Step) {
    st.Begin? || st.CheckIndex? || st.ReadStore? || st.DropEntry? || st.Join? || st.BeginDelete?
  }

  lemma MoveTimed(cap: int, s: State, e: Timed)
    requires Inv(cap, s) && Timely(s) && Enabled(s, e) && e.time > s.now && Moves(e.step)
    ensures Timely(Do(cap, s, e))
  {
    var s1, t, pc := s.(now := e.time), e.step.tid, PcOf(s.pcs, e.step.tid);
    Later(s, e.time);
    match e.step
    case Begin(_, key) => GotoTimed(s1, t, Checking(key, false));
    case CheckIndex(_) => CheckNow(cap, s, t, pc.key, pc.lead, e.time);
    case ReadStore(_, _) => ReadTimed(s, e, cap);
    case DropEntry(_) => DropTimed(s1, t, pc.key, pc.lead);
    case Join(_) => JoinTimed(s1, t, pc.key);
    case BeginDelete(_, key) => GotoTimed(s1, t, Deleting(key));
  }

  lemma StepTimed(cap: int, s: State, e: Timed)
    requires Inv(cap, s) && Timely(s) && Enabled(s, e) && e.time > s.now
    ensures Timely(Do(cap, s, e))
  {
    var s1, t, pc := s.(now := e.time), e.step.tid, PcOf(s.pcs, e.step.tid);
    Later(s, e.time);
    match e.step
    case EndFetch(_, response) => EndFetchTimed(s, t, pc.key, response, e.time);
    case WriteStore(_, write) => WriteTimed(s1, t, pc.key, pc.obj, write);
    case InsertEntry(_, evictOk) => InsertTimed(cap, s1, t, pc.key, pc.obj, evictOk);
    case Finish(_) => FinishTimed(s1, t, pc.key, pc.result);
    case DropForDelete(_) => DropTimed(s1, t, pc.key, false);
    case EraseStore(_, ok) => EraseTimed(s1, t, pc.key, ok);
    case _ => MoveTimed(cap, s, e);
  }

  lemma {:induction false} RunTimed(cap: int, s: State, run: seq<Timed>)
    requires Inv(cap, s) && Timely(s) && ValidRun(cap, s, run) && StrictClock(s.now, run)
    ensures Inv(cap, Run(cap, s, run)) && Timely(Run(cap, s, run))
    decreases |run|
  {
    if run != [] {
      StepInv(cap, s, run[0]);
      StepTimed(cap, s, run[0]);
      NowIsTime(cap, s, run[0]);
      RunTimed(cap, Do(cap, s, run[0]), run[1..]);
    }
  }
}
