/** Requests with their flush check, rules and cleanups, in any interleaving with the steps of the cache. */
module FlushProtocol {
  import opened Objects
  import opened LruIndex
  import opened Protocol
  import opened ProtocolSafety
  import opened ProtocolTime
  import opened ProtocolFlights
  import ProtocolTheorems
  import F = FlushStore

  datatype Ask = Ask(domain: string, path: string, key: string)

  /** Where a request is: it has looked up its entry; it deletes the entry; or it is past its flush check and in
      GetOrFetch. `seen` are the rules stored for its domain when it compared, and `statAt`, `enteredAt` the steps
      (and `enteredTime` the time) at which it looked up and went on. */
  datatype Front =
    | Out
    | Peeked(q: Ask, peek: Option<Meta>, statAt: nat)
    | Flushing(q: Ask, seen: seq<F.Rule>, statAt: nat)
    | Inside(q: Ask, seen: seq<F.Rule>, statAt: nat, enteredAt: nat, enteredTime: int)

  /** `indexed` is history: the step at which metadata was last put in the index. */
  datatype World = World(cache: State, trace: Trace, rules: F.Rules, fronts: map<nat, Front>, indexed: map<Meta, nat>)

  datatype Move =
    | Stat(tid: nat, q: Ask)
    | MatchRules(tid: nat)
    | Enter(tid: nat)
    | Inner(step: Step)
    | NewRule(rule: F.Rule)
    | DropRules(cutoff: int)

  datatype TimedMove = Then(time: int, move: Move)

  function FrontOf(fronts: map<nat, Front>, t: nat): Front {
    if t in fronts then fronts[t] else Out
  }

  function Peek(index: Index, key: string): Option<Meta> {
    if Has(index, key) then Some(Lookup(index, key)) else None
  }

  /** A rule has been created by the time it is stored; otherwise the clock only has to keep going. */
  predicate CanMove(w: World, e: TimedMove) {
    e.time > w.cache.now &&
    match e.move
    case Stat(t, _) => (PcOf(w.cache.pcs, t).Idle? || PcOf(w.cache.pcs, t).Done?) && (FrontOf(w.fronts, t).Out? || FrontOf(w.fronts, t).Inside?)
    case MatchRules(t) => FrontOf(w.fronts, t).Peeked? && (PcOf(w.cache.pcs, t).Idle? || PcOf(w.cache.pcs, t).Done?)
    case Enter(t) => FrontOf(w.fronts, t).Flushing? && PcOf(w.cache.pcs, t).Idle?
    case Inner(st) =>
      Enabled(w.cache, At(e.time, st)) && !st.Begin? && (st.BeginDelete? ==> FrontOf(w.fronts, st.tid).Out?)
    case NewRule(r) => r.createdAt <= e.time
    case DropRules(_) => true
  }

  function Indexed(w: World, e: Timed): map<Meta, nat>
    requires Enabled(w.cache, e)
  {
    if e.step.InsertEntry? then w.indexed[PcOf(w.cache.pcs, e.step.tid).obj.meta := w.trace.steps + 1] else w.indexed
  }

  /** A step of the cache. */
  function Act(cap: int, w: World, e: Timed): World
    requires Enabled(w.cache, e)
  {
    w.(cache := Do(cap, w.cache, e), trace := Record(w.trace, w.cache, e), indexed := Indexed(w, e))
  }

  function Go(w: World, t: nat, front: Front): World {
    w.(fronts := w.fronts[t := front])
  }

  /** Time passes in the cache. */
  function Wait(w: World, time: int): World {
    w.(cache := w.cache.(now := time))
  }

  predicate Due(peek: Option<Meta>, seen: seq<F.Rule>, path: string) {
    var rule := F.Newest(seen, path);
    peek.Some? && rule.Some? && rule.value.createdAt > peek.value.writtenAt
  }

  function Entered(w: World, q: Ask, seen: seq<F.Rule>, statAt: nat, time: int): Front {
    Inside(q, seen, statAt, w.trace.steps + 1, time)
  }

  function DoMove(cap: int, w: World, e: TimedMove): World
    requires CanMove(w, e)
  {
    match e.move
    case Stat(t, q) => Go(Wait(w, e.time), t, Peeked(q, Peek(w.cache.index, q.key), w.trace.steps))
    case MatchRules(t) =>
      var Peeked(q, peek, statAt) := FrontOf(w.fronts, t);
      var seen := F.Bucket(w.rules, q.domain);
      if Due(peek, seen, q.path) then Go(Act(cap, w, At(e.time, BeginDelete(t, q.key))), t, Flushing(q, seen, statAt))
      else Go(Act(cap, w, At(e.time, Begin(t, q.key))), t, Entered(w, q, seen, statAt, e.time))
    case Enter(t) =>
      var Flushing(q, seen, statAt) := FrontOf(w.fronts, t);
      Go(Act(cap, w, At(e.time, Begin(t, q.key))), t, Entered(w, q, seen, statAt, e.time))
    case Inner(st) => Act(cap, w, At(e.time, st))
    case NewRule(r) => Wait(w, e.time).(rules := F.AddTo(w.rules, r))
    case DropRules(cutoff) => Wait(w, e.time).(rules := F.Cleaned(w.rules, cutoff))
  }

  /** A node that has just started, with whatever rules it has loaded. */
  ghost predicate Starting(w: World) {
    Init(w.cache) && w.trace == START && w.fronts == map[] && w.indexed == map[] && RulesOld(w.rules, w.cache.now)
  }

  ghost predicate ValidMoves(cap: int, w: World, run: seq<TimedMove>)
    decreases |run|
  {
    run == [] || (CanMove(w, run[0]) && ValidMoves(cap, DoMove(cap, w, run[0]), run[1..]))
  }

  ghost function Moves(cap: int, w: World, run: seq<TimedMove>): World
    requires ValidMoves(cap, w, run)
    decreases |run|
  {
    if run == [] then w else Moves(cap, DoMove(cap, w, run[0]), run[1..])
  }

  // ---- the invariant ----

  ghost predicate RulesOld(rules: F.Rules, now: int) {
    forall d, r :: d in rules && r in rules[d] ==> r.createdAt <= now
  }

  ghost predicate SeenOld(seen: seq<F.Rule>, now: int) {
    forall r :: r in seen ==> r.createdAt <= now
  }

  /** The metadata was put in the index after the given step. */
  predicate Since(indexed: map<Meta, nat>, m: Meta, step: nat) {
    m in indexed && indexed[m] > step
  }

  /** No covering rule that was stored at the flush check is newer than the entry. */
  ghost predicate NotFlushed(q: Ask, seen: seq<F.Rule>, m: Meta) {
    forall r :: r in seen && F.Covers(r, q.path) ==> r.createdAt <= m.writtenAt
  }

  ghost predicate FreshFor(f: Front, indexed: map<Meta, nat>, m: Meta)
    requires f.Inside?
  {
    Since(indexed, m, f.statAt) || NotFlushed(f.q, f.seen, m)
  }

  ghost predicate IndexFresh(f: Front, indexed: map<Meta, nat>, index: Index)
    requires f.Inside?
  {
    forall m :: m in index && m.key == f.q.key ==> FreshFor(f, indexed, m)
  }

  ghost predicate FineResult(f: Front, indexed: map<Meta, nat>, r: Result)
    requires f.Inside?
  {
    match r
    case Failed => true
    case Fetched(obj) => obj.meta.writtenAt > f.enteredTime
    case Hit(obj, meta, _) => obj.meta.writtenAt > f.enteredTime || (obj.meta == meta && FreshFor(f, indexed, meta))
  }

  /** What the thread has at hand would do for the request. */
  ghost predicate Fine(f: Front, indexed: map<Meta, nat>, pc: Pc)
    requires f.Inside?
  {
    match pc
    case Reading(_, _, meta, at) => at > f.enteredTime && FreshFor(f, indexed, meta)
    case Writing(_, obj) => obj.meta.writtenAt > f.enteredTime
    case Inserting(_, obj) => obj.meta.writtenAt > f.enteredTime
    case Returning(_, r) => FineResult(f, indexed, r)
    case Done(_, r) => FineResult(f, indexed, r)
    case _ => true
  }

  /** Entries of the key were either there at the look-up or came later. */
  ghost predicate PeekOk(q: Ask, peek: Option<Meta>, statAt: nat, index: Index, indexed: map<Meta, nat>) {
    forall m :: m in index && m.key == q.key ==> peek == Some(m) || Since(indexed, m, statAt)
  }

  ghost predicate FrontOk(front: Front, pc: Pc, index: Index, indexed: map<Meta, nat>, steps: nat, now: int) {
    match front
    case Out => true
    case Peeked(q, peek, statAt) => statAt <= steps && PeekOk(q, peek, statAt, index, indexed)
    case Flushing(q, seen, statAt) =>
      && statAt <= steps && SeenOld(seen, now)
      && (pc == Deleting(q.key) || ((pc.Erasing? || pc.Idle?) && PeekOk(q, None, statAt, index, indexed)))
    case Inside(q, seen, statAt, enteredAt, enteredTime) =>
      && statAt <= enteredAt <= steps && SeenOld(seen, enteredTime) && enteredTime <= now
      && IndexFresh(front, indexed, index) && !pc.Idle? && !pc.Deleting? && !pc.Erasing? && pc.key == q.key
  }

  /** The request has joined its flight after its flush check, but the flight had begun before. */
  predicate OldFlight(h: Trace, t: nat, enteredAt: nat) {
    t in h.joined && h.joined[t].flight < |h.flights| && h.flights[h.joined[t].flight].began <= enteredAt
  }

  ghost predicate OwnFine(f: Front, indexed: map<Meta, nat>, pc: Pc, h: Trace, t: nat) {
    f.Inside? ==>
      && (t in h.joined ==> h.joined[t].at > f.enteredAt)
      && (pc.Waiting? || OldFlight(h, t, f.enteredAt) || Fine(f, indexed, pc))
  }

  /** The leader of a flight that began after the request's flush check. */
  predicate NewLeader(f: Front, pc: Pc, h: Trace)
    requires f.Inside?
  {
    Leading(pc) && pc.key == f.q.key && pc.key in h.running && h.running[pc.key] < |h.flights|
    && h.flights[h.running[pc.key]].began > f.enteredAt
  }

  ghost predicate LeaderFine(f: Front, indexed: map<Meta, nat>, pc: Pc, h: Trace) {
    f.Inside? && NewLeader(f, pc, h) ==> Fine(f, indexed, pc)
  }

  ghost predicate BaseOk(cap: int, w: World) {
    Inv(cap, w.cache) && Timely(w.cache) && FlightsOk(w.cache, w.trace) && RulesOld(w.rules, w.cache.now)
  }

  ghost predicate FrontsOk(w: World) {
    && (forall t :: FrontOk(FrontOf(w.fronts, t), PcOf(w.cache.pcs, t), w.cache.index, w.indexed, w.trace.steps, w.cache.now))
    && (forall t :: OwnFine(FrontOf(w.fronts, t), w.indexed, PcOf(w.cache.pcs, t), w.trace, t))
    && (forall t, u :: LeaderFine(FrontOf(w.fronts, t), w.indexed, PcOf(w.cache.pcs, u), w.trace))
  }

  ghost predicate WorldOk(cap: int, w: World) {
    BaseOk(cap, w) && FrontsOk(w)
  }

  // ---- steps of the cache ----

  /** Later insertions only make entries younger. */
  ghost predicate Grown(indexed: map<Meta, nat>, indexed': map<Meta, nat>, steps: nat) {
    forall m :: m in indexed ==> m in indexed' && (indexed'[m] == indexed[m] || indexed'[m] > steps)
  }

  ghost predicate Gained(index: Index, index': Index, indexed': map<Meta, nat>, steps: nat) {
    forall m :: m in index' ==> m in index || Since(indexed', m, steps)
  }

  lemma ActIndex(cap: int, w: World, e: Timed)
    requires Inv(cap, w.cache) && Enabled(w.cache, e)
    ensures Grown(w.indexed, Indexed(w, e), w.trace.steps)
    ensures Gained(w.cache.index, Do(cap, w.cache, e).index, Indexed(w, e), w.trace.steps)
  {
    forall m | m in Do(cap, w.cache, e).index ensures m in w.cache.index || Since(Indexed(w, e), m, w.trace.steps) {
      ProtocolTheorems.IndexGains(cap, w.cache, e, m);
    }
  }

  lemma FineGrows(f: Front, indexed: map<Meta, nat>, indexed': map<Meta, nat>, steps: nat, pc: Pc)
    requires f.Inside? && f.statAt <= steps && Grown(indexed, indexed', steps) && Fine(f, indexed, pc)
    ensures Fine(f, indexed', pc)
  {
  }

  /** Others' steps, and those within GetOrFetch, leave a request where it is. */
  lemma FrontStays(front: Front, pc: Pc, pc': Pc, index: Index, index': Index, indexed: map<Meta, nat>, indexed': map<Meta, nat>,
    steps: nat, now: int, now': int)
    requires FrontOk(front, pc, index, indexed, steps, now) && now <= now'
    requires Grown(indexed, indexed', steps) && Gained(index, index', indexed', steps)
    requires front.Flushing? ==> pc' == pc
    requires front.Inside? ==> !pc'.Idle? && !pc'.Deleting? && !pc'.Erasing? && pc'.key == pc.key
    ensures FrontOk(front, pc', index', indexed', steps + 1, now')
  {
  }

  /** The steps of a Delete that a flush check makes. */
  lemma FlushStays(cap: int, w: World, e: Timed)
    requires BaseOk(cap, w) && Enabled(w.cache, e) && FrontOf(w.fronts, e.step.tid).Flushing? && !e.step.Begin? && !e.step.BeginDelete?
    requires FrontOk(FrontOf(w.fronts, e.step.tid), PcOf(w.cache.pcs, e.step.tid), w.cache.index, w.indexed, w.trace.steps, w.cache.now)
    ensures var w' := Act(cap, w, e);
      FrontOk(FrontOf(w.fronts, e.step.tid), PcOf(w'.cache.pcs, e.step.tid), w'.cache.index, w'.indexed, w'.trace.steps, w'.cache.now)
  {
    var s, q := w.cache, FrontOf(w.fronts, e.step.tid).q;
    ActIndex(cap, w, e);
    if e.step.DropForDelete? {
      RemoveMembers(s.index, q.key);
      RemoveLength(s.index, q.key);
      assert Do(cap, s, e) == Goto(RemoveEntry(s.(now := e.time), q.key), e.step.tid, Erasing(q.key));
    }
  }

  lemma CheckFine(s: State, t: nat, key: string, lead: bool, f: Front, indexed: map<Meta, nat>)
    requires Distinct(s.index) && f.Inside? && f.enteredTime < s.now && f.q.key == key && IndexFresh(f, indexed, s.index)
    ensures Fine(f, indexed, PcOf(DoCheck(s, t, key, lead).pcs, t))
  {
    CheckFacts(s.index, key, s.now);
  }

  lemma ReadFine(cap: int, s: State, e: Timed, f: Front, indexed: map<Meta, nat>)
    requires Timely(s) && Enabled(s, e) && e.step.ReadStore? && f.Inside? && Fine(f, indexed, PcOf(s.pcs, e.step.tid))
    ensures Fine(f, indexed, PcOf(Do(cap, s, e).pcs, e.step.tid))
  {
    assert ThreadTimed(s.now, s.store, PcOf(s.pcs, e.step.tid));
  }

  /** What is at hand stays good enough: an index check finds a fresh entry, a read gets its object or a newer
      one, and a fetch is newer than the flush check. */
  lemma StillFine(cap: int, s: State, e: Timed, f: Front, indexed: map<Meta, nat>)
    requires Inv(cap, s) && Timely(s) && Enabled(s, e) && f.Inside? && f.enteredTime <= s.now < e.time
    requires IndexFresh(f, indexed, s.index) && Fine(f, indexed, PcOf(s.pcs, e.step.tid))
    requires !PcOf(s.pcs, e.step.tid).Idle? && PcOf(s.pcs, e.step.tid).key == f.q.key
    requires !e.step.Begin? && !e.step.BeginDelete? && !e.step.Finish?
    ensures Fine(f, indexed, PcOf(Do(cap, s, e).pcs, e.step.tid))
  {
    var s1, t, pc := s.(now := e.time), e.step.tid, PcOf(s.pcs, e.step.tid);
    if e.step.CheckIndex? {
      CheckFine(s1, t, pc.key, pc.lead, f, indexed);
    } else if e.step.ReadStore? {
      ReadFine(cap, s, e, f, indexed);
    } else if e.step.EndFetch? {
      assert Fine(f, indexed, PcOf(DoEndFetch(s1, t, pc.key, e.step.response).pcs, t));
    } else if e.step.WriteStore? {
      assert Fine(f, indexed, PcOf(DoWrite(s1, t, pc.key, pc.obj, e.step.write).pcs, t));
    } else if e.step.InsertEntry? {
      assert Fine(f, indexed, PcOf(DoInsert(cap, s1, t, pc.key, pc.obj, e.step.evictOk).pcs, t));
    }
  }

  // ---- what one step of the cache keeps ----

  lemma FlightsKeep(h: Trace, s: State, e: Timed)
    requires Enabled(s, e)
    ensures var h' := Record(h, s, e);
      && h'.steps == h.steps + 1 && |h'.flights| >= |h.flights|
      && (forall f: nat :: f < |h.flights| ==> h'.flights[f].began == h.flights[f].began)
      && (forall u :: u != e.step.tid ==> (u in h'.joined <==> u in h.joined) && (u in h.joined ==> h'.joined[u] == h.joined[u]))
  {
  }

  /** Only the end of its own flight, and the start of a new one, change which flight runs for a key. */
  lemma RunningSteps(s: State, h: Trace, e: Timed, k: string)
    requires Enabled(s, e) && k in h.running
    requires e.step.Finish? ==> PcOf(s.pcs, e.step.tid).key != k
    requires e.step.Join? && PcOf(s.pcs, e.step.tid).key == k ==> k in s.group
    ensures k in Record(h, s, e).running && Record(h, s, e).running[k] == h.running[k]
  {
  }

  /** The flight of a leader that does not move goes on. */
  lemma RunningKept(s: State, h: Trace, e: Timed, u: nat)
    requires GroupOk(s.group, s.pcs) && FlightsOk(s, h) && Enabled(s, e) && u != e.step.tid && Leading(PcOf(s.pcs, u))
    ensures var k, h' := PcOf(s.pcs, u).key, Record(h, s, e);
      k in h.running && h.running[k] < |h.flights| && k in h'.running && h'.running[k] == h.running[k]
  {
    assert MemberOk(h, u, PcOf(s.pcs, u));
    if e.step.Finish? {
      OneLeader(s, e.step.tid, u);
    }
    RunningSteps(s, h, e, PcOf(s.pcs, u).key);
  }

  lemma LeaderStays(f: Front, indexed: map<Meta, nat>, indexed': map<Meta, nat>, pc: Pc, h: Trace, h': Trace, steps: nat)
    requires LeaderFine(f, indexed, pc, h) && Grown(indexed, indexed', steps) && f.Inside? && f.statAt <= steps
    requires |h'.flights| >= |h.flights| && forall i: nat :: i < |h.flights| ==> h'.flights[i].began == h.flights[i].began
    requires Leading(pc) ==> pc.key in h.running && h.running[pc.key] < |h.flights|
    requires Leading(pc) ==> pc.key in h'.running && h'.running[pc.key] == h.running[pc.key]
    ensures LeaderFine(f, indexed', pc, h')
  {
    if NewLeader(f, pc, h) {
      FineGrows(f, indexed, indexed', steps, pc);
    }
  }

  lemma OtherLeader(cap: int, w: World, e: Timed, f: Front, u: nat)
    requires BaseOk(cap, w) && Enabled(w.cache, e) && u != e.step.tid && f.Inside? && f.statAt <= w.trace.steps
    requires LeaderFine(f, w.indexed, PcOf(w.cache.pcs, u), w.trace)
    ensures LeaderFine(f, Indexed(w, e), PcOf(Do(cap, w.cache, e).pcs, u), Record(w.trace, w.cache, e))
  {
    ProtocolTheorems.StepThreads(cap, w.cache, e, u);
    var pc := PcOf(w.cache.pcs, u);
    if Leading(pc) {
      RunningKept(w.cache, w.trace, e, u);
    }
    FlightsKeep(w.trace, w.cache, e);
    ActIndex(cap, w, e);
    LeaderStays(f, w.indexed, Indexed(w, e), pc, w.trace, Record(w.trace, w.cache, e), w.trace.steps);
  }

  /** The flight of a leader that moves within it goes on. */
  lemma OwnRunning(s: State, h: Trace, e: Timed)
    requires FlightsOk(s, h) && Enabled(s, e) && Leading(PcOf(s.pcs, e.step.tid)) && !e.step.Finish?
    ensures var k, h' := PcOf(s.pcs, e.step.tid).key, Record(h, s, e);
      k in h.running && h.running[k] < |h.flights| && h'.running == h.running && |h'.flights| == |h.flights|
  {
    assert MemberOk(h, e.step.tid, PcOf(s.pcs, e.step.tid));
  }

  lemma OwnLeader(cap: int, w: World, e: Timed, f: Front)
    requires BaseOk(cap, w) && Enabled(w.cache, e) && !e.step.Begin? && !e.step.BeginDelete? && e.time > w.cache.now
    requires f.Inside? && f.statAt <= w.trace.steps && f.enteredTime <= w.cache.now && IndexFresh(f, w.indexed, w.cache.index)
    requires LeaderFine(f, w.indexed, PcOf(w.cache.pcs, e.step.tid), w.trace)
    ensures LeaderFine(f, Indexed(w, e), PcOf(Do(cap, w.cache, e).pcs, e.step.tid), Record(w.trace, w.cache, e))
  {
    var pc, pc', h, h' := PcOf(w.cache.pcs, e.step.tid), PcOf(Do(cap, w.cache, e).pcs, e.step.tid), w.trace, Record(w.trace, w.cache, e);
    if Leading(pc) && !e.step.Finish? {
      ProtocolTheorems.OwnThread(cap, w.cache, e);
      OwnRunning(w.cache, h, e);
      FlightsKeep(h, w.cache, e);
      if NewLeader(f, pc, h) {
        StillFine(cap, w.cache, e, f, w.indexed);
        ActIndex(cap, w, e);
        FineGrows(f, w.indexed, Indexed(w, e), h.steps, pc');
      }
    } else {
      ProtocolTheorems.NewLeadChecks(cap, w.cache, e);
    }
  }

  // ---- the request's own state ----

  lemma OwnStays(f: Front, indexed: map<Meta, nat>, indexed': map<Meta, nat>, pc: Pc, h: Trace, h': Trace, t: nat, steps: nat)
    requires OwnFine(f, indexed, pc, h, t) && Grown(indexed, indexed', steps) && (f.Inside? ==> f.statAt <= steps)
    requires |h'.flights| >= |h.flights| && forall i: nat :: i < |h.flights| ==> h'.flights[i].began == h.flights[i].began
    requires (t in h'.joined <==> t in h.joined) && (t in h.joined ==> h'.joined[t] == h.joined[t])
    ensures OwnFine(f, indexed', pc, h', t)
  {
    if f.Inside? && Fine(f, indexed, pc) {
      FineGrows(f, indexed, indexed', steps, pc);
    }
  }

  /** A waiter gets the result of its flight, which its leader had found for it if the flight is a new one. */
  lemma SharedFine(s: State, h: Trace, e: Timed, f: Front, indexed: map<Meta, nat>, t: nat)
    requires FlightsOk(s, h) && Enabled(s, e) && e.step.Finish? && f.Inside?
    requires PcOf(s.pcs, t) == Waiting(PcOf(s.pcs, e.step.tid).key) && f.q.key == PcOf(s.pcs, e.step.tid).key
    requires OwnFine(f, indexed, PcOf(s.pcs, t), h, t) && LeaderFine(f, indexed, PcOf(s.pcs, e.step.tid), h)
    ensures OwnFine(f, indexed, Done(f.q.key, PcOf(s.pcs, e.step.tid).result), h, t)
  {
    assert MemberOk(h, t, PcOf(s.pcs, t));
    assert MemberOk(h, e.step.tid, PcOf(s.pcs, e.step.tid));
  }

  lemma OtherOwn(cap: int, w: World, e: Timed, f: Front, t: nat)
    requires BaseOk(cap, w) && Enabled(w.cache, e) && t != e.step.tid
    requires f.Inside? ==> f.statAt <= w.trace.steps && !PcOf(w.cache.pcs, t).Idle? && PcOf(w.cache.pcs, t).key == f.q.key
    requires OwnFine(f, w.indexed, PcOf(w.cache.pcs, t), w.trace, t)
    requires LeaderFine(f, w.indexed, PcOf(w.cache.pcs, e.step.tid), w.trace)
    ensures OwnFine(f, Indexed(w, e), PcOf(Do(cap, w.cache, e).pcs, t), Record(w.trace, w.cache, e), t)
  {
    var s, h, v := w.cache, w.trace, e.step.tid;
    var pc, pc' := PcOf(s.pcs, t), PcOf(Do(cap, s, e).pcs, t);
    FlightsKeep(h, s, e);
    ActIndex(cap, w, e);
    if e.step.Finish? && pc == Waiting(PcOf(s.pcs, v).key) && f.Inside? {
      SharedFine(s, h, e, f, w.indexed, t);
      ProtocolTheorems.FinishedPc(cap, s, e, t);
      OwnStays(f, w.indexed, Indexed(w, e), pc', h, Record(h, s, e), t, h.steps);
    } else if f.Inside? {
      ProtocolTheorems.UnsharedPc(cap, s, e, t);
      OwnStays(f, w.indexed, Indexed(w, e), pc, h, Record(h, s, e), t, h.steps);
    }
  }

  lemma JoinOwn(cap: int, w: World, e: Timed, f: Front)
    requires Enabled(w.cache, e) && e.step.Join? && f.Inside? && f.enteredAt <= w.trace.steps
    ensures OwnFine(f, Indexed(w, e), PcOf(Do(cap, w.cache, e).pcs, e.step.tid), Record(w.trace, w.cache, e), e.step.tid)
  {
  }

  lemma MovedOwn(cap: int, w: World, e: Timed, f: Front, pc: Pc)
    requires Inv(cap, w.cache) && Enabled(w.cache, e) && !e.step.Begin? && !e.step.BeginDelete? && !e.step.Join?
    requires OwnFine(f, w.indexed, pc, w.trace, e.step.tid) && f.Inside? && f.statAt <= w.trace.steps
    ensures OwnFine(f, Indexed(w, e), pc, Record(w.trace, w.cache, e), e.step.tid)
  {
    ActIndex(cap, w, e);
    FlightsKeep(w.trace, w.cache, e);
    assert Record(w.trace, w.cache, e).joined == w.trace.joined;
    OwnStays(f, w.indexed, Indexed(w, e), pc, w.trace, Record(w.trace, w.cache, e), e.step.tid, w.trace.steps);
  }

  lemma FinishOwn(cap: int, w: World, e: Timed, f: Front)
    requires Inv(cap, w.cache) && Enabled(w.cache, e) && e.step.Finish? && f.Inside? && f.statAt <= w.trace.steps
    requires OwnFine(f, w.indexed, PcOf(w.cache.pcs, e.step.tid), w.trace, e.step.tid)
    ensures OwnFine(f, Indexed(w, e), PcOf(Do(cap, w.cache, e).pcs, e.step.tid), Record(w.trace, w.cache, e), e.step.tid)
  {
    var pc := PcOf(w.cache.pcs, e.step.tid);
    MovedOwn(cap, w, e, f, Done(pc.key, pc.result));
    ProtocolTheorems.FinishedPc(cap, w.cache, e, e.step.tid);
  }

  lemma OwnOwn(cap: int, w: World, e: Timed, f: Front)
    requires BaseOk(cap, w) && Enabled(w.cache, e) && !e.step.Begin? && !e.step.BeginDelete? && e.time > w.cache.now
    requires f.Inside? && f.statAt <= f.enteredAt <= w.trace.steps && f.enteredTime <= w.cache.now && IndexFresh(f, w.indexed, w.cache.index)
    requires !PcOf(w.cache.pcs, e.step.tid).Idle? && PcOf(w.cache.pcs, e.step.tid).key == f.q.key
    requires OwnFine(f, w.indexed, PcOf(w.cache.pcs, e.step.tid), w.trace, e.step.tid)
    ensures OwnFine(f, Indexed(w, e), PcOf(Do(cap, w.cache, e).pcs, e.step.tid), Record(w.trace, w.cache, e), e.step.tid)
  {
    var t, pc, pc' := e.step.tid, PcOf(w.cache.pcs, e.step.tid), PcOf(Do(cap, w.cache, e).pcs, e.step.tid);
    if e.step.Join? {
      JoinOwn(cap, w, e, f);
    } else if e.step.Finish? {
      FinishOwn(cap, w, e, f);
    } else {
      if Fine(f, w.indexed, pc) {
        StillFine(cap, w.cache, e, f, w.indexed);
      }
      assert !pc.Waiting?;
      MovedOwn(cap, w, e, f, pc');
    }
  }

  // ---- one step ----

  lemma ActBase(cap: int, w: World, e: Timed)
    requires BaseOk(cap, w) && Enabled(w.cache, e) && e.time > w.cache.now
    ensures BaseOk(cap, Act(cap, w, e)) && Act(cap, w, e).cache.now == e.time
  {
    StepInv(cap, w.cache, e);
    StepTimed(cap, w.cache, e);
    StepFlights(cap, w.cache, w.trace, e);
    NowIsTime(cap, w.cache, e);
  }

  /** Within GetOrFetch a request stays in GetOrFetch, with its key. */
  lemma StaysInside(cap: int, s: State, e: Timed, t: nat)
    requires Enabled(s, e) && !e.step.Begin? && !(e.step.BeginDelete? && e.step.tid == t)
    requires var pc := PcOf(s.pcs, t); !pc.Idle? && !pc.Deleting? && !pc.Erasing?
    ensures var pc, pc' := PcOf(s.pcs, t), PcOf(Do(cap, s, e).pcs, t);
      !pc'.Idle? && !pc'.Deleting? && !pc'.Erasing? && pc'.key == pc.key
  {
    if t == e.step.tid {
      ProtocolTheorems.OwnThread(cap, s, e);
    } else {
      ProtocolTheorems.StepThreads(cap, s, e, t);
    }
  }

  lemma ActFront(cap: int, w: World, e: Timed, t: nat)
    requires BaseOk(cap, w) && Enabled(w.cache, e) && e.time > w.cache.now
    requires !e.step.Begin? && (e.step.BeginDelete? ==> FrontOf(w.fronts, e.step.tid).Out?)
    requires FrontOk(FrontOf(w.fronts, t), PcOf(w.cache.pcs, t), w.cache.index, w.indexed, w.trace.steps, w.cache.now)
    ensures var w' := Act(cap, w, e);
      FrontOk(FrontOf(w.fronts, t), PcOf(w'.cache.pcs, t), w'.cache.index, w'.indexed, w.trace.steps + 1, e.time)
  {
    var front, pc := FrontOf(w.fronts, t), PcOf(w.cache.pcs, t);
    ActIndex(cap, w, e);
    if front.Flushing? && t == e.step.tid {
      FlushStays(cap, w, e);
      NowIsTime(cap, w.cache, e);
    } else {
      if front.Flushing? {
        ProtocolTheorems.StepThreads(cap, w.cache, e, t);
      } else if front.Inside? && !(e.step.BeginDelete? && e.step.tid == t) {
        StaysInside(cap, w.cache, e, t);
      }
      FrontStays(front, pc, PcOf(Do(cap, w.cache, e).pcs, t), w.cache.index, Do(cap, w.cache, e).index,
        w.indexed, Indexed(w, e), w.trace.steps, w.cache.now, e.time);
    }
  }

  /** What FrontsOk says of one request and one thread. */
  ghost predicate PairOk(w: World, t: nat, u: nat) {
    && FrontOk(FrontOf(w.fronts, t), PcOf(w.cache.pcs, t), w.cache.index, w.indexed, w.trace.steps, w.cache.now)
    && OwnFine(FrontOf(w.fronts, t), w.indexed, PcOf(w.cache.pcs, t), w.trace, t)
    && LeaderFine(FrontOf(w.fronts, t), w.indexed, PcOf(w.cache.pcs, u), w.trace)
  }

  lemma PairsAreAll(w: World)
    requires forall t, u :: PairOk(w, t, u)
    ensures FrontsOk(w)
  {
    forall t ensures FrontOk(FrontOf(w.fronts, t), PcOf(w.cache.pcs, t), w.cache.index, w.indexed, w.trace.steps, w.cache.now)
             ensures OwnFine(FrontOf(w.fronts, t), w.indexed, PcOf(w.cache.pcs, t), w.trace, t) {
      assert PairOk(w, t, t);
    }
    forall t, u ensures LeaderFine(FrontOf(w.fronts, t), w.indexed, PcOf(w.cache.pcs, u), w.trace) {
      assert PairOk(w, t, u);
    }
  }

  lemma ActPair(cap: int, w: World, e: Timed, t: nat, u: nat)
    requires WorldOk(cap, w) && Enabled(w.cache, e) && e.time > w.cache.now
    requires !e.step.Begin? && (e.step.BeginDelete? ==> FrontOf(w.fronts, e.step.tid).Out?)
    ensures PairOk(Act(cap, w, e), t, u)
  {
    var f, v := FrontOf(w.fronts, t), e.step.tid;
    assert FrontOk(f, PcOf(w.cache.pcs, t), w.cache.index, w.indexed, w.trace.steps, w.cache.now);
    assert OwnFine(f, w.indexed, PcOf(w.cache.pcs, t), w.trace, t);
    assert LeaderFine(f, w.indexed, PcOf(w.cache.pcs, u), w.trace) && LeaderFine(f, w.indexed, PcOf(w.cache.pcs, v), w.trace);
    ActFront(cap, w, e, t);
    NowIsTime(cap, w.cache, e);
    FlightsKeep(w.trace, w.cache, e);
    if f.Inside? {
      if t != v { OtherOwn(cap, w, e, f, t); } else { OwnOwn(cap, w, e, f); }
      if u != v { OtherLeader(cap, w, e, f, u); } else { LeaderMoves(cap, w, e, f); }
    }
  }

  lemma LeaderMoves(cap: int, w: World, e: Timed, f: Front)
    requires BaseOk(cap, w) && Enabled(w.cache, e) && !e.step.Begin? && e.time > w.cache.now
    requires f.Inside? && f.statAt <= w.trace.steps && f.enteredTime <= w.cache.now && IndexFresh(f, w.indexed, w.cache.index)
    requires LeaderFine(f, w.indexed, PcOf(w.cache.pcs, e.step.tid), w.trace)
    ensures LeaderFine(f, Indexed(w, e), PcOf(Do(cap, w.cache, e).pcs, e.step.tid), Record(w.trace, w.cache, e))
  {
    if !e.step.BeginDelete? {
      OwnLeader(cap, w, e, f);
    }
  }

  lemma ActOk(cap: int, w: World, e: Timed)
    requires WorldOk(cap, w) && Enabled(w.cache, e) && e.time > w.cache.now
    requires !e.step.Begin? && (e.step.BeginDelete? ==> FrontOf(w.fronts, e.step.tid).Out?)
    ensures WorldOk(cap, Act(cap, w, e))
  {
    ActBase(cap, w, e);
    forall t, u ensures PairOk(Act(cap, w, e), t, u) {
      ActPair(cap, w, e, t, u);
    }
    PairsAreAll(Act(cap, w, e));
  }

  // ---- entering and leaving ----

  /** A thread that begins a call has no flight, and nothing at hand. */
  lemma BeginFacts(cap: int, s: State, h: Trace, e: Timed)
    requires Enabled(s, e) && (e.step.Begin? || e.step.BeginDelete?)
    ensures Do(cap, s, e).index == s.index && e.step.tid !in Record(h, s, e).joined
    ensures PcOf(Do(cap, s, e).pcs, e.step.tid) == if e.step.Begin? then Checking(e.step.key, false) else Deleting(e.step.key)
    ensures Record(h, s, e).flights == h.flights && Record(h, s, e).running == h.running
    ensures forall u :: u != e.step.tid ==> PcOf(Do(cap, s, e).pcs, u) == PcOf(s.pcs, u)
  {
  }

  /** Somebody else's beginning changes nothing for a request and for a thread. */
  lemma OtherBegins(cap: int, w: World, e: Timed, t: nat, u: nat)
    requires PairOk(w, t, u) && Enabled(w.cache, e) && e.time > w.cache.now && (e.step.Begin? || e.step.BeginDelete?) && t != e.step.tid
    ensures PairOk(Act(cap, w, e), t, u)
  {
    var f, pc, w' := FrontOf(w.fronts, t), PcOf(w.cache.pcs, t), Act(cap, w, e);
    BeginFacts(cap, w.cache, w.trace, e);
    NowIsTime(cap, w.cache, e);
    assert w'.trace.steps == w.trace.steps + 1 && w'.indexed == w.indexed && w'.cache.index == w.cache.index;
    FrontStays(f, pc, pc, w.cache.index, w.cache.index, w.indexed, w.indexed, w.trace.steps, w.cache.now, e.time);
    OwnUnmoved(cap, w, e, f, t);
    LeaderUnmoved(cap, w, e, f, u);
  }

  lemma OwnUnmoved(cap: int, w: World, e: Timed, f: Front, t: nat)
    requires Enabled(w.cache, e) && (e.step.Begin? || e.step.BeginDelete?) && t != e.step.tid
    requires OwnFine(f, w.indexed, PcOf(w.cache.pcs, t), w.trace, t)
    ensures OwnFine(f, w.indexed, PcOf(Do(cap, w.cache, e).pcs, t), Record(w.trace, w.cache, e), t)
  {
    BeginFacts(cap, w.cache, w.trace, e);
    FlightsKeep(w.trace, w.cache, e);
  }

  lemma LeaderUnmoved(cap: int, w: World, e: Timed, f: Front, u: nat)
    requires Enabled(w.cache, e) && (e.step.Begin? || e.step.BeginDelete?)
    requires LeaderFine(f, w.indexed, PcOf(w.cache.pcs, u), w.trace)
    ensures LeaderFine(f, w.indexed, PcOf(Do(cap, w.cache, e).pcs, u), Record(w.trace, w.cache, e))
  {
    BeginFacts(cap, w.cache, w.trace, e);
  }

  /** All flights so far are older than a request that begins now. */
  lemma NoNewLeader(s: State, h: Trace, f: Front, u: nat)
    requires FlightsOk(s, h) && f.Inside? && f.enteredAt > h.steps
    ensures !NewLeader(f, PcOf(s.pcs, u), h)
  {
    assert MemberOk(h, u, PcOf(s.pcs, u));
  }

  lemma OwnBegins(cap: int, w: World, e: Timed, front: Front, u: nat)
    requires BaseOk(cap, w) && Enabled(w.cache, e) && (e.step.Begin? || e.step.BeginDelete?)
    requires front.Inside? ==> front.enteredAt == w.trace.steps + 1 && e.step.Begin?
    ensures OwnFine(front, w.indexed, PcOf(Do(cap, w.cache, e).pcs, e.step.tid), Record(w.trace, w.cache, e), e.step.tid)
    ensures LeaderFine(front, w.indexed, PcOf(Do(cap, w.cache, e).pcs, u), Record(w.trace, w.cache, e))
  {
    BeginFacts(cap, w.cache, w.trace, e);
    if front.Inside? {
      NoNewLeader(w.cache, w.trace, front, u);
    }
  }

  /** Where a thread is after it has begun. */
  function Begun(st: Step): Pc
    requires st.Begin? || st.BeginDelete?
  {
    if st.Begin? then Checking(st.key, false) else Deleting(st.key)
  }

  lemma BeginPair(cap: int, w: World, e: Timed, front: Front, t: nat, u: nat)
    requires WorldOk(cap, w) && Enabled(w.cache, e) && e.time > w.cache.now && (e.step.Begin? || e.step.BeginDelete?)
    requires FrontOk(front, Begun(e.step), w.cache.index, w.indexed, w.trace.steps + 1, e.time)
    requires front.Inside? ==> front.enteredAt == w.trace.steps + 1 && e.step.Begin?
    ensures PairOk(Go(Act(cap, w, e), e.step.tid, front), t, u)
  {
    if t != e.step.tid {
      assert PairOk(w, t, u);
      OtherBegins(cap, w, e, t, u);
    } else {
      OwnBegins(cap, w, e, front, u);
      BeginFacts(cap, w.cache, w.trace, e);
      NowIsTime(cap, w.cache, e);
      FlightsKeep(w.trace, w.cache, e);
    }
  }

  lemma BeginOk(cap: int, w: World, e: Timed, front: Front)
    requires WorldOk(cap, w) && Enabled(w.cache, e) && e.time > w.cache.now && (e.step.Begin? || e.step.BeginDelete?)
    requires FrontOk(front, Begun(e.step), w.cache.index, w.indexed, w.trace.steps + 1, e.time)
    requires front.Inside? ==> front.enteredAt == w.trace.steps + 1 && e.step.Begin?
    ensures WorldOk(cap, Go(Act(cap, w, e), e.step.tid, front))
  {
    var w' := Go(Act(cap, w, e), e.step.tid, front);
    ActBase(cap, w, e);
    forall t, u ensures PairOk(w', t, u) {
      BeginPair(cap, w, e, front, t, u);
    }
    PairsAreAll(w');
  }

  /** An entry that the comparison spares is older than no covering rule. */
  lemma SparedIsFresh(peek: Option<Meta>, seen: seq<F.Rule>, q: Ask)
    requires peek.Some? && !Due(peek, seen, q.path)
    ensures NotFlushed(q, seen, peek.value)
  {
    F.NewestFacts(seen, q.path);
  }

  /** The flush check finds something due exactly when some rule of the bucket that covers the path is newer than an
      entry of the key. */
  lemma DueExactly(index: Index, seen: seq<F.Rule>, key: string, path: string)
    requires Distinct(index)
    ensures Due(Peek(index, key), seen, path) <==>
      exists m, r :: m in index && m.key == key && r in seen && r.prefix <= path && r.createdAt > m.writtenAt
  {
    F.NewestFacts(seen, path);
    HasIff(index, key);
    forall m | m in index && m.key == key ensures Peek(index, key) == Some(m) {
      LookupUnique(index, m);
    }
    var rule := F.Newest(seen, path);
    if Due(Peek(index, key), seen, path) {
      assert Lookup(index, key) in index && rule.value in seen;
    }
  }

  lemma SeenIsOld(rules: F.Rules, domain: string, now: int)
    requires RulesOld(rules, now)
    ensures SeenOld(F.Bucket(rules, domain), now)
  {
  }

  /** A request past its flush check: what is indexed under its key was spared, or came later. */
  lemma InsideFront(q: Ask, peek: Option<Meta>, seen: seq<F.Rule>, statAt: nat, index: Index, indexed: map<Meta, nat>, steps: nat, time: int)
    requires statAt <= steps && PeekOk(q, peek, statAt, index, indexed) && SeenOld(seen, time)
    requires peek.Some? ==> NotFlushed(q, seen, peek.value)
    ensures FrontOk(Inside(q, seen, statAt, steps + 1, time), Checking(q.key, false), index, indexed, steps + 1, time)
  {
  }

  lemma StartOk(cap: int, w: World, t: nat, q: Ask, peek: Option<Meta>, seen: seq<F.Rule>, statAt: nat, time: int)
    requires WorldOk(cap, w) && Enabled(w.cache, At(time, Begin(t, q.key))) && time > w.cache.now
    requires statAt <= w.trace.steps && PeekOk(q, peek, statAt, w.cache.index, w.indexed) && SeenOld(seen, time)
    requires peek.Some? ==> NotFlushed(q, seen, peek.value)
    ensures WorldOk(cap, Go(Act(cap, w, At(time, Begin(t, q.key))), t, Entered(w, q, seen, statAt, time)))
  {
    InsideFront(q, peek, seen, statAt, w.cache.index, w.indexed, w.trace.steps, time);
    BeginOk(cap, w, At(time, Begin(t, q.key)), Entered(w, q, seen, statAt, time));
  }

  lemma DueOk(cap: int, w: World, t: nat, q: Ask, seen: seq<F.Rule>, statAt: nat, time: int)
    requires WorldOk(cap, w) && Enabled(w.cache, At(time, BeginDelete(t, q.key))) && time > w.cache.now
    requires statAt <= w.trace.steps && SeenOld(seen, time)
    ensures WorldOk(cap, Go(Act(cap, w, At(time, BeginDelete(t, q.key))), t, Flushing(q, seen, statAt)))
  {
    BeginOk(cap, w, At(time, BeginDelete(t, q.key)), Flushing(q, seen, statAt));
  }

  lemma MatchOk(cap: int, w: World, e: TimedMove)
    requires WorldOk(cap, w) && CanMove(w, e) && e.move.MatchRules?
    ensures WorldOk(cap, DoMove(cap, w, e))
  {
    var t := e.move.tid;
    var Peeked(q, peek, statAt) := FrontOf(w.fronts, t);
    var seen := F.Bucket(w.rules, q.domain);
    SeenIsOld(w.rules, q.domain, w.cache.now);
    assert FrontOk(FrontOf(w.fronts, t), PcOf(w.cache.pcs, t), w.cache.index, w.indexed, w.trace.steps, w.cache.now);
    if Due(peek, seen, q.path) {
      DueOk(cap, w, t, q, seen, statAt, e.time);
    } else {
      if peek.Some? {
        SparedIsFresh(peek, seen, q);
      }
      StartOk(cap, w, t, q, peek, seen, statAt, e.time);
    }
  }

  lemma EnterOk(cap: int, w: World, e: TimedMove)
    requires WorldOk(cap, w) && CanMove(w, e) && e.move.Enter?
    ensures WorldOk(cap, DoMove(cap, w, e))
  {
    var Flushing(q, seen, statAt) := FrontOf(w.fronts, e.move.tid);
    assert FrontOk(FrontOf(w.fronts, e.move.tid), PcOf(w.cache.pcs, e.move.tid), w.cache.index, w.indexed, w.trace.steps, w.cache.now);
    StartOk(cap, w, e.move.tid, q, None, seen, statAt, e.time);
  }

  lemma WaitOk(cap: int, w: World, time: int)
    requires WorldOk(cap, w) && time >= w.cache.now
    ensures WorldOk(cap, Wait(w, time))
  {
    Later(w.cache, time);
    var w' := Wait(w, time);
    assert Inv(cap, w'.cache);
    forall t ensures FrontOk(FrontOf(w'.fronts, t), PcOf(w'.cache.pcs, t), w'.cache.index, w'.indexed, w'.trace.steps, time) {
      assert FrontOk(FrontOf(w.fronts, t), PcOf(w.cache.pcs, t), w.cache.index, w.indexed, w.trace.steps, w.cache.now);
    }
  }

  lemma StatOk(cap: int, w: World, t: nat, q: Ask)
    requires WorldOk(cap, w)
    ensures WorldOk(cap, Go(w, t, Peeked(q, Peek(w.cache.index, q.key), w.trace.steps)))
  {
    var w' := Go(w, t, Peeked(q, Peek(w.cache.index, q.key), w.trace.steps));
    forall m | m in w.cache.index && m.key == q.key ensures Peek(w.cache.index, q.key) == Some(m) {
      LookupUnique(w.cache.index, m);
    }
    forall u ensures FrontOf(w'.fronts, u) == if u == t then FrontOf(w'.fronts, t) else FrontOf(w.fronts, u) {
    }
  }

  lemma RulesOk(cap: int, w: World, rules: F.Rules)
    requires WorldOk(cap, w) && RulesOld(rules, w.cache.now)
    ensures WorldOk(cap, w.(rules := rules))
  {
  }

  lemma CleanedIsOld(rules: F.Rules, cutoff: int, now: int)
    requires RulesOld(rules, now)
    ensures RulesOld(F.Cleaned(rules, cutoff), now)
  {
    forall d, r: F.Rule | d in F.Cleaned(rules, cutoff) && r in F.Cleaned(rules, cutoff)[d] ensures r.createdAt <= now {
      F.YoungerFacts(rules[d], cutoff);
    }
  }

  lemma StepOk(cap: int, w: World, e: TimedMove)
    requires WorldOk(cap, w) && CanMove(w, e)
    ensures WorldOk(cap, DoMove(cap, w, e))
  {
    match e.move
    case Stat(t, q) =>
      WaitOk(cap, w, e.time);
      StatOk(cap, Wait(w, e.time), t, q);
    case MatchRules(_) => MatchOk(cap, w, e);
    case Enter(_) => EnterOk(cap, w, e);
    case Inner(st) => ActOk(cap, w, At(e.time, st));
    case NewRule(r) =>
      WaitOk(cap, w, e.time);
      RulesOk(cap, Wait(w, e.time), F.AddTo(w.rules, r));
    case DropRules(cutoff) =>
      WaitOk(cap, w, e.time);
      CleanedIsOld(w.rules, cutoff, e.time);
      RulesOk(cap, Wait(w, e.time), F.Cleaned(w.rules, cutoff));
  }

  lemma {:induction false} RunOk(cap: int, w: World, run: seq<TimedMove>)
    requires WorldOk(cap, w) && ValidMoves(cap, w, run)
    ensures WorldOk(cap, Moves(cap, w, run))
    decreases |run|
  {
    if run != [] {
      StepOk(cap, w, run[0]);
      RunOk(cap, DoMove(cap, w, run[0]), run[1..]);
    }
  }

  lemma StartingOk(cap: int, w: World)
    requires Starting(w)
    ensures WorldOk(cap, w)
  {
    InitInv(cap, w.cache);
    assert forall u :: PcOf(w.cache.pcs, u) == Idle;
  }

  // ---- the theorem ----

  /** The request joined a flight that had begun before its flush check was over, and joined it afterwards. */
  predicate JoinedOpenFlight(h: Trace, t: nat, enteredAt: nat) {
    && t in h.joined && h.joined[t].flight < |h.flights|
    && var f := h.flights[h.joined[t].flight];
    f.ended.Some? && f.began <= enteredAt < h.joined[t].at < f.ended.value.at
  }

  /** In every interleaving of requests, rules and cleanups, and with any failures: an answer older than a covering rule
      that was stored at the request's flush check is either the result of a flight that was under way when the
      check ended, or a hit on an entry that was put in the index after the check had looked it up. */
  lemma OlderAnswersExplained(cap: int, w0: World, run: seq<TimedMove>, t: nat, r: F.Rule)
    requires Starting(w0) && ValidMoves(cap, w0, run)
    ensures var w := Moves(cap, w0, run); var f, pc := FrontOf(w.fronts, t), PcOf(w.cache.pcs, t);
      f.Inside? && pc.Done? && !pc.result.Failed? && r in f.seen && F.Covers(r, f.q.path)
        && pc.result.obj.meta.writtenAt < r.createdAt ==>
        || JoinedOpenFlight(w.trace, t, f.enteredAt)
        || (pc.result.Hit? && pc.result.obj.meta == pc.result.meta && Since(w.indexed, pc.result.meta, f.statAt))
  {
    StartingOk(cap, w0);
    RunOk(cap, w0, run);
    var w := Moves(cap, w0, run);
    var f, pc := FrontOf(w.fronts, t), PcOf(w.cache.pcs, t);
    assert FrontOk(f, pc, w.cache.index, w.indexed, w.trace.steps, w.cache.now);
    assert OwnFine(f, w.indexed, pc, w.trace, t);
    assert MemberOk(w.trace, t, pc);
  }
}
