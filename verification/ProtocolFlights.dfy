/** Which request belongs to which flight: a history beside the runs of the protocol, which no step looks at. */
module ProtocolFlights {
  import opened Objects
  import opened LruIndex
  import opened Protocol
  import opened ProtocolSafety

  /** A flight: its key, the step at which it began, the object it fetched, and how and when it ended. */
  datatype Flight = Flight(key: string, began: nat, brought: Option<Obj>, ended: Option<Ending>)

  datatype Ending = Ending(at: nat, result: Result)

  /** The flight a request has led or joined, and the step at which it did. */
  datatype Membership = Membership(flight: nat, at: nat)

  /** All flights so far, the one that runs for a key, and the one that a thread's present request belongs to. */
  datatype Trace = Trace(steps: nat, flights: seq<Flight>, running: map<string, nat>, joined: map<nat, Membership>)

  const START := Trace(0, [], map[], map[])

  function FlightOf(h: Trace, key: string): nat {
    if key in h.running then h.running[key] else 0
  }

  /** A latecomer joins the flight of its key. */
  function Board(h: Trace, t: nat, key: string): Trace {
    h.(joined := h.joined[t := Membership(FlightOf(h, key), h.steps + 1)])
  }

  /** The first caller starts a flight. */
  function Launch(h: Trace, t: nat, key: string): Trace {
    var f := |h.flights|;
    h.(flights := h.flights + [Flight(key, h.steps + 1, None, None)],
       running := h.running[key := f],
       joined := h.joined[t := Membership(f, h.steps + 1)])
  }

  function Bring(h: Trace, key: string, obj: Obj): Trace {
    var f := FlightOf(h, key);
    if f < |h.flights| then h.(flights := h.flights[f := h.flights[f].(brought := Some(obj))]) else h
  }

  function Land(h: Trace, key: string, r: Result): Trace {
    var f := FlightOf(h, key);
    var h' := h.(running := h.running - {key});
    if f < |h.flights| then h'.(flights := h.flights[f := h.flights[f].(ended := Some(Ending(h.steps + 1, r)))]) else h'
  }

  function Leave(h: Trace, t: nat): Trace {
    h.(joined := h.joined - {t})
  }

  function Counted(h: Trace): Trace {
    h.(steps := h.steps + 1)
  }

  /** What one step adds to the history. */
  function Record(h: Trace, s: State, e: Timed): Trace
    requires Enabled(s, e)
  {
    var t, pc := e.step.tid, PcOf(s.pcs, e.step.tid);
    Counted(match e.step
            case Begin(_, _) => Leave(h, t)
            case BeginDelete(_, _) => Leave(h, t)
            case Join(_) => if pc.key in s.group then Board(h, t, pc.key) else Launch(h, t, pc.key)
            case EndFetch(_, response) =>
              (match response
               case Unavailable => h
               case Response(body, ttl, headers) => Bring(h, pc.key, Obj(body, Meta(pc.key, e.time, ttl, |body|, headers))))
            case Finish(_) => Land(h, pc.key, pc.result)
            case _ => h)
  }

  ghost function TraceOf(cap: int, s: State, h: Trace, run: seq<Timed>): Trace
    requires ValidRun(cap, s, run)
    decreases |run|
  {
    if run == [] then h else TraceOf(cap, Do(cap, s, run[0]), Record(h, s, run[0]), run[1..])
  }

  // ---- the invariant ----

  predicate Flying(h: Trace, f: nat, key: string) {
    f < |h.flights| && h.flights[f].key == key && h.flights[f].ended.None? && h.flights[f].began <= h.steps
  }

  /** The thread belongs to the flight that runs for the key. */
  predicate Aboard(h: Trace, t: nat, key: string) {
    && key in h.running && Flying(h, h.running[key], key)
    && t in h.joined && h.joined[t].flight == h.running[key]
    && h.flights[h.running[key]].began <= h.joined[t].at <= h.steps
  }

  /** The object a leader has at hand is the one its flight fetched. */
  predicate Carries(pc: Pc, brought: Option<Obj>) {
    match pc
    case Writing(_, obj) => brought == Some(obj)
    case Inserting(_, obj) => brought == Some(obj)
    case Returning(_, r) => r.Fetched? ==> brought == Some(r.obj)
    case _ => true
  }

  /** The thread has the result of a flight that has ended since it joined. */
  predicate Landed(h: Trace, m: Membership, key: string, r: Result) {
    && m.flight < |h.flights| && h.flights[m.flight].key == key
    && h.flights[m.flight].ended.Some? && h.flights[m.flight].ended.value.result == r
    && h.flights[m.flight].began <= m.at < h.flights[m.flight].ended.value.at <= h.steps
    && (r.Fetched? ==> h.flights[m.flight].brought == Some(r.obj))
  }

  predicate LeaderOk(h: Trace, t: nat, pc: Pc)
    requires Leading(pc)
  {
    Aboard(h, t, pc.key) && Carries(pc, h.flights[h.running[pc.key]].brought)
  }

  predicate MemberOk(h: Trace, t: nat, pc: Pc) {
    if pc.Done? then (if t in h.joined then Landed(h, h.joined[t], pc.key, pc.result) else pc.result.Hit?)
    else if pc.Waiting? then Aboard(h, t, pc.key)
    else if Leading(pc) then LeaderOk(h, t, pc)
    else t !in h.joined
  }

  ghost predicate RunningOk(group: map<string, nat>, h: Trace) {
    && (forall k :: k in h.running <==> k in group)
    && (forall k :: k in h.running ==> Flying(h, h.running[k], k))
  }

  ghost predicate MembersOk(pcs: map<nat, Pc>, h: Trace) {
    forall t :: MemberOk(h, t, PcOf(pcs, t))
  }

  ghost predicate FlightsOk(s: State, h: Trace) {
    RunningOk(s.group, h) && MembersOk(s.pcs, h)
  }

  // ---- preservation ----

  /** What one thread knows of the history does not change with what others do. */
  lemma MemberStays(h: Trace, h': Trace, u: nat, pc: Pc)
    requires MemberOk(h, u, pc) && h'.steps >= h.steps
    requires (u in h'.joined <==> u in h.joined) && (u in h.joined ==> h'.joined[u] == h.joined[u])
    requires |h'.flights| >= |h.flights|
    requires u in h.joined && h.joined[u].flight < |h.flights| ==> h'.flights[h.joined[u].flight] == h.flights[h.joined[u].flight]
    requires (pc.Waiting? || Leading(pc)) && pc.key in h.running ==> pc.key in h'.running && h'.running[pc.key] == h.running[pc.key]
    ensures MemberOk(h', u, pc)
  {
  }

  /** Every thread but `t` stays where it is. */
  ghost predicate OnlyMoves(pcs: map<nat, Pc>, pcs': map<nat, Pc>, t: nat, pc: Pc) {
    forall u :: PcOf(pcs', u) == if u == t then pc else PcOf(pcs, u)
  }

  lemma MoveOk(pcs: map<nat, Pc>, h: Trace, pcs': map<nat, Pc>, h': Trace, t: nat, pc: Pc)
    requires MembersOk(pcs, h) && OnlyMoves(pcs, pcs', t, pc) && MemberOk(h', t, pc)
    requires h'.running == h.running && h'.flights == h.flights && h'.steps >= h.steps
    requires h'.joined - {t} == h.joined - {t}
    ensures MembersOk(pcs', h')
  {
    forall u ensures MemberOk(h', u, PcOf(pcs', u)) {
      if u != t {
        assert u in h'.joined <==> u in h'.joined - {t};
        assert u in h.joined <==> u in h.joined - {t};
        MemberStays(h, h', u, PcOf(pcs, u));
      }
    }
  }

  lemma LaunchOk(pcs: map<nat, Pc>, group: map<string, nat>, h: Trace, pcs': map<nat, Pc>, t: nat, key: string)
    requires MembersOk(pcs, h) && RunningOk(group, h) && key !in group && OnlyMoves(pcs, pcs', t, Checking(key, true))
    ensures RunningOk(group[key := t], Counted(Launch(h, t, key))) && MembersOk(pcs', Counted(Launch(h, t, key)))
  {
    var h' := Counted(Launch(h, t, key));
    forall k | k in h'.running ensures Flying(h', h'.running[k], k) {
      assert k != key ==> Flying(h, h.running[k], k);
    }
    forall u ensures MemberOk(h', u, PcOf(pcs', u)) {
      assert MemberOk(h, u, PcOf(pcs, u));
      if u != t {
        MemberStays(h, h', u, PcOf(pcs, u));
      }
    }
  }

  /** A flight that runs is nobody's but its members'. */
  lemma OnlyMembers(pcs: map<nat, Pc>, group: map<string, nat>, h: Trace, key: string, u: nat)
    requires MembersOk(pcs, h) && RunningOk(group, h) && key in h.running && u in h.joined && h.joined[u].flight == h.running[key]
    ensures PcOf(pcs, u).Waiting? || Leading(PcOf(pcs, u))
    ensures PcOf(pcs, u).key == key
  {
    assert MemberOk(h, u, PcOf(pcs, u)) && Flying(h, h.running[key], key);
  }

  lemma BringOk(pcs: map<nat, Pc>, group: map<string, nat>, h: Trace, pcs': map<nat, Pc>, t: nat, key: string, obj: Obj)
    requires GroupOk(group, pcs) && MembersOk(pcs, h) && RunningOk(group, h)
    requires PcOf(pcs, t) == Fetching(key) && OnlyMoves(pcs, pcs', t, Writing(key, obj))
    ensures RunningOk(group, Counted(Bring(h, key, obj))) && MembersOk(pcs', Counted(Bring(h, key, obj)))
  {
    var h', f := Counted(Bring(h, key, obj)), FlightOf(h, key);
    assert MemberOk(h, t, PcOf(pcs, t));
    forall k | k in h'.running ensures Flying(h', h'.running[k], k) {
      assert Flying(h, h.running[k], k);
    }
    forall u ensures MemberOk(h', u, PcOf(pcs', u)) {
      BringMember(pcs, group, h, t, key, obj, u);
    }
  }

  lemma BringMember(pcs: map<nat, Pc>, group: map<string, nat>, h: Trace, t: nat, key: string, obj: Obj, u: nat)
    requires GroupOk(group, pcs) && MembersOk(pcs, h) && RunningOk(group, h) && PcOf(pcs, t) == Fetching(key)
    ensures MemberOk(Counted(Bring(h, key, obj)), u, if u == t then Writing(key, obj) else PcOf(pcs, u))
  {
    assert MemberOk(h, t, PcOf(pcs, t)) && MemberOk(h, u, PcOf(pcs, u));
    if u != t && u in h.joined && h.joined[u].flight == h.running[key] {
      OnlyMembers(pcs, group, h, key, u);
      assert Leading(PcOf(pcs, t)) && group[key] == t;
    } else if u != t {
      MemberStays(h, Counted(Bring(h, key, obj)), u, PcOf(pcs, u));
    }
  }

  lemma LandOk(pcs: map<nat, Pc>, group: map<string, nat>, h: Trace, pcs': map<nat, Pc>, t: nat, key: string, r: Result)
    requires GroupOk(group, pcs) && MembersOk(pcs, h) && RunningOk(group, h) && PcOf(pcs, t) == Returning(key, r)
    requires forall u :: PcOf(pcs', u) == if u == t || PcOf(pcs, u) == Waiting(key) then Done(key, r) else PcOf(pcs, u)
    ensures RunningOk(group - {key}, Counted(Land(h, key, r))) && MembersOk(pcs', Counted(Land(h, key, r)))
  {
    var h' := Counted(Land(h, key, r));
    assert MemberOk(h, t, PcOf(pcs, t));
    forall k | k in h'.running ensures Flying(h', h'.running[k], k) {
      assert Flying(h, h.running[k], k) && Flying(h, h.running[key], key);
    }
    forall u ensures MemberOk(h', u, PcOf(pcs', u)) {
      LandMember(pcs, group, h, t, key, r, u);
    }
  }

  lemma LandMember(pcs: map<nat, Pc>, group: map<string, nat>, h: Trace, t: nat, key: string, r: Result, u: nat)
    requires GroupOk(group, pcs) && MembersOk(pcs, h) && RunningOk(group, h) && PcOf(pcs, t) == Returning(key, r)
    ensures MemberOk(Counted(Land(h, key, r)), u, if u == t || PcOf(pcs, u) == Waiting(key) then Done(key, r) else PcOf(pcs, u))
  {
    assert MemberOk(h, t, PcOf(pcs, t)) && MemberOk(h, u, PcOf(pcs, u));
    if u != t && PcOf(pcs, u) != Waiting(key) {
      if u in h.joined && h.joined[u].flight == h.running[key] {
        OnlyMembers(pcs, group, h, key, u);
        assert false;
      } else {
        assert Leading(PcOf(pcs, u)) ==> PcOf(pcs, u).key != key;
        MemberStays(h, Counted(Land(h, key, r)), u, PcOf(pcs, u));
      }
    }
  }

  /** A thread goes on with its request, inside its flight or outside any. */
  lemma GoesOn(pcs: map<nat, Pc>, h: Trace, pcs': map<nat, Pc>, t: nat, pc: Pc)
    requires MembersOk(pcs, h) && OnlyMoves(pcs, pcs', t, pc) && !PcOf(pcs, t).Done? && !PcOf(pcs, t).Waiting?
    requires if Leading(PcOf(pcs, t)) then
        && Leading(pc) && pc.key == PcOf(pcs, t).key
        && forall o :: Carries(PcOf(pcs, t), o) ==> Carries(pc, o)
      else !Leading(pc) && !pc.Waiting? && (pc.Done? ==> pc.result.Hit?)
    ensures MembersOk(pcs', Counted(h))
  {
    assert MemberOk(h, t, PcOf(pcs, t));
    MoveOk(pcs, h, pcs', Counted(h), t, pc);
  }

  lemma LeaveOk(pcs: map<nat, Pc>, h: Trace, pcs': map<nat, Pc>, t: nat, pc: Pc)
    requires MembersOk(pcs, h) && OnlyMoves(pcs, pcs', t, pc) && !pc.Done? && !pc.Waiting? && !Leading(pc)
    ensures MembersOk(pcs', Counted(Leave(h, t)))
  {
    MoveOk(pcs, h, pcs', Counted(Leave(h, t)), t, pc);
  }

  lemma BoardOk(pcs: map<nat, Pc>, group: map<string, nat>, h: Trace, pcs': map<nat, Pc>, t: nat, key: string)
    requires MembersOk(pcs, h) && RunningOk(group, h) && key in group && OnlyMoves(pcs, pcs', t, Waiting(key))
    ensures MembersOk(pcs', Counted(Board(h, t, key)))
  {
    assert Flying(h, h.running[key], key);
    MoveOk(pcs, h, pcs', Counted(Board(h, t, key)), t, Waiting(key));
  }

  lemma RunningStays(group: map<string, nat>, h: Trace, h': Trace)
    requires RunningOk(group, h) && h'.running == h.running && h'.flights == h.flights && h'.steps >= h.steps
    ensures RunningOk(group, h')
  {
    assert forall k :: k in h.running ==> Flying(h, h.running[k], k);
  }

  // ---- one step ----

  lemma GotoFlights(s: State, h: Trace, t: nat, pc: Pc)
    requires FlightsOk(s, h) && !PcOf(s.pcs, t).Done? && !PcOf(s.pcs, t).Waiting?
    requires if Leading(PcOf(s.pcs, t)) then
        && Leading(pc) && pc.key == PcOf(s.pcs, t).key
        && forall o :: Carries(PcOf(s.pcs, t), o) ==> Carries(pc, o)
      else !Leading(pc) && !pc.Waiting? && (pc.Done? ==> pc.result.Hit?)
    ensures FlightsOk(Goto(s, t, pc), Counted(h))
  {
    GoesOn(s.pcs, h, Goto(s, t, pc).pcs, t, pc);
    RunningStays(s.group, h, Counted(h));
  }

  lemma MissedFlights(s: State, h: Trace, t: nat, key: string, lead: bool)
    requires FlightsOk(s, h) && (PcOf(s.pcs, t) == Checking(key, lead) || PcOf(s.pcs, t) == Dropping(key, lead))
    ensures FlightsOk(Missed(s, t, key, lead), Counted(h))
  {
    if lead {
      GotoFlights(s.(log := s.log + multiset{Started(key)}), h, t, Fetching(key));
    } else {
      GotoFlights(s, h, t, Entering(key));
    }
  }

  lemma CheckFlights(s: State, h: Trace, t: nat, key: string, lead: bool)
    requires FlightsOk(s, h) && PcOf(s.pcs, t) == Checking(key, lead)
    ensures FlightsOk(DoCheck(s, t, key, lead), Counted(h))
  {
    match Check(s.index, key, s.now)
    case Fresh(index, meta) => GotoFlights(s.(index := index), h, t, Reading(key, lead, meta, s.now));
    case Miss(_) => MissedFlights(RemoveEntry(s, key), h, t, key, lead);
  }

  lemma ReadFlights(cap: int, s: State, h: Trace, e: Timed)
    requires FlightsOk(s, h) && Enabled(s, e) && e.step.ReadStore?
    ensures FlightsOk(Do(cap, s, e), Counted(h))
  {
    var s1, t, pc := s.(now := e.time), e.step.tid, PcOf(s.pcs, e.step.tid);
    match e.step.read
    case ReadOk =>
      var r := Hit(s.store[pc.key], pc.meta, pc.at);
      GotoFlights(s1, h, t, if pc.lead then Returning(pc.key, r) else Done(pc.key, r));
    case ReadError => GotoFlights(s1, h, t, Dropping(pc.key, pc.lead));
    case BodyError => GotoFlights(s1, h, t, Returning(pc.key, Failed));
  }

  lemma JoinFlights(s: State, h: Trace, t: nat, key: string)
    requires FlightsOk(s, h) && PcOf(s.pcs, t) == Entering(key)
    ensures key in s.group ==> FlightsOk(Goto(s, t, Waiting(key)), Counted(Board(h, t, key)))
    ensures key !in s.group ==>
      FlightsOk(Goto(s.(group := s.group[key := t]), t, Checking(key, true)), Counted(Launch(h, t, key)))
  {
    if key in s.group {
      BoardOk(s.pcs, s.group, h, Goto(s, t, Waiting(key)).pcs, t, key);
      RunningStays(s.group, h, Counted(Board(h, t, key)));
    } else {
      LaunchOk(s.pcs, s.group, h, Goto(s, t, Checking(key, true)).pcs, t, key);
    }
  }

  lemma EndFetchFlights(s: State, h: Trace, t: nat, key: string, response: FetchOutcome)
    requires GroupOk(s.group, s.pcs) && FlightsOk(s, h) && PcOf(s.pcs, t) == Fetching(key)
    ensures FlightsOk(DoEndFetch(s, t, key, response),
      Counted(if response.Unavailable? then h
              else Bring(h, key, Obj(response.body, Meta(key, s.now, response.ttl, |response.body|, response.headers)))))
  {
    match response
    case Unavailable => GotoFlights(s.(log := s.log + multiset{FetchFailed(key)}), h, t, Returning(key, Failed));
    case Response(body, ttl, headers) =>
      var obj := Obj(body, Meta(key, s.now, ttl, |body|, headers));
      BringOk(s.pcs, s.group, h, DoEndFetch(s, t, key, response).pcs, t, key, obj);
  }

  lemma WriteFlights(s: State, h: Trace, t: nat, key: string, obj: Obj, write: WriteResult)
    requires FlightsOk(s, h) && PcOf(s.pcs, t) == Writing(key, obj)
    ensures FlightsOk(DoWrite(s, t, key, obj, write), Counted(h))
  {
    var s' := s.(store := AfterWrite(s.store, key, obj, write));
    if write.Written? {
      GotoFlights(s'.(lost := s.lost - {key}), h, t, Inserting(key, obj));
    } else {
      GotoFlights(s'.(log := s.log + multiset{SetFailed(key)}), h, t, Returning(key, Fetched(obj)));
    }
  }

  lemma InsertFlights(cap: int, s: State, h: Trace, t: nat, key: string, obj: Obj, evictOk: bool)
    requires FlightsOk(s, h) && PcOf(s.pcs, t) == Inserting(key, obj)
    ensures FlightsOk(DoInsert(cap, s, t, key, obj, evictOk), Counted(h))
  {
    GoesOn(s.pcs, h, DoInsert(cap, s, t, key, obj, evictOk).pcs, t, Returning(key, Fetched(obj)));
    RunningStays(s.group, h, Counted(h));
  }

  lemma FinishFlights(s: State, h: Trace, t: nat, key: string, r: Result)
    requires GroupOk(s.group, s.pcs) && FlightsOk(s, h) && PcOf(s.pcs, t) == Returning(key, r)
    ensures FlightsOk(DoFinish(s, t, key, r), Counted(Land(h, key, r)))
  {
    FinishMoves(s, t, key, r);
    LandOk(s.pcs, s.group, h, DoFinish(s, t, key, r).pcs, t, key, r);
  }

  lemma EnterFlights(s: State, h: Trace, t: nat, pc: Pc)
    requires FlightsOk(s, h) && (pc.Deleting? || (pc.Checking? && !pc.lead))
    ensures FlightsOk(Goto(s, t, pc), Counted(Leave(h, t)))
  {
    LeaveOk(s.pcs, h, Goto(s, t, pc).pcs, t, pc);
    RunningStays(s.group, h, Counted(Leave(h, t)));
  }

  predicate StartsOrEnds(st: Step) {
    st.Begin? || st.Join? || st.EndFetch? || st.Finish? || st.BeginDelete?
  }

  lemma InnerStep(cap: int, s: State, h: Trace, e: Timed)
    requires FlightsOk(s, h) && Enabled(s, e) && !StartsOrEnds(e.step)
    ensures FlightsOk(Do(cap, s, e), Counted(h))
  {
    var s1, t, pc := s.(now := e.time), e.step.tid, PcOf(s.pcs, e.step.tid);
    match e.step
    case CheckIndex(_) => CheckFlights(s1, h, t, pc.key, pc.lead);
    case ReadStore(_, _) => ReadFlights(cap, s, h, e);
    case DropEntry(_) => MissedFlights(RemoveEntry(s1, pc.key), h, t, pc.key, pc.lead);
    case WriteStore(_, write) => WriteFlights(s1, h, t, pc.key, pc.obj, write);
    case InsertEntry(_, evictOk) => InsertFlights(cap, s1, h, t, pc.key, pc.obj, evictOk);
    case DropForDelete(_) => GotoFlights(RemoveEntry(s1, pc.key), h, t, Erasing(pc.key));
    case EraseStore(_, ok) =>
      GotoFlights(if ok then s1.(store := s1.store - {pc.key}, lost := s1.lost + {pc.key}) else s1, h, t, Idle);
  }

  lemma StepFlights(cap: int, s: State, h: Trace, e: Timed)
    requires GroupOk(s.group, s.pcs) && FlightsOk(s, h) && Enabled(s, e)
    ensures FlightsOk(Do(cap, s, e), Record(h, s, e))
  {
    var s1, t, pc := s.(now := e.time), e.step.tid, PcOf(s.pcs, e.step.tid);
    match e.step
    case Begin(_, key) => EnterFlights(s1, h, t, Checking(key, false));
    case Join(_) => JoinFlights(s1, h, t, pc.key);
    case EndFetch(_, response) => EndFetchFlights(s1, h, t, pc.key, response);
    case Finish(_) => FinishFlights(s1, h, t, pc.key, pc.result);
    case BeginDelete(_, key) => EnterFlights(s1, h, t, Deleting(key));
    case _ => InnerStep(cap, s, h, e);
  }

  lemma {:induction false} RunFlights(cap: int, s: State, h: Trace, run: seq<Timed>)
    requires Inv(cap, s) && FlightsOk(s, h) && ValidRun(cap, s, run)
    ensures Inv(cap, Run(cap, s, run)) && FlightsOk(Run(cap, s, run), TraceOf(cap, s, h, run))
    decreases |run|
  {
    if run != [] {
      StepInv(cap, s, run[0]);
      StepFlights(cap, s, h, run[0]);
      RunFlights(cap, Do(cap, s, run[0]), Record(h, s, run[0]), run[1..]);
    }
  }

  // ---- the theorem ----

  /** In every run, a request that has led or joined a flight gets the result of that flight and of no other: it
      joined after the flight began and before it ended, and if it gets a fetched object, that flight fetched it.
      Until the flight ends, the request is the flight's leader or one of its waiters. A request that is done
      without a flight has a hit of its own. */
  lemma FlightIsShared(cap: int, s0: State, run: seq<Timed>, t: nat)
    requires Init(s0) && ValidRun(cap, s0, run)
    ensures var s, h := Run(cap, s0, run), TraceOf(cap, s0, START, run);
      var pc := PcOf(s.pcs, t);
      if t in h.joined then
        var m := h.joined[t];
        && m.flight < |h.flights| && h.flights[m.flight].began <= m.at
        && var f := h.flights[m.flight];
        match f.ended
        case Some(end) =>
          m.at < end.at && pc == Done(f.key, end.result) && (end.result.Fetched? ==> f.brought == Some(end.result.obj))
        case None => (Leading(pc) || pc.Waiting?) && pc.key == f.key && f.key in s.group && (Leading(pc) <==> s.group[f.key] == t)
      else !Leading(pc) && !pc.Waiting? && (pc.Done? ==> pc.result.Hit?)
  {
    InitInv(cap, s0);
    assert forall u :: PcOf(s0.pcs, u) == Idle;
    RunFlights(cap, s0, START, run);
    var s, h := Run(cap, s0, run), TraceOf(cap, s0, START, run);
    assert MemberOk(h, t, PcOf(s.pcs, t));
    assert GroupOk(s.group, s.pcs);
  }
}
