/** What every interleaving keeps. */
module ProtocolSafety {
  import opened Objects
  import opened LruIndex
  import opened Protocol
  import LruCache

  /** The thread runs the flight of its key. */
  predicate Leading(pc: Pc) {
    match pc
    case Checking(_, lead) => lead
    case Reading(_, lead, _, _) => lead
    case Dropping(_, lead) => lead
    case Fetching(_) => true
    case Writing(_, _) => true
    case Inserting(_, _) => true
    case Returning(_, _) => true
    case _ => false
  }

  /** Between the failed double-check and the index insert. */
  predicate InWindow(pc: Pc) {
    pc.Fetching? || pc.Writing? || pc.Inserting?
  }

  /** The group and the threads agree on who leads which flight. */
  ghost predicate GroupOk(group: map<string, nat>, pcs: map<nat, Pc>) {
    && (forall t :: Leading(PcOf(pcs, t)) ==> PcOf(pcs, t).key in group && group[PcOf(pcs, t).key] == t)
    && (forall k :: k in group ==> Leading(PcOf(pcs, group[k])) && PcOf(pcs, group[k]).key == k)
    && (forall t :: PcOf(pcs, t).Waiting? ==> PcOf(pcs, t).key in group)
  }

  ghost predicate WindowOk(index: Index, pcs: map<nat, Pc>) {
    forall t :: InWindow(PcOf(pcs, t)) ==> !Has(index, PcOf(pcs, t).key)
  }

  /** The flight of `key` is between its failed double-check and its index insert. */
  predicate FlightOpen(group: map<string, nat>, pcs: map<nat, Pc>, key: string) {
    key in group && InWindow(PcOf(pcs, group[key]))
  }

  function One(b: bool): nat {
    if b then 1 else 0
  }

  /** Conservation: every fetch started for a key is accounted for by a failure, by a removal of the entry
      it made, by that entry, or by the flight still on its way to make it. */
  predicate Balanced(log: multiset<Event>, key: string, indexed: bool, open: bool) {
    log[Started(key)] ==
      log[FetchFailed(key)] + log[SetFailed(key)] + log[Removed(key)] + One(indexed) + One(open)
  }

  ghost predicate LogOk(index: Index, group: map<string, nat>, pcs: map<nat, Pc>, log: multiset<Event>) {
    forall k :: Balanced(log, k, Has(index, k), FlightOpen(group, pcs, k))
  }

  ghost predicate ShapeOf(cap: int, index: Index, group: map<string, nat>, pcs: map<nat, Pc>, log: multiset<Event>) {
    Bounded(index, cap) && GroupOk(group, pcs) && WindowOk(index, pcs) && LogOk(index, group, pcs, log)
  }

  ghost predicate Shape(cap: int, s: State) {
    ShapeOf(cap, s.index, s.group, s.pcs, s.log)
  }

  // ---- preservation of Shape ----

  /** Dropping an entry keeps everything, and opens no window. */
  lemma RemoveEntryShape(cap: int, s: State, key: string)
    requires Shape(cap, s)
    ensures Shape(cap, RemoveEntry(s, key)) && !Has(RemoveEntry(s, key).index, key)
  {
    RemoveDistinct(s.index, key);
    RemoveLength(s.index, key);
    HasRemove(s.index, key);
  }

  /** A thread changes place without taking up or giving up a flight. */
  lemma GroupKept(group: map<string, nat>, pcs: map<nat, Pc>, t: nat, pc: Pc)
    requires GroupOk(group, pcs)
    requires Leading(pc) == Leading(PcOf(pcs, t)) && (Leading(pc) ==> pc.key == PcOf(pcs, t).key)
    requires pc.Waiting? ==> pc.key in group
    ensures GroupOk(group, pcs[t := pc])
  {
    var pcs' := pcs[t := pc];
    assert forall u :: PcOf(pcs', u) == if u == t then pc else PcOf(pcs, u);
    forall k | k in group ensures Leading(PcOf(pcs', group[k])) && PcOf(pcs', group[k]).key == k {
      assert Leading(PcOf(pcs, group[k])) && PcOf(pcs, group[k]).key == k;
    }
  }

  /** A thread moves without starting, leaving, opening or closing a flight. */
  lemma GotoShape(cap: int, s: State, t: nat, pc: Pc)
    requires Shape(cap, s)
    requires Leading(pc) == Leading(PcOf(s.pcs, t)) && (Leading(pc) ==> pc.key == PcOf(s.pcs, t).key)
    requires InWindow(pc) == InWindow(PcOf(s.pcs, t))
    requires pc.Waiting? ==> pc.key in s.group
    ensures Shape(cap, Goto(s, t, pc))
  {
    var s' := Goto(s, t, pc);
    GroupKept(s.group, s.pcs, t, pc);
    assert forall u :: PcOf(s'.pcs, u) == if u == t then pc else PcOf(s.pcs, u);
    forall k ensures FlightOpen(s'.group, s'.pcs, k) == FlightOpen(s.group, s.pcs, k) {
    }
  }

  /** A leader's flight is open exactly when the leader is inside its window. */
  lemma OpenByLeader(group: map<string, nat>, pcs: map<nat, Pc>, t: nat, pc: Pc, k: string)
    requires GroupOk(group, pcs) && Leading(PcOf(pcs, t)) && Leading(pc) && pc.key == PcOf(pcs, t).key
    ensures FlightOpen(group, pcs[t := pc], k) == if k == pc.key then InWindow(pc) else FlightOpen(group, pcs, k)
    ensures FlightOpen(group, pcs, pc.key) == InWindow(PcOf(pcs, t))
  {
    assert group[pc.key] == t;
    assert k in group ==> Leading(PcOf(pcs, group[k])) && PcOf(pcs, group[k]).key == k;
  }

  /** The double-check has missed: the fetch starts and the window opens. */
  lemma OpenShape(cap: int, s: State, t: nat, key: string)
    requires Shape(cap, s) && Leading(PcOf(s.pcs, t)) && !InWindow(PcOf(s.pcs, t))
    requires PcOf(s.pcs, t).key == key && !Has(s.index, key)
    ensures Shape(cap, Goto(s.(log := s.log + multiset{Started(key)}), t, Fetching(key)))
  {
    var s' := Goto(s.(log := s.log + multiset{Started(key)}), t, Fetching(key));
    GroupKept(s.group, s.pcs, t, Fetching(key));
    assert forall u :: PcOf(s'.pcs, u) == if u == t then Fetching(key) else PcOf(s.pcs, u);
    forall k ensures Balanced(s'.log, k, Has(s'.index, k), FlightOpen(s'.group, s'.pcs, k)) {
      OpenByLeader(s.group, s.pcs, t, Fetching(key), k);
      assert Balanced(s.log, k, Has(s.index, k), FlightOpen(s.group, s.pcs, k));
    }
  }

  lemma WindowKept(index: Index, pcs: map<nat, Pc>, t: nat, pc: Pc)
    requires WindowOk(index, pcs) && (InWindow(pc) ==> !Has(index, pc.key))
    ensures WindowOk(index, pcs[t := pc])
  {
    var pcs' := pcs[t := pc];
    assert forall u :: PcOf(pcs', u) == if u == t then pc else PcOf(pcs, u);
  }

  lemma FailLog(index: Index, group: map<string, nat>, pcs: map<nat, Pc>, log: multiset<Event>, t: nat, ev: Event, pc: Pc)
    requires GroupOk(group, pcs) && LogOk(index, group, pcs, log) && InWindow(PcOf(pcs, t))
    requires pc.Returning? && pc.key == PcOf(pcs, t).key && (ev == FetchFailed(pc.key) || ev == SetFailed(pc.key))
    ensures LogOk(index, group, pcs[t := pc], log + multiset{ev})
  {
    forall k ensures Balanced(log + multiset{ev}, k, Has(index, k), FlightOpen(group, pcs[t := pc], k)) {
      OpenByLeader(group, pcs, t, pc, k);
      assert Balanced(log, k, Has(index, k), FlightOpen(group, pcs, k));
    }
  }

  /** The fetch or the write has failed: the window closes without an entry. */
  lemma FailShape(cap: int, s: State, t: nat, key: string, ev: Event, r: Result)
    requires Shape(cap, s) && InWindow(PcOf(s.pcs, t)) && PcOf(s.pcs, t).key == key
    requires ev == FetchFailed(key) || ev == SetFailed(key)
    ensures Shape(cap, Goto(s.(log := s.log + multiset{ev}), t, Returning(key, r)))
  {
    GroupKept(s.group, s.pcs, t, Returning(key, r));
    FailLog(s.index, s.group, s.pcs, s.log, t, ev, Returning(key, r));
    WindowKept(s.index, s.pcs, t, Returning(key, r));
  }

  lemma MissedShape(cap: int, s: State, t: nat, key: string, lead: bool)
    requires Shape(cap, s) && !Has(s.index, key)
    requires var pc := PcOf(s.pcs, t); pc == Checking(key, lead) || pc == Dropping(key, lead)
    ensures Shape(cap, Missed(s, t, key, lead))
  {
    if lead {
      OpenShape(cap, s, t, key);
    } else {
      GotoShape(cap, s, t, Entering(key));
    }
  }

  lemma CheckShape(cap: int, s: State, t: nat, key: string, lead: bool)
    requires Shape(cap, s) && PcOf(s.pcs, t) == Checking(key, lead)
    ensures Shape(cap, DoCheck(s, t, key, lead))
  {
    match Check(s.index, key, s.now)
    case Fresh(index, meta) =>
      CheckFacts(s.index, key, s.now);
      HasTouch(s.index, key);
      GotoShape(cap, s.(index := index), t, Reading(key, lead, meta, s.now));
    case Miss(_) =>
      RemoveEntryShape(cap, s, key);
      MissedShape(cap, RemoveEntry(s, key), t, key, lead);
  }

  lemma JoinGroup(group: map<string, nat>, pcs: map<nat, Pc>, t: nat, key: string)
    requires GroupOk(group, pcs) && PcOf(pcs, t) == Entering(key) && key !in group
    ensures GroupOk(group[key := t], pcs[t := Checking(key, true)])
    ensures forall k :: FlightOpen(group[key := t], pcs[t := Checking(key, true)], k) == FlightOpen(group, pcs, k)
  {
    var group', pcs' := group[key := t], pcs[t := Checking(key, true)];
    assert forall u :: PcOf(pcs', u) == if u == t then Checking(key, true) else PcOf(pcs, u);
    forall k | k in group' ensures Leading(PcOf(pcs', group'[k])) && PcOf(pcs', group'[k]).key == k {
      assert k != key ==> Leading(PcOf(pcs, group[k]));
    }
  }

  lemma JoinShape(cap: int, s: State, t: nat, key: string)
    requires Shape(cap, s) && PcOf(s.pcs, t) == Entering(key) && key !in s.group
    ensures Shape(cap, Goto(s.(group := s.group[key := t]), t, Checking(key, true)))
  {
    JoinGroup(s.group, s.pcs, t, key);
    WindowKept(s.index, s.pcs, t, Checking(key, true));
    forall k ensures Balanced(s.log, k, Has(s.index, k), FlightOpen(s.group[key := t], s.pcs[t := Checking(key, true)], k)) {
      assert Balanced(s.log, k, Has(s.index, k), FlightOpen(s.group, s.pcs, k));
    }
  }

  lemma CountRemovals(log: multiset<Event>, out: set<string>, k: string)
    ensures var log' := log + multiset(set k | k in out :: Removed(k));
      && log'[Removed(k)] == log[Removed(k)] + One(k in out)
      && log'[Started(k)] == log[Started(k)]
      && log'[FetchFailed(k)] == log[FetchFailed(k)] && log'[SetFailed(k)] == log[SetFailed(k)]
  {
    var gone := set k | k in out :: Removed(k);
    assert Removed(k) in gone <==> k in out;
  }

  /** The index insert: the window closes, the entry is there, and every evicted entry is counted. */
  lemma InsertShape(cap: int, s: State, t: nat, key: string, obj: Obj, evictOk: bool)
    requires Shape(cap, s) && PcOf(s.pcs, t) == Inserting(key, obj) && obj.meta.key == key
    ensures Shape(cap, DoInsert(cap, s, t, key, obj, evictOk))
  {
    var s', r := DoInsert(cap, s, t, key, obj, evictOk), Returning(key, Fetched(obj));
    assert Bounded(s'.index, cap) by {
      InsertFacts(s.index, obj.meta, cap);
    }
    GroupKept(s.group, s.pcs, t, r);
    assert forall u :: PcOf(s'.pcs, u) == if u == t then r else PcOf(s.pcs, u);
    InsertBalanced(cap, s, t, key, obj, s'.pcs);
    InsertKeepsWindows(cap, s, t, key, obj, s'.pcs);
  }

  lemma InsertBalanced(cap: int, s: State, t: nat, key: string, obj: Obj, pcs: map<nat, Pc>)
    requires Shape(cap, s) && PcOf(s.pcs, t) == Inserting(key, obj) && obj.meta.key == key
    requires forall u :: PcOf(pcs, u) == if u == t then Returning(key, Fetched(obj)) else PcOf(s.pcs, u)
    ensures var out := LruCache.Evicted(s.index, obj.meta, cap);
      LogOk(Insert(s.index, obj.meta, cap), s.group, pcs, s.log + multiset(set k | k in out :: Removed(k)))
  {
    var out := LruCache.Evicted(s.index, obj.meta, cap);
    var index, log := Insert(s.index, obj.meta, cap), s.log + multiset(set k | k in out :: Removed(k));
    LruCache.HasInsert(s.index, obj.meta, cap);
    forall k ensures Balanced(log, k, Has(index, k), FlightOpen(s.group, pcs, k)) {
      assert Balanced(s.log, k, Has(s.index, k), FlightOpen(s.group, s.pcs, k));
      CountRemovals(s.log, out, k);
      assert FlightOpen(s.group, pcs, k) == (FlightOpen(s.group, s.pcs, k) && k != key);
      assert FlightOpen(s.group, s.pcs, key);
    }
  }

  lemma InsertKeepsWindows(cap: int, s: State, t: nat, key: string, obj: Obj, pcs: map<nat, Pc>)
    requires Shape(cap, s) && PcOf(s.pcs, t) == Inserting(key, obj) && obj.meta.key == key
    requires forall u :: PcOf(pcs, u) == if u == t then Returning(key, Fetched(obj)) else PcOf(s.pcs, u)
    ensures WindowOk(Insert(s.index, obj.meta, cap), pcs)
  {
    LruCache.HasInsert(s.index, obj.meta, cap);
    forall u | InWindow(PcOf(pcs, u)) ensures !Has(Insert(s.index, obj.meta, cap), PcOf(pcs, u).key) {
      OneLeader(s, t, u);
      assert !Has(s.index, PcOf(s.pcs, u).key);
    }
  }

  lemma OneLeader(s: State, t: nat, u: nat)
    requires GroupOk(s.group, s.pcs) && Leading(PcOf(s.pcs, t)) && Leading(PcOf(s.pcs, u))
    ensures PcOf(s.pcs, t).key == PcOf(s.pcs, u).key ==> t == u
  {
  }

  lemma FinishShape(cap: int, s: State, t: nat, key: string, r: Result)
    requires Shape(cap, s) && PcOf(s.pcs, t) == Returning(key, r)
    ensures Shape(cap, DoFinish(s, t, key, r))
  {
    var s' := DoFinish(s, t, key, r);
    FinishMoves(s, t, key, r);
    FinishGroup(s, t, key, r);
    forall k ensures FlightOpen(s'.group, s'.pcs, k) == FlightOpen(s.group, s.pcs, k) {
    }
    forall u | InWindow(PcOf(s'.pcs, u)) ensures !Has(s.index, PcOf(s'.pcs, u).key) {
      assert InWindow(PcOf(s.pcs, u));
    }
  }

  /** The leader and its waiters are done; nobody else moves. */
  lemma FinishMoves(s: State, t: nat, key: string, r: Result)
    requires PcOf(s.pcs, t) == Returning(key, r)
    ensures var pcs := DoFinish(s, t, key, r).pcs;
      forall u :: PcOf(pcs, u) == if u == t || PcOf(s.pcs, u) == Waiting(key) then Done(key, r) else PcOf(s.pcs, u)
  {
  }

  lemma FinishGroup(s: State, t: nat, key: string, r: Result)
    requires GroupOk(s.group, s.pcs) && PcOf(s.pcs, t) == Returning(key, r)
    ensures GroupOk(s.group - {key}, DoFinish(s, t, key, r).pcs)
  {
    var group, pcs := s.group - {key}, DoFinish(s, t, key, r).pcs;
    FinishMoves(s, t, key, r);
    forall u | Leading(PcOf(pcs, u)) ensures PcOf(pcs, u).key in group && group[PcOf(pcs, u).key] == u {
      OneLeader(s, t, u);
    }
    forall k | k in group ensures Leading(PcOf(pcs, group[k])) && PcOf(pcs, group[k]).key == k {
      assert Leading(PcOf(s.pcs, s.group[k]));
    }
    forall u | PcOf(pcs, u).Waiting? ensures PcOf(pcs, u).key in group {
      assert PcOf(s.pcs, u).Waiting?;
    }
  }

  lemma ReadShape(cap: int, s: State, t: nat, key: string, lead: bool, read: ReadOutcome)
    requires Shape(cap, s) && PcOf(s.pcs, t).Reading? && PcOf(s.pcs, t).key == key && PcOf(s.pcs, t).lead == lead
    requires (read.ReadOk? ==> key in s.store) && (read.BodyError? ==> lead)
    ensures read.ReadOk? ==> forall r :: Shape(cap, Answered(s, t, key, lead, r))
    ensures read.ReadError? ==> Shape(cap, Goto(s, t, Dropping(key, lead)))
    ensures read.BodyError? ==> Shape(cap, Goto(s, t, Returning(key, Failed)))
  {
    match read
    case ReadOk =>
      forall r ensures Shape(cap, Answered(s, t, key, lead, r)) {
        GotoShape(cap, s, t, if lead then Returning(key, r) else Done(key, r));
      }
    case ReadError => GotoShape(cap, s, t, Dropping(key, lead));
    case BodyError => GotoShape(cap, s, t, Returning(key, Failed));
  }

  lemma EndFetchShape(cap: int, s: State, t: nat, key: string, response: FetchOutcome)
    requires Shape(cap, s) && PcOf(s.pcs, t) == Fetching(key)
    ensures Shape(cap, DoEndFetch(s, t, key, response))
  {
    match response
    case Unavailable => FailShape(cap, s, t, key, FetchFailed(key), Failed);
    case Response(body, ttl, headers) =>
      GotoShape(cap, s, t, Writing(key, Obj(body, Meta(key, s.now, ttl, |body|, headers))));
  }

  lemma WriteShape(cap: int, s: State, t: nat, key: string, obj: Obj, write: WriteResult)
    requires Shape(cap, s) && PcOf(s.pcs, t) == Writing(key, obj)
    ensures Shape(cap, DoWrite(s, t, key, obj, write))
  {
    if write.Written? {
      GotoShape(cap, s, t, Inserting(key, obj));
    } else {
      FailShape(cap, s, t, key, SetFailed(key), Fetched(obj));
    }
  }

  // ---- provenance and agreement with the backend ----

  /** Metadata that some fetch for `key` produced. */
  ghost predicate Known(fetched: set<Obj>, key: string, meta: Meta) {
    meta.key == key && exists o :: o in fetched && o.meta == meta
  }

  ghost predicate Own(fetched: set<Obj>, key: string, obj: Obj) {
    obj in fetched && obj.meta.key == key
  }

  ghost predicate ResultOk(fetched: set<Obj>, key: string, r: Result) {
    match r
    case Failed => true
    case Hit(obj, meta, at) => Own(fetched, key, obj) && Known(fetched, key, meta) && !meta.Expired(at)
    case Fetched(obj) => Own(fetched, key, obj)
  }

  ghost predicate ThreadOk(fetched: set<Obj>, installed: map<string, Obj>, pc: Pc) {
    match pc
    case Reading(key, _, meta, at) => key in installed && Known(fetched, key, meta) && !meta.Expired(at)
    case Writing(key, obj) => Own(fetched, key, obj)
    case Inserting(key, obj) => Own(fetched, key, obj)
    case Returning(key, r) => ResultOk(fetched, key, r)
    case Done(key, r) => ResultOk(fetched, key, r)
    case _ => true
  }

  /** Whatever can be read under a key that was ever indexed was fetched for that key. */
  ghost predicate StoredOk(store: ObjectMap, fetched: set<Obj>, installed: map<string, Obj>) {
    forall k :: k in installed ==>
      Own(fetched, k, installed[k]) && (k in store ==> Own(fetched, k, store[k]))
  }

  ghost predicate Origin(s: State) {
    StoredOk(s.store, s.fetched, s.installed) &&
    forall t :: ThreadOk(s.fetched, s.installed, PcOf(s.pcs, t))
  }

  /** The stored object is `obj`, unless a Delete has taken it since it was written. */
  ghost predicate Placed(store: ObjectMap, lost: set<string>, key: string, obj: Obj) {
    if key in lost then key !in store else key in store && store[key] == obj
  }

  ghost predicate IndexPlaced(index: Index, installed: map<string, Obj>, store: ObjectMap, lost: set<string>) {
    forall m :: m in index ==>
      m.key in installed && installed[m.key].meta == m && Placed(store, lost, m.key, installed[m.key])
  }

  ghost predicate FlightPlaced(pcs: map<nat, Pc>, store: ObjectMap, lost: set<string>) {
    forall t :: PcOf(pcs, t).Inserting? ==> Placed(store, lost, PcOf(pcs, t).key, PcOf(pcs, t).obj)
  }

  ghost predicate Coherent(s: State) {
    IndexPlaced(s.index, s.installed, s.store, s.lost) && FlightPlaced(s.pcs, s.store, s.lost)
  }

  ghost predicate Inv(cap: int, s: State) {
    Shape(cap, s) && Origin(s) && Coherent(s)
  }

  lemma InitInv(cap: int, s: State)
    requires Init(s)
    ensures Inv(cap, s)
  {
    assert forall t :: PcOf(s.pcs, t) == Idle;
  }

  /** A thread moves; everything fetched or indexed before stays so. */
  lemma GotoOrigin(s: State, t: nat, pc: Pc)
    requires Origin(s) && ThreadOk(s.fetched, s.installed, pc)
    ensures Origin(Goto(s, t, pc))
  {
    assert forall u :: PcOf(Goto(s, t, pc).pcs, u) == if u == t then pc else PcOf(s.pcs, u);
  }

  /** A thread moves to anywhere but the brink of its insert. */
  lemma GotoCoherent(s: State, t: nat, pc: Pc)
    requires Coherent(s)
    requires pc.Inserting? ==> Placed(s.store, s.lost, pc.key, pc.obj)
    ensures Coherent(Goto(s, t, pc))
  {
    assert forall u :: PcOf(Goto(s, t, pc).pcs, u) == if u == t then pc else PcOf(s.pcs, u);
  }

  lemma RemoveEntryInv(cap: int, s: State, key: string)
    requires Inv(cap, s)
    ensures Inv(cap, RemoveEntry(s, key))
  {
    RemoveEntryShape(cap, s, key);
    RemoveMembers(s.index, key);
  }

  lemma MissedInv(cap: int, s: State, t: nat, key: string, lead: bool)
    requires Inv(cap, s) && !Has(s.index, key)
    requires var pc := PcOf(s.pcs, t); pc == Checking(key, lead) || pc == Dropping(key, lead)
    ensures Inv(cap, Missed(s, t, key, lead))
  {
    MissedShape(cap, s, t, key, lead);
    var s1 := if lead then s.(log := s.log + multiset{Started(key)}) else s;
    var pc := if lead then Fetching(key) else Entering(key);
    GotoOrigin(s1, t, pc);
    GotoCoherent(s1, t, pc);
  }

  lemma CheckInv(cap: int, s: State, t: nat, key: string, lead: bool)
    requires Inv(cap, s) && PcOf(s.pcs, t) == Checking(key, lead)
    ensures Inv(cap, DoCheck(s, t, key, lead))
  {
    CheckShape(cap, s, t, key, lead);
    CheckFacts(s.index, key, s.now);
    match Check(s.index, key, s.now)
    case Fresh(index, meta) =>
      var s1 := s.(index := index);
      GotoOrigin(s1, t, Reading(key, lead, meta, s.now));
      GotoCoherent(s1, t, Reading(key, lead, meta, s.now));
    case Miss(_) =>
      RemoveEntryShape(cap, s, key);
      RemoveEntryInv(cap, s, key);
      MissedInv(cap, RemoveEntry(s, key), t, key, lead);
  }

  lemma ReadInv(cap: int, s: State, e: Timed)
    requires Inv(cap, s) && Enabled(s, e) && e.step.ReadStore?
    ensures Inv(cap, Do(cap, s, e))
  {
    var s1, t, pc := s.(now := e.time), e.step.tid, PcOf(s.pcs, e.step.tid);
    ReadShape(cap, s1, t, pc.key, pc.lead, e.step.read);
    assert ThreadOk(s.fetched, s.installed, pc);
    var pc' := match e.step.read
      case ReadOk =>
        var r := Hit(s.store[pc.key], pc.meta, pc.at);
        if pc.lead then Returning(pc.key, r) else Done(pc.key, r)
      case ReadError => Dropping(pc.key, pc.lead)
      case BodyError => Returning(pc.key, Failed);
    GotoOrigin(s1, t, pc');
    GotoCoherent(s1, t, pc');
  }

  lemma EndFetchInv(cap: int, s: State, t: nat, key: string, response: FetchOutcome)
    requires Inv(cap, s) && PcOf(s.pcs, t) == Fetching(key)
    ensures Inv(cap, DoEndFetch(s, t, key, response))
  {
    EndFetchShape(cap, s, t, key, response);
    match response
    case Unavailable =>
      var s1 := s.(log := s.log + multiset{FetchFailed(key)});
      GotoOrigin(s1, t, Returning(key, Failed));
      GotoCoherent(s1, t, Returning(key, Failed));
    case Response(body, ttl, headers) =>
      var obj := Obj(body, Meta(key, s.now, ttl, |body|, headers));
      var s1 := s.(fetched := s.fetched + {obj});
      FetchedGrows(s, obj);
      GotoOrigin(s1, t, Writing(key, obj));
      GotoCoherent(s1, t, Writing(key, obj));
  }

  lemma FetchedGrows(s: State, obj: Obj)
    requires Origin(s)
    ensures Origin(s.(fetched := s.fetched + {obj}))
  {
    var f := s.fetched + {obj};
    forall t ensures ThreadOk(f, s.installed, PcOf(s.pcs, t)) {
      assert ThreadOk(s.fetched, s.installed, PcOf(s.pcs, t));
    }
  }

  lemma WriteInv(cap: int, s: State, t: nat, key: string, obj: Obj, write: WriteResult)
    requires Inv(cap, s) && PcOf(s.pcs, t) == Writing(key, obj)
    ensures Inv(cap, DoWrite(s, t, key, obj, write))
  {
    WriteShape(cap, s, t, key, obj, write);
    assert ThreadOk(s.fetched, s.installed, PcOf(s.pcs, t));
    var s1 := s.(store := AfterWrite(s.store, key, obj, write),
                 lost := if write.Written? then s.lost - {key} else s.lost);
    WriteCoherent(s, s1, t, key);
    var pc := if write.Written? then Inserting(key, obj) else Returning(key, Fetched(obj));
    GotoOrigin(s1, t, pc);
    GotoCoherent(s1, t, pc);
  }

  /** A write inside a window touches no indexed key and no other flight's object. */
  lemma WriteCoherent(s: State, s1: State, t: nat, key: string)
    requires GroupOk(s.group, s.pcs) && WindowOk(s.index, s.pcs) && Coherent(s)
    requires PcOf(s.pcs, t).Writing? && PcOf(s.pcs, t).key == key
    requires s1.index == s.index && s1.installed == s.installed && s1.pcs == s.pcs
    requires forall k, obj :: k != key && Placed(s.store, s.lost, k, obj) ==> Placed(s1.store, s1.lost, k, obj)
    ensures Coherent(s1)
  {
    NotHas(s.index, key);
    forall u | PcOf(s.pcs, u).Inserting?
      ensures Placed(s1.store, s1.lost, PcOf(s.pcs, u).key, PcOf(s.pcs, u).obj)
    {
      OneLeader(s, t, u);
    }
  }

  lemma InsertInv(cap: int, s: State, t: nat, key: string, obj: Obj, evictOk: bool)
    requires Inv(cap, s) && PcOf(s.pcs, t) == Inserting(key, obj)
    ensures Inv(cap, DoInsert(cap, s, t, key, obj, evictOk))
  {
    assert ThreadOk(s.fetched, s.installed, PcOf(s.pcs, t));
    InsertShape(cap, s, t, key, obj, evictOk);
    var s' := DoInsert(cap, s, t, key, obj, evictOk);
    var s1 := s'.(pcs := s.pcs);
    assert StoredOk(s1.store, s1.fetched, s1.installed);
    forall u ensures ThreadOk(s1.fetched, s1.installed, PcOf(s1.pcs, u)) {
      assert ThreadOk(s.fetched, s.installed, PcOf(s.pcs, u));
    }
    GotoOrigin(s1, t, Returning(key, Fetched(obj)));
    InsertCoherent(cap, s, t, key, obj, evictOk);
  }

  /** Evictions delete only objects that are no longer indexed and that no other flight has written. */
  lemma InsertCoherent(cap: int, s: State, t: nat, key: string, obj: Obj, evictOk: bool)
    requires Shape(cap, s) && Coherent(s) && PcOf(s.pcs, t) == Inserting(key, obj) && obj.meta.key == key
    ensures Coherent(DoInsert(cap, s, t, key, obj, evictOk))
  {
    var s' := DoInsert(cap, s, t, key, obj, evictOk);
    var out := LruCache.Evicted(s.index, obj.meta, cap);
    InsertFacts(s.index, obj.meta, cap);
    LruCache.HasInsert(s.index, obj.meta, cap);
    forall m | m in s'.index
      ensures m.key in s'.installed && s'.installed[m.key].meta == m
      ensures Placed(s'.store, s'.lost, m.key, s'.installed[m.key])
    {
      LookupUnique(s'.index, m);
      assert m.key !in out;
    }
    forall u | PcOf(s'.pcs, u).Inserting?
      ensures Placed(s'.store, s'.lost, PcOf(s'.pcs, u).key, PcOf(s'.pcs, u).obj)
    {
      OneLeader(s, t, u);
      assert InWindow(PcOf(s.pcs, u)) && PcOf(s.pcs, u).key !in out;
    }
  }

  lemma FinishInv(cap: int, s: State, t: nat, key: string, r: Result)
    requires Inv(cap, s) && PcOf(s.pcs, t) == Returning(key, r)
    ensures Inv(cap, DoFinish(s, t, key, r))
  {
    FinishShape(cap, s, t, key, r);
    var s' := DoFinish(s, t, key, r);
    assert forall u ::
      PcOf(s'.pcs, u) == if u == t || PcOf(s.pcs, u) == Waiting(key) then Done(key, r) else PcOf(s.pcs, u);
    assert ThreadOk(s.fetched, s.installed, PcOf(s.pcs, t));
  }

  lemma EraseInv(cap: int, s: State, t: nat, key: string, ok: bool)
    requires Inv(cap, s) && PcOf(s.pcs, t) == Erasing(key)
    ensures Inv(cap, Goto(if ok then s.(store := s.store - {key}, lost := s.lost + {key}) else s, t, Idle))
  {
    GotoShape(cap, s, t, Idle);
    var s1 := if ok then s.(store := s.store - {key}, lost := s.lost + {key}) else s;
    GotoOrigin(s1, t, Idle);
    GotoCoherent(s1, t, Idle);
  }

  lemma StepInv(cap: int, s: State, e: Timed)
    requires Inv(cap, s) && Enabled(s, e)
    ensures Inv(cap, Do(cap, s, e))
  {
    var s1, t, pc := s.(now := e.time), e.step.tid, PcOf(s.pcs, e.step.tid);
    match e.step
    case Begin(_, key) => MoveInv(cap, s1, t, Checking(key, false));
    case CheckIndex(_) => CheckInv(cap, s1, t, pc.key, pc.lead);
    case ReadStore(_, _) => ReadInv(cap, s, e);
    case DropEntry(_) =>
      RemoveEntryShape(cap, s1, pc.key);
      RemoveEntryInv(cap, s1, pc.key);
      MissedInv(cap, RemoveEntry(s1, pc.key), t, pc.key, pc.lead);
    case Join(_) =>
      if pc.key in s.group {
        MoveInv(cap, s1, t, Waiting(pc.key));
      } else {
        var s2 := s1.(group := s1.group[pc.key := t]);
        JoinShape(cap, s1, t, pc.key);
        GotoOrigin(s2, t, Checking(pc.key, true));
        GotoCoherent(s2, t, Checking(pc.key, true));
      }
    case EndFetch(_, response) => EndFetchInv(cap, s1, t, pc.key, response);
    case WriteStore(_, write) => WriteInv(cap, s1, t, pc.key, pc.obj, write);
    case InsertEntry(_, evictOk) => InsertInv(cap, s1, t, pc.key, pc.obj, evictOk);
    case Finish(_) => FinishInv(cap, s1, t, pc.key, pc.result);
    case BeginDelete(_, key) => MoveInv(cap, s1, t, Deleting(key));
    case DropForDelete(_) =>
      RemoveEntryInv(cap, s1, pc.key);
      MoveInv(cap, RemoveEntry(s1, pc.key), t, Erasing(pc.key));
    case EraseStore(_, ok) => EraseInv(cap, s1, t, pc.key, ok);
  }

  /** A thread moves outside any flight. */
  lemma MoveInv(cap: int, s: State, t: nat, pc: Pc)
    requires Inv(cap, s) && !Leading(PcOf(s.pcs, t)) && !Leading(pc)
    requires pc.Checking? || pc.Waiting? || pc.Deleting? || pc.Erasing?
    requires pc.Waiting? ==> pc.key in s.group
    ensures Inv(cap, Goto(s, t, pc))
  {
    GotoShape(cap, s, t, pc);
    GotoOrigin(s, t, pc);
    GotoCoherent(s, t, pc);
  }

  lemma {:induction false} RunInv(cap: int, s: State, run: seq<Timed>)
    requires Inv(cap, s) && ValidRun(cap, s, run)
    ensures Inv(cap, Run(cap, s, run))
    decreases |run|
  {
    if run != [] {
      StepInv(cap, s, run[0]);
      RunInv(cap, Do(cap, s, run[0]), run[1..]);
    }
  }
}
