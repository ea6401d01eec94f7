/** The concurrent cache: any number of GetOrFetch and Delete calls over one LRUCache, one backend
    and one singleflight group. Every locked section and every storage call is one atomic step. */
module Protocol {
  import opened Objects
  import opened LruIndex
  import LruCache

  /** What a request gets: an error, a cache hit (the object read, the indexed metadata, and the time of
      the index check), or the object fetched by the flight it took part in. */
  datatype Result = Failed | Hit(obj: Obj, meta: Meta, at: int) | Fetched(obj: Obj)

  /** Where a thread is. `lead` tells the double-check inside a flight from the fast path. */
  datatype Pc =
    | Idle
    | Checking(key: string, lead: bool)
    | Reading(key: string, lead: bool, meta: Meta, at: int)
    | Dropping(key: string, lead: bool)
    | Entering(key: string)
    | Waiting(key: string)
    | Fetching(key: string)
    | Writing(key: string, obj: Obj)
    | Inserting(key: string, obj: Obj)
    | Returning(key: string, result: Result)
    | Done(key: string, result: Result)
    | Deleting(key: string)
    | Erasing(key: string)

  /** What the history counts, per key. */
  datatype Event =
    | Started(key: string)
    | FetchFailed(key: string)
    | SetFailed(key: string)
    | Removed(key: string)

  /** `group` maps a key to the thread that runs its flight. The last four fields are history: the object
      each key was last indexed with, every object fetched, the keys whose object a Delete has taken
      since it was written, and the counted events. */
  datatype State = State(
    now: int,
    index: Index,
    store: ObjectMap,
    group: map<string, nat>,
    pcs: map<nat, Pc>,
    installed: map<string, Obj>,
    fetched: set<Obj>,
    lost: set<string>,
    log: multiset<Event>)

  datatype ReadOutcome = ReadOk | ReadError | BodyError

  datatype FetchOutcome = Unavailable | Response(body: Bytes, ttl: int, headers: map<string, seq<string>>)

  datatype Step =
    | Begin(tid: nat, key: string)
    | CheckIndex(tid: nat)
    | ReadStore(tid: nat, read: ReadOutcome)
    | DropEntry(tid: nat)
    | Join(tid: nat)
    | EndFetch(tid: nat, response: FetchOutcome)
    | WriteStore(tid: nat, write: WriteResult)
    | InsertEntry(tid: nat, evictOk: bool)
    | Finish(tid: nat)
    | BeginDelete(tid: nat, key: string)
    | DropForDelete(tid: nat)
    | EraseStore(tid: nat, ok: bool)

  datatype Timed = At(time: int, step: Step)

  function PcOf(pcs: map<nat, Pc>, t: nat): Pc {
    if t in pcs then pcs[t] else Idle
  }

  predicate Enabled(s: State, e: Timed) {
    var pc := PcOf(s.pcs, e.step.tid);
    e.time >= s.now &&
    match e.step
    case Begin(_, _) => pc.Idle? || pc.Done?
    case CheckIndex(_) => pc.Checking?
    case ReadStore(_, read) =>
      pc.Reading? && (read.ReadOk? ==> pc.key in s.store) && (read.BodyError? ==> pc.lead && pc.key in s.store)
    case DropEntry(_) => pc.Dropping?
    case Join(_) => pc.Entering?
    case EndFetch(_, _) => pc.Fetching?
    case WriteStore(_, _) => pc.Writing?
    case InsertEntry(_, _) => pc.Inserting?
    case Finish(_) => pc.Returning?
    case BeginDelete(_, _) => pc.Idle? || pc.Done?
    case DropForDelete(_) => pc.Deleting?
    case EraseStore(_, _) => pc.Erasing?
  }

  function Goto(s: State, t: nat, pc: Pc): State {
    s.(pcs := s.pcs[t := pc])
  }

  /** removeLocked, when the key is indexed. */
  function RemoveEntry(s: State, key: string): State {
    if Has(s.index, key) then s.(index := Remove(s.index, key), log := s.log + multiset{Removed(key)}) else s
  }

  /** Get has missed: the fast path goes to the group, the double-check goes on to the origin. */
  function Missed(s: State, t: nat, key: string, lead: bool): State {
    if lead then Goto(s.(log := s.log + multiset{Started(key)}), t, Fetching(key)) else Goto(s, t, Entering(key))
  }

  function Answered(s: State, t: nat, key: string, lead: bool, r: Result): State {
    Goto(s, t, if lead then Returning(key, r) else Done(key, r))
  }

  function Do(cap: int, s0: State, e: Timed): State
    requires Enabled(s0, e)
  {
    var s := s0.(now := e.time);
    var t := e.step.tid;
    var pc := PcOf(s.pcs, t);
    match e.step
    case Begin(_, key) => Goto(s, t, Checking(key, false))
    case CheckIndex(_) => DoCheck(s, t, pc.key, pc.lead)
    case ReadStore(_, read) =>
      if read.ReadOk? then Answered(s, t, pc.key, pc.lead, Hit(s.store[pc.key], pc.meta, pc.at))
      else if read.ReadError? then Goto(s, t, Dropping(pc.key, pc.lead))
      else Goto(s, t, Returning(pc.key, Failed))
    case DropEntry(_) => Missed(RemoveEntry(s, pc.key), t, pc.key, pc.lead)
    case Join(_) =>
      if pc.key in s.group then Goto(s, t, Waiting(pc.key))
      else Goto(s.(group := s.group[pc.key := t]), t, Checking(pc.key, true))
    case EndFetch(_, response) => DoEndFetch(s, t, pc.key, response)
    case WriteStore(_, write) => DoWrite(s, t, pc.key, pc.obj, write)
    case InsertEntry(_, evictOk) => DoInsert(cap, s, t, pc.key, pc.obj, evictOk)
    case Finish(_) => DoFinish(s, t, pc.key, pc.result)
    case BeginDelete(_, key) => Goto(s, t, Deleting(key))
    case DropForDelete(_) => Goto(RemoveEntry(s, pc.key), t, Erasing(pc.key))
    case EraseStore(_, ok) =>
      Goto(if ok then s.(store := s.store - {pc.key}, lost := s.lost + {pc.key}) else s, t, Idle)
  }

  /** The locked check of Get: a fresh entry moves to the front, an expired one leaves the index. */
  function DoCheck(s: State, t: nat, key: string, lead: bool): State {
    match Check(s.index, key, s.now)
    case Fresh(index, meta) => Goto(s.(index := index), t, Reading(key, lead, meta, s.now))
    case Miss(_) => Missed(RemoveEntry(s, key), t, key, lead)
  }

  /** The origin answers, or fails; metadata is stamped with the key and the time of the answer. */
  function DoEndFetch(s: State, t: nat, key: string, response: FetchOutcome): State {
    match response
    case Unavailable => Goto(s.(log := s.log + multiset{FetchFailed(key)}), t, Returning(key, Failed))
    case Response(body, ttl, headers) =>
      var obj := Obj(body, Meta(key, s.now, ttl, |body|, headers));
      Goto(s.(fetched := s.fetched + {obj}), t, Writing(key, obj))
  }

  /** The unlocked half of Set. A failed write is ignored: the flight still returns the body. */
  function DoWrite(s: State, t: nat, key: string, obj: Obj, write: WriteResult): State {
    var s' := s.(store := AfterWrite(s.store, key, obj, write));
    if write.Written? then Goto(s'.(lost := s.lost - {key}), t, Inserting(key, obj))
    else Goto(s'.(log := s.log + multiset{SetFailed(key)}), t, Returning(key, Fetched(obj)))
  }

  /** The locked half of Set, with its evictions and their storage deletes. */
  function DoInsert(cap: int, s: State, t: nat, key: string, obj: Obj, evictOk: bool): State {
    var out := LruCache.Evicted(s.index, obj.meta, cap);
    Goto(s.(index := Insert(s.index, obj.meta, cap),
            store := s.store - (if evictOk then out else {}),
            installed := s.installed[key := obj],
            log := s.log + multiset(set k | k in out :: Removed(k))), t, Returning(key, Fetched(obj)))
  }

  /** The flight ends: the group forgets the key, and every waiter gets the leader's result. */
  function DoFinish(s: State, t: nat, key: string, r: Result): State {
    s.(group := s.group - {key},
       pcs := map u | u in s.pcs :: if u == t || s.pcs[u] == Waiting(key) then Done(key, r) else s.pcs[u])
  }

  lemma NowIsTime(cap: int, s: State, e: Timed)
    requires Enabled(s, e)
    ensures Do(cap, s, e).now == e.time
  {
  }

  // ---- runs ----

  /** A node that has just started: nothing indexed, no call in progress, any left-over objects. */
  predicate Init(s: State) {
    && s.index == [] && s.group == map[] && s.pcs == map[]
    && s.installed == map[] && s.fetched == {} && s.lost == {} && s.log == multiset{}
  }

  ghost predicate ValidRun(cap: int, s: State, run: seq<Timed>)
    decreases |run|
  {
    run == [] || (Enabled(s, run[0]) && ValidRun(cap, Do(cap, s, run[0]), run[1..]))
  }

  ghost function Run(cap: int, s: State, run: seq<Timed>): State
    requires ValidRun(cap, s, run)
    decreases |run|
  {
    if run == [] then s else Run(cap, Do(cap, s, run[0]), run[1..])
  }

  /** No two steps of the run read the same time. */
  ghost predicate StrictClock(now: int, run: seq<Timed>)
    decreases |run|
  {
    run == [] || (run[0].time > now && StrictClock(run[0].time, run[1..]))
  }
}
