/** Runs in which the plausible stronger claims fail. */
module ProtocolRaces {
  import opened Objects
  import opened LruIndex
  import opened Protocol

  lemma {:induction false} ThenStep(cap: int, s0: State, run: seq<Timed>, e: Timed)
    requires ValidRun(cap, s0, run) && Enabled(Run(cap, s0, run), e)
    ensures ValidRun(cap, s0, run + [e]) && Run(cap, s0, run + [e]) == Do(cap, Run(cap, s0, run), e)
    decreases |run|
  {
    if run == [] {
      assert run + [e] == [e];
    } else {
      ThenStep(cap, Do(cap, s0, run[0]), run[1..], e);
      assert (run + [e])[1..] == run[1..] + [e];
    }
  }

  lemma {:induction false} ThenLater(now: int, run: seq<Timed>, e: Timed)
    requires StrictClock(now, run) && e.time > (if run == [] then now else run[|run| - 1].time)
    ensures StrictClock(now, run + [e])
    decreases |run|
  {
    if run == [] {
      assert run + [e] == [e];
    } else {
      ThenLater(run[0].time, run[1..], e);
      assert (run + [e])[1..] == run[1..] + [e];
    }
  }

  /** A strictly timed run from a fresh start, and the state it ends in. */
  ghost predicate Reaches(cap: int, s0: State, run: seq<Timed>, s: State) {
    && Init(s0) && ValidRun(cap, s0, run) && StrictClock(s0.now, run) && Run(cap, s0, run) == s
    && s.now == if run == [] then s0.now else run[|run| - 1].time
  }

  lemma Go(cap: int, s0: State, run: seq<Timed>, s: State, st: Step, time: int) returns (run': seq<Timed>, s': State)
    requires Reaches(cap, s0, run, s) && Enabled(s, At(time, st)) && time > s.now
    ensures s' == Do(cap, s, At(time, st)) && Reaches(cap, s0, run', s')
    ensures run' == run + [At(time, st)]
  {
    ThenStep(cap, s0, run, At(time, st));
    ThenLater(s0.now, run, At(time, st));
    run', s' := run + [At(time, st)], Do(cap, s, At(time, st));
    NowIsTime(cap, s, At(time, st));
  }

  /** The parts of the state the runs below are about. */
  predicate Looks(s: State, now: int, index: Index, store: ObjectMap, group: map<string, nat>, pcs: map<nat, Pc>) {
    s.now == now && s.index == index && s.store == store && s.group == group && s.pcs == pcs
  }

  lemma GoBegin(cap: int, s0: State, run: seq<Timed>, s: State, t: nat, key: string, time: int)
    returns (run': seq<Timed>, s': State)
    requires Reaches(cap, s0, run, s) && (PcOf(s.pcs, t).Idle? || PcOf(s.pcs, t).Done?) && time > s.now
    ensures Reaches(cap, s0, run', s')
    ensures Looks(s', time, s.index, s.store, s.group, s.pcs[t := Checking(key, false)])
  {
    run', s' := Go(cap, s0, run, s, Begin(t, key), time);
  }

  /** With nothing indexed but an expired entry of the key, Get misses and leaves nothing indexed. */
  lemma GoMiss(cap: int, s0: State, run: seq<Timed>, s: State, t: nat, key: string, lead: bool, time: int)
    returns (run': seq<Timed>, s': State)
    requires Reaches(cap, s0, run, s) && PcOf(s.pcs, t) == Checking(key, lead) && time > s.now
    requires s.index == [] || (|s.index| == 1 && s.index[0].key == key && s.index[0].Expired(time))
    ensures Reaches(cap, s0, run', s')
    ensures Looks(s', time, [], s.store, s.group, s.pcs[t := if lead then Fetching(key) else Entering(key)])
  {
    run', s' := Go(cap, s0, run, s, CheckIndex(t), time);
    assert s' == DoCheck(s.(now := time), t, key, lead);
  }

  lemma GoLead(cap: int, s0: State, run: seq<Timed>, s: State, t: nat, key: string, time: int)
    returns (run': seq<Timed>, s': State)
    requires Reaches(cap, s0, run, s) && PcOf(s.pcs, t) == Entering(key) && key !in s.group && time > s.now
    ensures Reaches(cap, s0, run', s')
    ensures Looks(s', time, s.index, s.store, s.group[key := t], s.pcs[t := Checking(key, true)])
  {
    run', s' := Go(cap, s0, run, s, Join(t), time);
  }

  lemma GoResponse(cap: int, s0: State, run: seq<Timed>, s: State, t: nat, key: string, body: Bytes, ttl: int, time: int)
    returns (run': seq<Timed>, s': State)
    requires Reaches(cap, s0, run, s) && PcOf(s.pcs, t) == Fetching(key) && time > s.now
    ensures Reaches(cap, s0, run', s')
    ensures Looks(s', time, s.index, s.store, s.group, s.pcs[t := Writing(key, Answer(key, body, ttl, time))])
  {
    run', s' := Go(cap, s0, run, s, EndFetch(t, Response(body, ttl, map[])), time);
    assert s' == DoEndFetch(s.(now := time), t, key, Response(body, ttl, map[]));
  }

  function Answer(key: string, body: Bytes, ttl: int, time: int): Obj {
    Obj(body, Meta(key, time, ttl, |body|, map[]))
  }

  lemma GoWrite(cap: int, s0: State, run: seq<Timed>, s: State, t: nat, key: string, obj: Obj, time: int)
    returns (run': seq<Timed>, s': State)
    requires Reaches(cap, s0, run, s) && PcOf(s.pcs, t) == Writing(key, obj) && time > s.now
    ensures Reaches(cap, s0, run', s')
    ensures Looks(s', time, s.index, s.store[key := obj], s.group, s.pcs[t := Inserting(key, obj)])
  {
    run', s' := Go(cap, s0, run, s, WriteStore(t, Written), time);
    assert s' == DoWrite(s.(now := time), t, key, obj, Written);
  }

  lemma GoInsert(cap: int, s0: State, run: seq<Timed>, s: State, t: nat, key: string, obj: Obj, time: int)
    returns (run': seq<Timed>, s': State)
    requires Reaches(cap, s0, run, s) && PcOf(s.pcs, t) == Inserting(key, obj) && time > s.now
    requires cap > 0 && s.index == [] && obj.meta.key == key
    ensures Reaches(cap, s0, run', s')
    ensures Looks(s', time, [obj.meta], s.store, s.group, s.pcs[t := Returning(key, Fetched(obj))])
  {
    run', s' := Go(cap, s0, run, s, InsertEntry(t, true), time);
    assert s' == DoInsert(cap, s.(now := time), t, key, obj, true);
    assert s.store - {} == s.store;
  }

  lemma GoFinish(cap: int, s0: State, run: seq<Timed>, s: State, t: nat, key: string, r: Result, time: int)
    returns (run': seq<Timed>, s': State)
    requires Reaches(cap, s0, run, s) && PcOf(s.pcs, t) == Returning(key, r) && time > s.now
    requires forall u :: !PcOf(s.pcs, u).Waiting?
    ensures Reaches(cap, s0, run', s')
    ensures Looks(s', time, s.index, s.store, s.group - {key}, s.pcs[t := Done(key, r)])
  {
    run', s' := Go(cap, s0, run, s, Finish(t), time);
    assert s' == DoFinish(s.(now := time), t, key, r);
    assert forall u :: u in s.pcs ==> !PcOf(s.pcs, u).Waiting?;
  }

  /** One thread misses and takes the lead. */
  lemma MissAndLead(cap: int, s0: State, run: seq<Timed>, s: State, t: nat, key: string, time: int)
    returns (run': seq<Timed>, s': State)
    requires Reaches(cap, s0, run, s) && PcOf(s.pcs, t) == Idle && key !in s.group && time > s.now
    requires s.index == [] || (|s.index| == 1 && s.index[0].key == key && s.index[0].Expired(time + 1))
    ensures Reaches(cap, s0, run', s')
    ensures Looks(s', time + 2, [], s.store, s.group[key := t], s.pcs[t := Checking(key, true)])
  {
    run', s' := GoBegin(cap, s0, run, s, t, key, time);
    run', s' := GoMiss(cap, s0, run', s', t, key, false, time + 1);
    run', s' := GoLead(cap, s0, run', s', t, key, time + 2);
    Overwrite(s.pcs, t, Checking(key, false), Entering(key), Checking(key, true));
  }

  lemma Overwrite(pcs: map<nat, Pc>, t: nat, a: Pc, b: Pc, c: Pc)
    ensures pcs[t := a][t := b][t := c] == pcs[t := c]
  {
  }

  /** One thread misses, takes the lead and gets an answer from the origin. */
  lemma FetchUpTo(cap: int, s0: State, run: seq<Timed>, s: State, t: nat, key: string, body: Bytes, ttl: int, time: int)
    returns (run': seq<Timed>, s': State)
    requires Reaches(cap, s0, run, s) && PcOf(s.pcs, t) == Idle && key !in s.group && time > s.now
    requires s.index == [] || (|s.index| == 1 && s.index[0].key == key && s.index[0].Expired(time + 1))
    ensures Reaches(cap, s0, run', s')
    ensures Looks(s', time + 4, [], s.store, s.group[key := t], s.pcs[t := Writing(key, Answer(key, body, ttl, time + 4))])
  {
    run', s' := MissAndLead(cap, s0, run, s, t, key, time);
    run', s' := GoMiss(cap, s0, run', s', t, key, true, time + 3);
    run', s' := GoResponse(cap, s0, run', s', t, key, body, ttl, time + 4);
    Overwrite(s.pcs, t, Checking(key, true), Fetching(key), Writing(key, Answer(key, body, ttl, time + 4)));
  }

  /** The leader stores and indexes its object, and its flight ends. */
  lemma StoreAndEnd(cap: int, s0: State, run: seq<Timed>, s: State, t: nat, key: string, obj: Obj, time: int)
    returns (run': seq<Timed>, s': State)
    requires cap > 0 && Reaches(cap, s0, run, s) && PcOf(s.pcs, t) == Writing(key, obj) && time > s.now
    requires s.index == [] && obj.meta.key == key && forall u :: !PcOf(s.pcs, u).Waiting?
    ensures Reaches(cap, s0, run', s')
    ensures Looks(s', time + 2, [obj.meta], s.store[key := obj], s.group - {key}, s.pcs[t := Done(key, Fetched(obj))])
  {
    run', s' := GoWrite(cap, s0, run, s, t, key, obj, time);
    run', s' := GoInsert(cap, s0, run', s', t, key, obj, time + 1);
    var pcs, r := s'.pcs, Returning(key, Fetched(obj));
    assert forall u :: PcOf(pcs, u) == if u == t then r else PcOf(s.pcs, u);
    run', s' := GoFinish(cap, s0, run', s', t, key, Fetched(obj), time + 2);
    Overwrite(s.pcs, t, Inserting(key, obj), r, Done(key, Fetched(obj)));
  }

  /** One thread fetches, stores and indexes `key`. */
  lemma Load(cap: int, s0: State, run: seq<Timed>, s: State, t: nat, key: string, body: Bytes, ttl: int, time: int)
    returns (run': seq<Timed>, s': State)
    requires cap > 0 && Reaches(cap, s0, run, s) && PcOf(s.pcs, t) == Idle && key !in s.group && time > s.now
    requires s.index == [] && forall u :: !PcOf(s.pcs, u).Waiting?
    ensures Reaches(cap, s0, run', s')
    ensures var obj := Answer(key, body, ttl, time + 4);
      Looks(s', time + 7, [obj.meta], s.store[key := obj], s.group, s.pcs[t := Done(key, Fetched(obj))])
  {
    var obj := Answer(key, body, ttl, time + 4);
    run', s' := FetchUpTo(cap, s0, run, s, t, key, body, ttl, time);
    var pcs := s'.pcs;
    assert forall u :: PcOf(pcs, u) == if u == t then Writing(key, obj) else PcOf(s.pcs, u);
    run', s' := StoreAndEnd(cap, s0, run', s', t, key, obj, time + 5);
    assert s'.pcs == s.pcs[t := Done(key, Fetched(obj))];
    assert s'.group == s.group;
  }

  /** The key is indexed without an object, as a Delete can leave it. */
  lemma Dangles(cap: int, s0: State, key: string, body: Bytes, ttl: int) returns (run: seq<Timed>, s: State, meta: Meta)
    requires cap > 0 && Init(s0)
    ensures Reaches(cap, s0, run, s) && s.now == s0.now + 11 && s.index == [meta] && key !in s.store && s.group == map[]
    ensures meta == Answer(key, body, ttl, s0.now + 7).meta && forall t :: t > 1 ==> PcOf(s.pcs, t).Idle?
  {
    var n := s0.now;
    assert forall u :: PcOf(s0.pcs, u) == Idle;
    run, s := Go(cap, s0, [], s0, BeginDelete(1, key), n + 1);
    run, s := Go(cap, s0, run, s, DropForDelete(1), n + 2);
    run, s := Load(cap, s0, run, s, 0, key, body, ttl, n + 3);
    run, s := Go(cap, s0, run, s, EraseStore(1, true), n + 11);
    meta := Answer(key, body, ttl, n + 7).meta;
  }

  /** The storage half of a Delete can run after a later flight has written and indexed the key:
      the entry is then indexed without an object. */
  lemma DeleteCanLeaveDanglingEntry(cap: int, s0: State, key: string, body: Bytes, ttl: int)
    requires cap > 0 && Init(s0)
    ensures exists run ::
      && ValidRun(cap, s0, run) && StrictClock(s0.now, run)
      && Has(Run(cap, s0, run).index, key) && key !in Run(cap, s0, run).store
  {
    var run, s, meta := Dangles(cap, s0, key, body, ttl);
    assert Has(s.index, key);
  }

  /** A request that found a fresh entry can still be handed the body of a later response that must not be
      stored, with the old metadata and without sharing that response's flight (the run below has no Delete): the entry
      expires after its index check, and a new flight replaces the object before its storage read. */
  lemma HitCanBeOvertaken(cap: int, s0: State, key: string, cached: Bytes, body: Bytes, ttl: nat)
    requires cap > 0 && Init(s0) && ttl > 5
    ensures exists run, obj, meta, at ::
      && ValidRun(cap, s0, run) && StrictClock(s0.now, run)
      && PcOf(Run(cap, s0, run).pcs, 1) == Done(key, Hit(obj, meta, at))
      && obj.body == body && obj.meta.ttl == 0 && meta.ttl == ttl && meta.size == |cached|
  {
    var n := s0.now;
    var first, second := Answer(key, cached, ttl, n + 5), Answer(key, body, 0, n + 14 + ttl);
    var run, s := CheckPassed(cap, s0, key, cached, ttl);
    run, s := FetchUpTo(cap, s0, run, s, 2, key, body, 0, n + 10 + ttl);
    run, s := GoWrite(cap, s0, run, s, 2, key, second, n + 15 + ttl);
    run, s := GoRead(cap, s0, run, s, 1, key, first.meta, n + 10, n + 16 + ttl);
    assert PcOf(s.pcs, 1) == Done(key, Hit(second, first.meta, n + 10));
  }

  /** One thread has loaded the key, and another has found the fresh entry but not read the object yet. */
  lemma CheckPassed(cap: int, s0: State, key: string, body: Bytes, ttl: nat) returns (run: seq<Timed>, s: State)
    requires cap > 0 && Init(s0) && ttl > 5
    ensures Reaches(cap, s0, run, s) && s.now == s0.now + 10 && s.group == map[]
    ensures var first := Answer(key, body, ttl, s0.now + 5);
      && s.index == [first.meta] && PcOf(s.pcs, 1) == Reading(key, false, first.meta, s0.now + 10) && PcOf(s.pcs, 2) == Idle
  {
    var n := s0.now;
    assert forall u :: PcOf(s0.pcs, u) == Idle;
    var first := Answer(key, body, ttl, n + 5);
    run, s := Load(cap, s0, [], s0, 0, key, body, ttl, n + 1);
    run, s := GoBegin(cap, s0, run, s, 1, key, n + 9);
    run, s := GoHit(cap, s0, run, s, 1, first.meta, n + 10);
  }

  lemma GoRead(cap: int, s0: State, run: seq<Timed>, s: State, t: nat, key: string, meta: Meta, at: int, time: int)
    returns (run': seq<Timed>, s': State)
    requires Reaches(cap, s0, run, s) && PcOf(s.pcs, t) == Reading(key, false, meta, at) && key in s.store && time > s.now
    ensures Reaches(cap, s0, run', s')
    ensures Looks(s', time, s.index, s.store, s.group, s.pcs[t := Done(key, Hit(s.store[key], meta, at))])
  {
    run', s' := Go(cap, s0, run, s, ReadStore(t, ReadOk), time);
  }

  /** The only entry is fresh: Get passes the check. */
  lemma GoHit(cap: int, s0: State, run: seq<Timed>, s: State, t: nat, meta: Meta, time: int)
    returns (run': seq<Timed>, s': State)
    requires Reaches(cap, s0, run, s) && PcOf(s.pcs, t) == Checking(meta.key, false) && time > s.now
    requires s.index == [meta] && !meta.Expired(time)
    ensures Reaches(cap, s0, run', s')
    ensures Looks(s', time, s.index, s.store, s.group, s.pcs[t := Reading(meta.key, false, meta, time)])
  {
    run', s' := Go(cap, s0, run, s, CheckIndex(t), time);
    assert s' == DoCheck(s.(now := time), t, meta.key, false);
    assert Touch(s.index, meta.key) == [meta];
  }
}
