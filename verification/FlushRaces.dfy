/** Runs in which a request gets an answer older than a rule that its own flush check has seen. */
module FlushRaces {
  import opened Objects
  import opened Protocol
  import opened ProtocolSafety
  import opened FlushProtocol
  import F = FlushStore

  lemma {:induction false} ThenMove(cap: int, w0: World, run: seq<TimedMove>, e: TimedMove)
    requires ValidMoves(cap, w0, run) && CanMove(Moves(cap, w0, run), e)
    ensures ValidMoves(cap, w0, run + [e]) && Moves(cap, w0, run + [e]) == DoMove(cap, Moves(cap, w0, run), e)
    decreases |run|
  {
    if run == [] {
      assert run + [e] == [e];
    } else {
      ThenMove(cap, DoMove(cap, w0, run[0]), run[1..], e);
      assert (run + [e])[1..] == run[1..] + [e];
    }
  }

  ghost predicate Reaches(cap: int, w0: World, run: seq<TimedMove>, w: World) {
    Starting(w0) && ValidMoves(cap, w0, run) && Moves(cap, w0, run) == w
  }

  lemma Next(cap: int, w0: World, run: seq<TimedMove>, w: World, e: TimedMove) returns (run': seq<TimedMove>, w': World)
    requires Reaches(cap, w0, run, w) && CanMove(w, e)
    ensures w' == DoMove(cap, w, e) && Reaches(cap, w0, run', w')
  {
    ThenMove(cap, w0, run, e);
    run', w' := run + [e], DoMove(cap, w, e);
  }

  /** What the run below is about: nothing is indexed before it ends. */
  predicate Scene(w: World, now: int, group: map<string, nat>, pcs: map<nat, Pc>, rules: F.Rules, fronts: map<nat, Front>) {
    w.cache.now == now && w.cache.index == [] && w.cache.group == group && w.cache.pcs == pcs && w.rules == rules && w.fronts == fronts
  }

  /** A request arrives and finds nothing indexed, so that its flush check passes whatever the rules are. */
  lemma Arrive(cap: int, w0: World, run: seq<TimedMove>, w: World, t: nat, q: Ask, time: int) returns (run': seq<TimedMove>, w': World, front: Front)
    requires Reaches(cap, w0, run, w) && w.cache.index == [] && PcOf(w.cache.pcs, t).Idle? && FrontOf(w.fronts, t).Out? && time > w.cache.now
    ensures Reaches(cap, w0, run', w')
    ensures front.Inside? && front.q == q && front.seen == F.Bucket(w.rules, q.domain)
    ensures Scene(w', time + 1, w.cache.group, w.cache.pcs[t := Checking(q.key, false)], w.rules, w.fronts[t := front])
  {
    run', w' := Next(cap, w0, run, w, Then(time, Stat(t, q)));
    var fronts := w'.fronts;
    assert fronts == w.fronts[t := Peeked(q, None, w.trace.steps)];
    var w1 := w';
    run', w' := Next(cap, w0, run', w', Then(time + 1, MatchRules(t)));
    front := FrontOf(w'.fronts, t);
    assert w' == FlushProtocol.Go(Act(cap, w1, At(time + 1, Begin(t, q.key))), t, front);
    assert fronts[t := front] == w.fronts[t := front];
  }

  /** Get misses: nothing is indexed. */
  lemma Misses(cap: int, w0: World, run: seq<TimedMove>, w: World, t: nat, key: string, lead: bool, time: int) returns (run': seq<TimedMove>, w': World)
    requires Reaches(cap, w0, run, w) && w.cache.index == [] && PcOf(w.cache.pcs, t) == Checking(key, lead) && time > w.cache.now
    ensures Reaches(cap, w0, run', w')
    ensures Scene(w', time, w.cache.group, w.cache.pcs[t := if lead then Fetching(key) else Entering(key)], w.rules, w.fronts)
  {
    run', w' := Next(cap, w0, run, w, Then(time, Inner(CheckIndex(t))));
    assert w'.cache == DoCheck(w.cache.(now := time), t, key, lead);
  }

  lemma Joins(cap: int, w0: World, run: seq<TimedMove>, w: World, t: nat, key: string, time: int) returns (run': seq<TimedMove>, w': World)
    requires Reaches(cap, w0, run, w) && w.cache.index == [] && PcOf(w.cache.pcs, t) == Entering(key) && time > w.cache.now
    ensures Reaches(cap, w0, run', w')
    ensures var group := w.cache.group;
      if key in group then Scene(w', time, group, w.cache.pcs[t := Waiting(key)], w.rules, w.fronts)
      else Scene(w', time, group[key := t], w.cache.pcs[t := Checking(key, true)], w.rules, w.fronts)
  {
    run', w' := Next(cap, w0, run, w, Then(time, Inner(Join(t))));
  }

  function Answer(key: string, body: Bytes, ttl: int, time: int): Obj {
    Obj(body, Meta(key, time, ttl, |body|, map[]))
  }

  lemma Answers(cap: int, w0: World, run: seq<TimedMove>, w: World, t: nat, key: string, body: Bytes, ttl: int, time: int)
    returns (run': seq<TimedMove>, w': World)
    requires Reaches(cap, w0, run, w) && w.cache.index == [] && PcOf(w.cache.pcs, t) == Fetching(key) && time > w.cache.now
    ensures Reaches(cap, w0, run', w')
    ensures Scene(w', time, w.cache.group, w.cache.pcs[t := Writing(key, Answer(key, body, ttl, time))], w.rules, w.fronts)
  {
    run', w' := Next(cap, w0, run, w, Then(time, Inner(EndFetch(t, Response(body, ttl, map[])))));
    assert w'.cache == DoEndFetch(w.cache.(now := time), t, key, Response(body, ttl, map[]));
  }

  lemma Adds(cap: int, w0: World, run: seq<TimedMove>, w: World, r: F.Rule) returns (run': seq<TimedMove>, w': World)
    requires Reaches(cap, w0, run, w) && w.cache.index == [] && r.createdAt > w.cache.now
    ensures Reaches(cap, w0, run', w')
    ensures Scene(w', r.createdAt, w.cache.group, w.cache.pcs, F.AddTo(w.rules, r), w.fronts)
  {
    run', w' := Next(cap, w0, run, w, Then(r.createdAt, NewRule(r)));
  }

  lemma Writes(cap: int, w0: World, run: seq<TimedMove>, w: World, t: nat, key: string, obj: Obj, time: int)
    returns (run': seq<TimedMove>, w': World)
    requires Reaches(cap, w0, run, w) && PcOf(w.cache.pcs, t) == Writing(key, obj) && w.cache.index == [] && time > w.cache.now
    ensures Reaches(cap, w0, run', w') && w'.cache.store == w.cache.store[key := obj]
    ensures Scene(w', time, w.cache.group, w.cache.pcs[t := Inserting(key, obj)], w.rules, w.fronts)
  {
    run', w' := Next(cap, w0, run, w, Then(time, Inner(WriteStore(t, Written))));
    assert w'.cache == DoWrite(w.cache.(now := time), t, key, obj, Written);
  }

  lemma Inserts(cap: int, w0: World, run: seq<TimedMove>, w: World, t: nat, key: string, obj: Obj, time: int)
    returns (run': seq<TimedMove>, w': World)
    requires Reaches(cap, w0, run, w) && PcOf(w.cache.pcs, t) == Inserting(key, obj) && w.cache.index == [] && time > w.cache.now
    requires cap > 0
    ensures Reaches(cap, w0, run', w') && w'.cache.index == [obj.meta] && w'.cache.store == w.cache.store && w'.cache.now == time
    ensures w'.cache.pcs == w.cache.pcs[t := Returning(key, Fetched(obj))] && w'.fronts == w.fronts
  {
    run', w' := Next(cap, w0, run, w, Then(time, Inner(InsertEntry(t, true))));
    assert w'.cache == DoInsert(cap, w.cache.(now := time), t, key, obj, true);
    assert w.cache.store - {} == w.cache.store;
  }

  /** The flight ends: its waiter has the object. */
  lemma Finishes(cap: int, w0: World, run: seq<TimedMove>, w: World, t: nat, u: nat, key: string, obj: Obj, time: int)
    returns (run': seq<TimedMove>, w': World)
    requires Reaches(cap, w0, run, w) && PcOf(w.cache.pcs, t) == Returning(key, Fetched(obj)) && PcOf(w.cache.pcs, u) == Waiting(key)
    requires time > w.cache.now
    ensures Reaches(cap, w0, run', w') && w'.fronts == w.fronts && PcOf(w'.cache.pcs, u) == Done(key, Fetched(obj))
  {
    run', w' := Next(cap, w0, run, w, Then(time, Inner(Finish(t))));
    FinishMoves(w.cache.(now := time), t, key, Fetched(obj));
    assert w'.cache == DoFinish(w.cache.(now := time), t, key, Fetched(obj));
  }

  /** The only entry is fresh and its object is there: Get hits. */
  lemma Hits(cap: int, w0: World, run: seq<TimedMove>, w: World, t: nat, obj: Obj, time: int)
    returns (run': seq<TimedMove>, w': World)
    requires Reaches(cap, w0, run, w) && PcOf(w.cache.pcs, t) == Checking(obj.meta.key, false) && w.cache.index == [obj.meta]
    requires time > w.cache.now && !obj.meta.Expired(time) && obj.meta.key in w.cache.store && w.cache.store[obj.meta.key] == obj
    ensures Reaches(cap, w0, run', w') && w'.fronts == w.fronts
    ensures PcOf(w'.cache.pcs, t) == Done(obj.meta.key, Hit(obj, obj.meta, time))
  {
    run', w' := Checks(cap, w0, run, w, t, obj.meta, time);
    run', w' := Reads(cap, w0, run', w', t, obj, time, time + 1);
  }

  lemma Checks(cap: int, w0: World, run: seq<TimedMove>, w: World, t: nat, meta: Meta, time: int)
    returns (run': seq<TimedMove>, w': World)
    requires Reaches(cap, w0, run, w) && PcOf(w.cache.pcs, t) == Checking(meta.key, false) && w.cache.index == [meta]
    requires time > w.cache.now && !meta.Expired(time)
    ensures Reaches(cap, w0, run', w') && w'.fronts == w.fronts && w'.cache.store == w.cache.store && w'.cache.now == time
    ensures PcOf(w'.cache.pcs, t) == Reading(meta.key, false, meta, time)
  {
    run', w' := Next(cap, w0, run, w, Then(time, Inner(CheckIndex(t))));
    assert w'.cache == DoCheck(w.cache.(now := time), t, meta.key, false);
  }

  lemma Reads(cap: int, w0: World, run: seq<TimedMove>, w: World, t: nat, obj: Obj, at: int, time: int)
    returns (run': seq<TimedMove>, w': World)
    requires Reaches(cap, w0, run, w) && PcOf(w.cache.pcs, t) == Reading(obj.meta.key, false, obj.meta, at)
    requires time > w.cache.now && obj.meta.key in w.cache.store && w.cache.store[obj.meta.key] == obj
    ensures Reaches(cap, w0, run', w') && w'.fronts == w.fronts
    ensures PcOf(w'.cache.pcs, t) == Done(obj.meta.key, Hit(obj, obj.meta, at))
  {
    run', w' := Next(cap, w0, run, w, Then(time, Inner(ReadStore(t, ReadOk))));
  }

  lemma FirstFetches(cap: int, w0: World, q: Ask, body: Bytes, ttl: int) returns (run: seq<TimedMove>, w: World)
    requires Starting(w0)
    ensures Reaches(cap, w0, run, w) && w.cache.now == w0.cache.now + 6 && w.cache.index == []
    ensures w.cache.group == map[q.key := 0] && FrontOf(w.fronts, 1).Out?
    ensures w.cache.pcs == map[0 := Writing(q.key, Answer(q.key, body, ttl, w0.cache.now + 6))]
  {
    var n, front := w0.cache.now, Out;
    run, w := [], w0;
    run, w, front := Arrive(cap, w0, run, w, 0, q, n + 1);
    run, w := Misses(cap, w0, run, w, 0, q.key, false, n + 3);
    run, w := Joins(cap, w0, run, w, 0, q.key, n + 4);
    run, w := Misses(cap, w0, run, w, 0, q.key, true, n + 5);
    run, w := Answers(cap, w0, run, w, 0, q.key, body, ttl, n + 6);
  }

  /** The first request fetches; the rule is added; the second request passes its flush check. */
  lemma SecondEnters(cap: int, w0: World, q: Ask, body: Bytes, ttl: int, r: F.Rule) returns (run: seq<TimedMove>, w: World)
    requires Starting(w0) && r.domain == q.domain && r.createdAt == w0.cache.now + 7
    ensures Reaches(cap, w0, run, w) && w.cache.now == w0.cache.now + 9 && w.cache.index == [] && w.cache.group == map[q.key := 0]
    ensures var front := FrontOf(w.fronts, 1); front.Inside? && front.q == q && r in front.seen
    ensures w.cache.pcs == map[0 := Writing(q.key, Answer(q.key, body, ttl, w0.cache.now + 6)), 1 := Checking(q.key, false)]
  {
    var front;
    run, w := FirstFetches(cap, w0, q, body, ttl);
    run, w := Adds(cap, w0, run, w, r);
    run, w, front := Arrive(cap, w0, run, w, 1, q, w0.cache.now + 8);
  }

  /** An answer of thread 1 that is older than a covering rule its flush check has seen. */
  ghost predicate OlderThanSeen(cap: int, w0: World, run: seq<TimedMove>, q: Ask, body: Bytes, r: F.Rule, hit: bool) {
    ValidMoves(cap, w0, run) &&
    var w := Moves(cap, w0, run);
    var front, pc := FrontOf(w.fronts, 1), PcOf(w.cache.pcs, 1);
    && front.Inside? && front.q == q && r in front.seen
    && pc.Done? && pc.key == q.key && !pc.result.Failed? && pc.result.Hit? == hit
    && pc.result.obj.body == body && pc.result.obj.meta.writtenAt < r.createdAt
  }

  /** A request whose flush check sees a rule still gets a response fetched before the rule was created, when it
      joins a flight that was already under way. */
  lemma JoinerGetsOlder(cap: int, w0: World, q: Ask, body: Bytes, ttl: int, r: F.Rule)
    requires cap > 0 && Starting(w0) && r.domain == q.domain && F.Covers(r, q.path) && r.createdAt == w0.cache.now + 7
    ensures exists run :: OlderThanSeen(cap, w0, run, q, body, r, false)
  {
    var n, obj := w0.cache.now, Answer(q.key, body, ttl, w0.cache.now + 6);
    var run, w := SecondEnters(cap, w0, q, body, ttl, r);
    run, w := Misses(cap, w0, run, w, 1, q.key, false, n + 10);
    run, w := Joins(cap, w0, run, w, 1, q.key, n + 11);
    run, w := Writes(cap, w0, run, w, 0, q.key, obj, n + 12);
    run, w := Inserts(cap, w0, run, w, 0, q.key, obj, n + 13);
    run, w := Finishes(cap, w0, run, w, 0, 1, q.key, obj, n + 14);
    assert OlderThanSeen(cap, w0, run, q, body, r, false);
  }

  /** The same, when that flight puts its object in the index between the request's look-up and its Get. */
  lemma LaterEntryIsOlder(cap: int, w0: World, q: Ask, body: Bytes, ttl: int, r: F.Rule)
    requires cap > 0 && Starting(w0) && r.domain == q.domain && F.Covers(r, q.path) && r.createdAt == w0.cache.now + 7 && ttl > 10
    ensures exists run :: OlderThanSeen(cap, w0, run, q, body, r, true)
  {
    var n, obj := w0.cache.now, Answer(q.key, body, ttl, w0.cache.now + 6);
    var run, w := SecondEnters(cap, w0, q, body, ttl, r);
    run, w := Writes(cap, w0, run, w, 0, q.key, obj, n + 10);
    run, w := Inserts(cap, w0, run, w, 0, q.key, obj, n + 11);
    run, w := Hits(cap, w0, run, w, 1, obj, n + 12);
    assert OlderThanSeen(cap, w0, run, q, body, r, true);
  }
}
