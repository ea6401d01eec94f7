/** Exactly when a request that has passed its flush check can still get an answer older than a rule the check saw. */
module FlushExposure {
  import opened Protocol
  import opened ProtocolSafety
  import opened ProtocolExposure
  import opened FlushProtocol
  import F = FlushStore

  /** The thread does not start another request. */
  ghost predicate KeepsOn(run: seq<TimedMove>, t: nat) {
    forall e :: e in run && e.move.Stat? ==> e.move.tid != t
  }

  /** In some interleaving with other requests, rules, cleanups and deletes the request ends with an object written
      before c. */
  ghost predicate CanGetOlder(cap: int, w: World, t: nat, c: int) {
    exists run :: ValidMoves(cap, w, run) && KeepsOn(run, t) && EndsOlder(Moves(cap, w, run).cache, t, c)
  }

  // ---- only if ----

  lemma WaitSafe(s: State, time: int, t: nat, key: string, c: int)
    requires Safe(s, t, key, c) && time >= s.now
    ensures Safe(s.(now := time), t, key, c)
  {
  }

  lemma MoveSafe(cap: int, w: World, e: TimedMove, t: nat, key: string, c: int)
    requires Inv(cap, w.cache) && CanMove(w, e) && c <= w.cache.now && Safe(w.cache, t, key, c)
    requires FrontOf(w.fronts, t).Inside? && (e.move.Stat? ==> e.move.tid != t)
    ensures Safe(DoMove(cap, w, e).cache, t, key, c) && FrontOf(DoMove(cap, w, e).fronts, t).Inside?
    ensures DoMove(cap, w, e).cache.now == e.time
  {
    match e.move
    case MatchRules(u) =>
      var q := FrontOf(w.fronts, u).q;
      BegunSafe(cap, w.cache, At(e.time, Begin(u, q.key)), t, key, c);
      BegunSafe(cap, w.cache, At(e.time, BeginDelete(u, q.key)), t, key, c);
    case Enter(u) => BegunSafe(cap, w.cache, At(e.time, Begin(u, FrontOf(w.fronts, u).q.key)), t, key, c);
    case Inner(st) =>
      StepSafe(cap, w.cache, At(e.time, st), t, key, c);
      NowIsTime(cap, w.cache, At(e.time, st));
    case _ => WaitSafe(w.cache, e.time, t, key, c);
  }

  lemma BegunSafe(cap: int, s: State, e: Timed, t: nat, key: string, c: int)
    requires Inv(cap, s) && e.time > s.now && c <= s.now && Safe(s, t, key, c) && e.step.tid != t
    requires Enabled(s, e) && (e.step.Begin? || e.step.BeginDelete?)
    ensures Safe(Do(cap, s, e), t, key, c) && Do(cap, s, e).now == e.time
  {
    StepSafe(cap, s, e, t, key, c);
    NowIsTime(cap, s, e);
  }

  lemma {:induction false} MovesSafe(cap: int, w: World, run: seq<TimedMove>, t: nat, key: string, c: int)
    requires WorldOk(cap, w) && ValidMoves(cap, w, run) && KeepsOn(run, t) && FrontOf(w.fronts, t).Inside?
    requires c <= w.cache.now && Safe(w.cache, t, key, c)
    ensures Safe(Moves(cap, w, run).cache, t, key, c)
    decreases |run|
  {
    if run != [] {
      assert run[0] in run && forall e :: e in run[1..] ==> e in run;
      StepOk(cap, w, run[0]);
      MoveSafe(cap, w, run[0], t, key, c);
      MovesSafe(cap, DoMove(cap, w, run[0]), run[1..], t, key, c);
    }
  }

  // ---- if ----

  function Lifted(run: seq<Timed>): seq<TimedMove> {
    if run == [] then [] else [Then(run[0].time, Inner(run[0].step))] + Lifted(run[1..])
  }

  /** A run of the cache that begins no call is a run of the whole. */
  lemma {:induction false} LiftedRuns(cap: int, w: World, run: seq<Timed>, t: nat)
    requires ValidRun(cap, w.cache, run) && StrictClock(w.cache.now, run)
    requires forall e :: e in run ==> !e.step.Begin? && !e.step.BeginDelete?
    ensures ValidMoves(cap, w, Lifted(run)) && Moves(cap, w, Lifted(run)).cache == Run(cap, w.cache, run)
    ensures KeepsOn(Lifted(run), t)
    decreases |run|
  {
    if run != [] {
      assert run[0] in run && forall e :: e in run[1..] ==> e in run;
      var e := Then(run[0].time, Inner(run[0].step));
      assert run[0] == At(run[0].time, run[0].step);
      NowIsTime(cap, w.cache, run[0]);
      assert DoMove(cap, w, e) == Act(cap, w, run[0]);
      LiftedRuns(cap, Act(cap, w, run[0]), run[1..], t);
      assert Lifted(run)[1..] == Lifted(run[1..]) && Lifted(run)[0] == e;
    }
  }

  // ---- the theorem ----

  /** In every run and for every request that has passed its flush check and not looked up its key yet: it can still
      get an answer older than a covering rule the check has seen exactly when its key is exposed, that is, when an
      entry that can still be hit, or the leader of a flight under way, has such an object. */
  lemma OlderAnswersExactly(cap: int, w0: World, past: seq<TimedMove>, t: nat, r: F.Rule)
    requires Starting(w0) && ValidMoves(cap, w0, past)
    requires var w := Moves(cap, w0, past); var f := FrontOf(w.fronts, t);
      f.Inside? && PcOf(w.cache.pcs, t) == Checking(f.q.key, false) && r in f.seen && F.Covers(r, f.q.path)
    ensures var w := Moves(cap, w0, past);
      CanGetOlder(cap, w, t, r.createdAt) <==> Exposed(w.cache, FrontOf(w.fronts, t).q.key, r.createdAt)
  {
    StartingOk(cap, w0);
    RunOk(cap, w0, past);
    var w := Moves(cap, w0, past);
    EnteredExactly(cap, w, t, r);
  }

  lemma EnteredExactly(cap: int, w: World, t: nat, r: F.Rule)
    requires WorldOk(cap, w) && FrontOf(w.fronts, t).Inside?
    requires var f := FrontOf(w.fronts, t); PcOf(w.cache.pcs, t) == Checking(f.q.key, false) && r in f.seen
    ensures CanGetOlder(cap, w, t, r.createdAt) <==> Exposed(w.cache, FrontOf(w.fronts, t).q.key, r.createdAt)
  {
    var f, c := FrontOf(w.fronts, t), r.createdAt;
    assert FrontOk(f, PcOf(w.cache.pcs, t), w.cache.index, w.indexed, w.trace.steps, w.cache.now);
    if Exposed(w.cache, f.q.key, c) {
      var run, s1 := ExposedEndsOlder(cap, w.cache, t, f.q.key, c);
      LiftedRuns(cap, w, run, t);
    }
    forall run | ValidMoves(cap, w, run) && KeepsOn(run, t) && EndsOlder(Moves(cap, w, run).cache, t, c)
      ensures Exposed(w.cache, f.q.key, c)
    {
      if !Exposed(w.cache, f.q.key, c) {
        MovesSafe(cap, w, run, t, f.q.key, c);
      }
    }
  }
}
