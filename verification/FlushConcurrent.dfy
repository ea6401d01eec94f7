/** AddRule and Cleanup by any number of concurrent callers. A call changes the rules and takes its snapshot under
    the lock; its write to the backend follows after the lock is released, in any order with the other writes. */
module FlushConcurrent {
  import opened Objects
  import opened FlushStore

  /** `pending` holds the snapshots that are still to be written, by the number of the call that took them.
      The last two fields are history: the rules after each call so far, starting with those before the first,
      and the call whose snapshot the blob holds (0 for the blob found at the start, None for no blob). */
  datatype Shared = Shared(
    rules: Rules,
    blob: Option<seq<Rule>>,
    pending: map<nat, seq<Rule>>,
    versions: seq<Rules>,
    holder: Option<nat>)

  datatype Step = Lock(op: Op, order: seq<string>) | Land(call: nat, write: WriteResult)

  ghost predicate Enabled(s: Shared, e: Step) {
    match e
    case Lock(op, order) => IsOrder(order, Apply(s.rules, op))
    case Land(call, _) => call in s.pending
  }

  /** Whose snapshot is in the blob after a write has ended. */
  function Holding(holder: Option<nat>, call: nat, w: WriteResult): Option<nat> {
    match w
    case Written => Some(call)
    case FailedKept => Some(call)
    case FailedUnchanged => holder
    case FailedAbsent => None
  }

  function Do(s: Shared, e: Step): Shared
    requires Enabled(s, e)
  {
    match e
    case Lock(op, order) =>
      var rules := Apply(s.rules, op);
      s.(rules := rules,
         pending := s.pending[|s.versions| := Flatten(rules, order)],
         versions := s.versions + [rules])
    case Land(call, w) =>
      s.(blob := Persisted(s.blob, s.pending[call], w),
         pending := s.pending - {call},
         holder := Holding(s.holder, call, w))
  }

  /** A store whose blob is up to date, with no call in progress. */
  ghost predicate Settled(s: Shared) {
    && WellBucketed(s.rules) && Mirrors(s.blob, s.rules)
    && s.pending == map[] && s.versions == [s.rules] && s.holder == Some(0)
  }

  ghost predicate ValidRun(s: Shared, run: seq<Step>)
    decreases |run|
  {
    run == [] || (Enabled(s, run[0]) && ValidRun(Do(s, run[0]), run[1..]))
  }

  ghost function Run(s: Shared, run: seq<Step>): Shared
    requires ValidRun(s, run)
    decreases |run|
  {
    if run == [] then s else Run(Do(s, run[0]), run[1..])
  }

  // ---- read off the schedule ----

  /** The number of calls that took the lock. */
  function Locks(run: seq<Step>): nat {
    if run == [] then 0 else (if run[0].Lock? then 1 else 0) + Locks(run[1..])
  }

  /** The call whose write was the last to leave its snapshot, or None if a failed write removed it since. */
  function LastLanded(holder: Option<nat>, run: seq<Step>): Option<nat>
    decreases |run|
  {
    if run == [] then holder
    else LastLanded(if run[0].Land? then Holding(holder, run[0].call, run[0].write) else holder, run[1..])
  }

  ghost predicate OnlyAdds(run: seq<Step>) {
    forall e :: e in run && e.Lock? ==> e.op.Add?
  }

  // ---- what every step keeps ----

  /** Each snapshot restores the rules its call left; the blob restores those of the call it belongs to. */
  ghost predicate Inv(s: Shared) {
    && WellBucketed(s.rules) && s.versions != [] && s.rules == s.versions[|s.versions| - 1]
    && (forall c :: c in s.pending ==> 0 < c < |s.versions| && Mirrors(Some(s.pending[c]), s.versions[c]))
    && (s.holder.Some? ==> s.holder.value < |s.versions| && Mirrors(s.blob, s.versions[s.holder.value]))
    && (s.holder.None? ==> s.blob.None? && |s.versions| > 1)
  }

  lemma StepInv(s: Shared, e: Step)
    requires Inv(s) && Enabled(s, e)
    ensures Inv(Do(s, e))
  {
    match e {
      case Lock(op, order) =>
        ApplyKeeps(s.rules, op);
        PersistedMirrors(Apply(s.rules, op), order);
      case Land(call, w) =>
        assert Mirrors(Some(s.pending[call]), s.versions[call]);
    }
  }

  lemma ApplyKeeps(rules: Rules, op: Op)
    requires WellBucketed(rules)
    ensures WellBucketed(Apply(rules, op))
  {
    match op
    case Add(id, domain, prefix, now) => AddedIsWellBucketed(rules, Rule(id, domain, prefix, now));
    case Clean(maxAge, now) => CleanedIsWellBucketed(rules, now - maxAge);
  }

  lemma {:induction false} RunInv(s: Shared, run: seq<Step>)
    requires Inv(s) && ValidRun(s, run)
    ensures var e := Run(s, run);
      Inv(e) && e.holder == LastLanded(s.holder, run) && |e.versions| == |s.versions| + Locks(run)
    decreases |run|
  {
    if run != [] {
      StepInv(s, run[0]);
      RunInv(Do(s, run[0]), run[1..]);
    }
  }

  // ---- AddRule only: the rules only grow ----

  ghost predicate Fewer(a: Rules, b: Rules) {
    && (forall d :: |Bucket(a, d)| <= |Bucket(b, d)|)
    && exists d :: |Bucket(a, d)| < |Bucket(b, d)|
  }

  lemma AddGrows(a: Rules, b: Rules, r: Rule)
    requires a == b || Fewer(a, b)
    ensures Fewer(a, AddTo(b, r))
  {
    var c := AddTo(b, r);
    assert forall d :: |Bucket(c, d)| == |Bucket(b, d)| + if d == r.domain then 1 else 0;
    assert |Bucket(a, r.domain)| < |Bucket(c, r.domain)|;
  }

  ghost predicate Growing(s: Shared) {
    s.versions != [] && s.rules == s.versions[|s.versions| - 1] &&
    forall i :: 0 <= i < |s.versions| - 1 ==> Fewer(s.versions[i], s.rules)
  }

  lemma StepGrowing(s: Shared, e: Step)
    requires Growing(s) && Enabled(s, e) && (e.Lock? ==> e.op.Add?)
    ensures Growing(Do(s, e))
  {
    if e.Lock? {
      var r := Rule(e.op.id, e.op.domain, e.op.prefix, e.op.now);
      forall i | 0 <= i < |s.versions| ensures Fewer(s.versions[i], AddTo(s.rules, r)) {
        AddGrows(s.versions[i], s.rules, r);
      }
    }
  }

  lemma {:induction false} RunGrowing(s: Shared, run: seq<Step>)
    requires Growing(s) && ValidRun(s, run) && OnlyAdds(run)
    ensures Growing(Run(s, run))
    decreases |run|
  {
    if run != [] {
      assert run[0] in run && forall e :: e in run[1..] ==> e in run;
      StepGrowing(s, run[0]);
      RunGrowing(Do(s, run[0]), run[1..]);
    }
  }

  // ---- the theorems ----

  /** In every interleaving of AddRule and Cleanup calls, with any failing writes, a restart restores the rules
      that the call whose snapshot landed last had left, and no others; without a blob it restores none. */
  lemma RestoresExactly(s: Shared, run: seq<Step>)
    requires Settled(s) && ValidRun(s, run)
    ensures var e, last := Run(s, run), LastLanded(Some(0), run);
      && (last.Some? ==> last.value < |e.versions|)
      && forall r :: Mirrors(e.blob, r) <==> r == if last.Some? then e.versions[last.value] else map[]
  {
    RunInv(s, run);
  }

  /** So it is enough, also with Cleanup calls, that the snapshot that landed last is that of the last call to
      take the lock. */
  lemma LastCallRestores(s: Shared, run: seq<Step>)
    requires Settled(s) && ValidRun(s, run) && LastLanded(Some(0), run) == Some(Locks(run))
    ensures Mirrors(Run(s, run).blob, Run(s, run).rules)
  {
    RunInv(s, run);
  }

  /** With AddRule calls alone this is exact, in every interleaving and with any failing writes. */
  lemma AddsRestoreExactly(s: Shared, run: seq<Step>)
    requires Settled(s) && ValidRun(s, run) && OnlyAdds(run)
    ensures var e := Run(s, run);
      Mirrors(e.blob, e.rules) <==> LastLanded(Some(0), run) == Some(Locks(run))
  {
    RunInv(s, run);
    RunGrowing(s, run);
    var e := Run(s, run);
    if e.holder.Some? {
      if e.holder.value < Locks(run) {
        assert Fewer(e.versions[e.holder.value], e.rules);
      }
    } else {
      assert Fewer(e.versions[0], e.rules);
    }
  }

  lemma Prepend(s: Shared, e: Step, rest: seq<Step>)
    requires Enabled(s, e) && ValidRun(Do(s, e), rest)
    ensures ValidRun(s, [e] + rest) && Run(s, [e] + rest) == Run(Do(s, e), rest)
    ensures Locks([e] + rest) == (if e.Lock? then 1 else 0) + Locks(rest)
    ensures forall h :: LastLanded(h, [e] + rest) == LastLanded(if e.Land? then Holding(h, e.call, e.write) else h, rest)
  {
    assert ([e] + rest)[1..] == rest;
  }

  /** Two calls whose writes land in the opposite order of their locks: a restart loses the second rule. */
  lemma ConcurrentPersistLosesRule(s: Shared, first: Op, second: Op, order: seq<string>, order': seq<string>)
    requires Settled(s) && first.Add? && second.Add?
    requires IsOrder(order, Apply(s.rules, first)) && IsOrder(order', Apply(Apply(s.rules, first), second))
    ensures var run := [Lock(first, order), Lock(second, order'), Land(2, Written), Land(1, Written)];
      && ValidRun(s, run)
      && var e := Run(s, run);
      && e.pending == map[] && e.rules == Apply(Apply(s.rules, first), second)
      && !Mirrors(e.blob, e.rules) && Mirrors(e.blob, Apply(s.rules, first))
  {
    var run := [Lock(first, order), Lock(second, order'), Land(2, Written), Land(1, Written)];
    var s1 := Do(s, run[0]);
    var s2 := Do(s1, run[1]);
    var s3 := Do(s2, run[2]);
    var s4 := Do(s3, run[3]);
    Prepend(s3, run[3], []);
    Prepend(s2, run[2], [run[3]]);
    Prepend(s1, run[1], [run[2], run[3]]);
    Prepend(s, run[0], [run[1], run[2], run[3]]);
    assert s4.pending == map[];
    AddsRestoreExactly(s, run);
    RestoresExactly(s, run);
    ApplyKeeps(s.rules, first);
    PersistedMirrors(Apply(s.rules, first), order);
  }

  /** A call that no other one interrupts has the effect of the sequential call. */
  lemma UninterruptedCall(s: Shared, c: Call)
    requires CallOk(Durable(s.rules, s.blob), c)
    ensures var locked := Do(s, Lock(c.op, c.order));
      && Enabled(locked, Land(|s.versions|, c.write))
      && var e := Do(locked, Land(|s.versions|, c.write));
      && Durable(e.rules, e.blob) == Perform(Durable(s.rules, s.blob), c)
  {
  }
}
