/** Flush rules: recorded in memory per domain, mirrored to one storage key. Encoding a rule list as JSON and
    decoding it again is taken to give back the list, so the stored blob is modelled by the list itself. */
module FlushStore {
  import opened Objects

  datatype Rule = Rule(id: int, domain: string, prefix: string, createdAt: int)

  type Rules = map<string, seq<Rule>>

  predicate Covers(r: Rule, path: string) {
    r.prefix <= path
  }

  function Bucket(rules: Rules, domain: string): seq<Rule> {
    if domain in rules then rules[domain] else []
  }

  function AddTo(rules: Rules, r: Rule): Rules {
    rules[r.domain := Bucket(rules, r.domain) + [r]]
  }

  /** The most recent rule of the bucket that covers `path`; the first of equally recent ones. */
  function Newest(bucket: seq<Rule>, path: string): Option<Rule> {
    if bucket == [] then None
    else
      var r, latest := bucket[|bucket| - 1], Newest(bucket[..|bucket| - 1], path);
      if Covers(r, path) && (latest.None? || r.createdAt > latest.value.createdAt) then Some(r) else latest
  }

  /** The rule at `i` covers the path, is more recent than every covering rule before it, and no covering rule
      after it is more recent. */
  ghost predicate NewestAt(bucket: seq<Rule>, path: string, i: nat) {
    && i < |bucket| && Covers(bucket[i], path)
    && (forall j :: 0 <= j < i && Covers(bucket[j], path) ==> bucket[j].createdAt < bucket[i].createdAt)
    && (forall j :: i < j < |bucket| && Covers(bucket[j], path) ==> bucket[j].createdAt <= bucket[i].createdAt)
  }

  lemma {:induction false} NewestIndex(bucket: seq<Rule>, path: string) returns (i: nat)
    ensures Newest(bucket, path).Some? ==> NewestAt(bucket, path, i) && bucket[i] == Newest(bucket, path).value
    ensures Newest(bucket, path).None? ==> forall j :: 0 <= j < |bucket| ==> !Covers(bucket[j], path)
  {
    i := 0;
    if bucket != [] {
      var n := |bucket| - 1;
      var k := NewestIndex(bucket[..n], path);
      i := if Newest(bucket, path) == Newest(bucket[..n], path) && Newest(bucket[..n], path).Some? && NewestAt(bucket, path, k) then k else n;
    }
  }

  /** Looking at the newest rule is enough: it covers the path, and no covering rule is more recent; among
      equally recent ones it is the first. */
  lemma NewestFacts(bucket: seq<Rule>, path: string)
    ensures Newest(bucket, path).None? <==> forall r :: r in bucket ==> !Covers(r, path)
    ensures var n := Newest(bucket, path); n.Some? ==>
      && n.value in bucket && Covers(n.value, path)
      && (forall r :: r in bucket && Covers(r, path) ==> r.createdAt <= n.value.createdAt)
      && exists i: nat :: NewestAt(bucket, path, i) && bucket[i] == n.value
  {
    var i := NewestIndex(bucket, path);
  }

  function Younger(bucket: seq<Rule>, cutoff: int): seq<Rule> {
    if bucket == [] then []
    else
      var rest := Younger(bucket[..|bucket| - 1], cutoff);
      if bucket[|bucket| - 1].createdAt > cutoff then rest + [bucket[|bucket| - 1]] else rest
  }

  lemma {:induction false} YoungerFacts(bucket: seq<Rule>, cutoff: int)
    ensures forall r :: r in Younger(bucket, cutoff) <==> r in bucket && r.createdAt > cutoff
  {
    if bucket != [] {
      YoungerFacts(bucket[..|bucket| - 1], cutoff);
      assert bucket == bucket[..|bucket| - 1] + [bucket[|bucket| - 1]];
    }
  }

  /** What stays, stays in its order. */
  lemma {:induction false} YoungerAppend(a: seq<Rule>, b: seq<Rule>, cutoff: int)
    ensures Younger(a + b, cutoff) == Younger(a, cutoff) + Younger(b, cutoff)
  {
    if b == [] {
      assert a + b == a;
    } else {
      var init := b[..|b| - 1];
      assert (a + b)[..|a + b| - 1] == a + init;
      YoungerAppend(a, init, cutoff);
    }
  }

  /** Cleanup: rules not younger than the cutoff go, and so do buckets left empty. */
  function Cleaned(rules: Rules, cutoff: int): Rules {
    map d | d in rules && Younger(rules[d], cutoff) != [] :: Younger(rules[d], cutoff)
  }

  /** What Load makes of a stored list, rule by rule. */
  function Regroup(rules: Rules, all: seq<Rule>): Rules
    decreases |all|
  {
    if all == [] then rules else Regroup(AddTo(rules, all[0]), all[1..])
  }

  /** The list that is stored, when the map is walked in the given order. */
  function Flatten(rules: Rules, order: seq<string>): seq<Rule>
    requires forall d :: d in order ==> d in rules
  {
    if order == [] then [] else Flatten(rules, order[..|order| - 1]) + rules[order[|order| - 1]]
  }

  ghost predicate IsOrder(order: seq<string>, rules: Rules) {
    && (forall d :: d in order <==> d in rules)
    && (forall i, j :: 0 <= i < j < |order| ==> order[i] != order[j])
  }

  /** Each bucket holds only its own domain's rules, and no bucket is empty. */
  ghost predicate WellBucketed(rules: Rules) {
    forall d :: d in rules ==> rules[d] != [] && forall r :: r in rules[d] ==> r.domain == d
  }

  // ---- persistence round trip ----

  lemma {:induction false} RegroupAppend(rules: Rules, a: seq<Rule>, b: seq<Rule>)
    ensures Regroup(rules, a + b) == Regroup(Regroup(rules, a), b)
    decreases |a|
  {
    if a == [] {
      assert a + b == b;
    } else {
      assert (a + b)[1..] == a[1..] + b;
      RegroupAppend(AddTo(rules, a[0]), a[1..], b);
    }
  }

  lemma {:induction false} RegroupBucket(rules: Rules, d: string, bucket: seq<Rule>)
    requires bucket != [] && forall r :: r in bucket ==> r.domain == d
    ensures Regroup(rules, bucket) == rules[d := Bucket(rules, d) + bucket]
    decreases |bucket|
  {
    var next, rest := AddTo(rules, bucket[0]), bucket[1..];
    assert bucket[0] in bucket && bucket == [bucket[0]] + rest;
    if rest == [] {
      assert bucket == [bucket[0]];
    } else {
      RegroupBucket(next, d, rest);
      assert (Bucket(rules, d) + [bucket[0]]) + rest == Bucket(rules, d) + bucket;
    }
  }

  ghost function Only(rules: Rules, order: seq<string>): Rules
    requires forall d :: d in order ==> d in rules
  {
    map d | d in order :: rules[d]
  }

  lemma OnlyPlus(rules: Rules, init: seq<string>, d: string)
    requires (forall e :: e in init + [d] ==> e in rules) && d !in init
    ensures Bucket(Only(rules, init), d) == []
    ensures Only(rules, init)[d := rules[d]] == Only(rules, init + [d])
  {
  }

  /** Load after persist gives the rules back, in whatever order the map was walked. */
  lemma {:induction false} LoadRestores(rules: Rules, order: seq<string>)
    requires WellBucketed(rules) && forall d :: d in order ==> d in rules
    requires forall i, j :: 0 <= i < j < |order| ==> order[i] != order[j]
    ensures Regroup(map[], Flatten(rules, order)) == Only(rules, order)
    decreases |order|
  {
    if order != [] {
      var init, d := order[..|order| - 1], order[|order| - 1];
      assert order == init + [d];
      assert d !in init && d in order;
      LoadRestores(rules, init);
      RegroupAppend(map[], Flatten(rules, init), rules[d]);
      RegroupBucket(Only(rules, init), d, rules[d]);
      OnlyPlus(rules, init, d);
      assert [] + rules[d] == rules[d];
    }
  }

  lemma {:induction false} AddedIsWellBucketed(rules: Rules, r: Rule)
    requires WellBucketed(rules)
    ensures WellBucketed(AddTo(rules, r))
  {
  }

  lemma CleanedIsWellBucketed(rules: Rules, cutoff: int)
    requires WellBucketed(rules)
    ensures WellBucketed(Cleaned(rules, cutoff))
  {
    forall d | d in rules ensures forall r :: r in Younger(rules[d], cutoff) ==> r.domain == d {
      YoungerFacts(rules[d], cutoff);
    }
  }

  /** The stored blob, read into a fresh store, gives exactly these rules. */
  ghost predicate Mirrors(blob: Option<seq<Rule>>, rules: Rules) {
    match blob
    case None => rules == map[]
    case Some(all) => Regroup(map[], all) == rules
  }

  lemma PersistedMirrors(rules: Rules, order: seq<string>)
    requires WellBucketed(rules) && IsOrder(order, rules)
    ensures Mirrors(Some(Flatten(rules, order)), rules)
  {
    LoadRestores(rules, order);
    assert Only(rules, order) == rules;
  }

  // ---- sequential histories ----

  datatype Op =
    | Add(id: int, domain: string, prefix: string, now: int)
    | Clean(maxAge: int, now: int)

  function Apply(rules: Rules, op: Op): Rules {
    match op
    case Add(id, domain, prefix, now) => AddTo(rules, Rule(id, domain, prefix, now))
    case Clean(maxAge, now) => Cleaned(rules, now - maxAge)
  }

  /** One call of a history: the operation, the order in which it walked the map to persist, its write. */
  datatype Call = Call(op: Op, order: seq<string>, write: WriteResult)

  datatype Durable = Durable(rules: Rules, blob: Option<seq<Rule>>)

  ghost predicate CallOk(s: Durable, c: Call) {
    IsOrder(c.order, Apply(s.rules, c.op))
  }

  function Persisted(blob: Option<seq<Rule>>, all: seq<Rule>, w: WriteResult): Option<seq<Rule>> {
    match w
    case Written => Some(all)
    case FailedKept => Some(all)
    case FailedUnchanged => blob
    case FailedAbsent => None
  }

  function Perform(s: Durable, c: Call): Durable
    requires CallOk(s, c)
  {
    var rules := Apply(s.rules, c.op);
    Durable(rules, Persisted(s.blob, Flatten(rules, c.order), c.write))
  }

  ghost predicate HistoryOk(s: Durable, calls: seq<Call>)
    decreases |calls|
  {
    calls == [] || (CallOk(s, calls[0]) && HistoryOk(Perform(s, calls[0]), calls[1..]))
  }

  function AfterHistory(s: Durable, calls: seq<Call>): Durable
    requires HistoryOk(s, calls)
    decreases |calls|
  {
    if calls == [] then s else AfterHistory(Perform(s, calls[0]), calls[1..])
  }

  /** After any sequential history of AddRule and Cleanup whose last write succeeded, a restart restores
      exactly the rules in memory; earlier failed writes do not matter. */
  lemma {:induction false} RestartRestores(s: Durable, calls: seq<Call>)
    requires WellBucketed(s.rules) && HistoryOk(s, calls)
    requires if calls == [] then Mirrors(s.blob, s.rules) else calls[|calls| - 1].write.Written?
    ensures var e := AfterHistory(s, calls); WellBucketed(e.rules) && Mirrors(e.blob, e.rules)
    decreases |calls|
  {
    if calls != [] {
      CallKeeps(s, calls[0]);
      RestartRestores(Perform(s, calls[0]), calls[1..]);
    }
  }

  lemma CallKeeps(s: Durable, c: Call)
    requires WellBucketed(s.rules) && CallOk(s, c)
    ensures WellBucketed(Perform(s, c).rules)
    ensures c.write.Written? ==> Mirrors(Perform(s, c).blob, Perform(s, c).rules)
  {
    match c.op {
      case Add(id, domain, prefix, now) => AddedIsWellBucketed(s.rules, Rule(id, domain, prefix, now));
      case Clean(maxAge, now) => CleanedIsWellBucketed(s.rules, now - maxAge);
    }
    PersistedMirrors(Perform(s, c).rules, c.order);
  }

  // ---- the store ----

  /** The storage key the rules are mirrored to. */
  class RuleBlob {
    var content: Option<seq<Rule>>

    constructor ()
      ensures content == None
    {
      content := None;
    }
  }

  datatype LoadFault = NoFault | ReadFails | BodyFails | DecodeFails

  class Store {
    var rules: Rules
    const storage: RuleBlob

    ghost predicate Valid()
      reads this
    {
      WellBucketed(rules)
    }

    constructor (s: RuleBlob)
      ensures Valid() && rules == map[] && storage == s
    {
      rules := map[];
      storage := s;
    }

    /** A missing or unreadable blob counts as "no rules"; a blob that cannot be decoded is an error. */
    method Load(fault: LoadFault) returns (ok: bool)
      requires Valid()
      modifies this
      ensures Valid()
      ensures ok <==> storage.content.None? || fault.NoFault? || fault.ReadFails?
      ensures rules == if storage.content.Some? && fault.NoFault? then Regroup(old(rules), storage.content.value) else old(rules)
      ensures ok && fault.NoFault? && old(rules) == map[] ==> forall r :: Mirrors(storage.content, r) <==> r == rules
    {
      if storage.content.None? || fault.ReadFails? {
        return true;
      }
      if fault.BodyFails? || fault.DecodeFails? {
        return false;
      }
      var all := storage.content.value;
      assert all[..|all|] == all;
      for i := 0 to |all|
        invariant Valid()
        invariant rules == Regroup(old(rules), all[..i])
      {
        assert all[..i + 1] == all[..i] + [all[i]];
        RegroupAppend(old(rules), all[..i], [all[i]]);
        AddedIsWellBucketed(rules, all[i]);
        rules := rules[all[i].domain := Bucket(rules, all[i].domain) + [all[i]]];
      }
      ok := true;
    }

    /** The call as a step of a history. */
    ghost predicate Performed(was: Rules, blob: Option<seq<Rule>>, c: Call)
      reads this, storage
    {
      CallOk(Durable(was, blob), c) && Durable(rules, storage.content) == Perform(Durable(was, blob), c)
    }

    method AddRule(domain: string, prefix: string, id: int, now: int, w: WriteResult) returns (ok: bool)
      requires Valid()
      modifies this, storage
      ensures Valid() && ok == w.Written?
      ensures rules == AddTo(old(rules), Rule(id, domain, prefix, now))
      ensures ok ==> Mirrors(storage.content, rules)
      ensures w.FailedUnchanged? ==> storage.content == old(storage.content)
      ensures exists order :: Performed(old(rules), old(storage.content), Call(Add(id, domain, prefix, now), order, w))
    {
      var r := Rule(id, domain, prefix, now);
      AddedIsWellBucketed(rules, r);
      ghost var was := rules;
      rules := rules[domain := Bucket(rules, domain) + [r]];
      ok := Save(was, Add(id, domain, prefix, now), w);
    }

    /** The second half of both operations: the snapshot, and its write. */
    method Save(ghost was: Rules, ghost op: Op, w: WriteResult) returns (ok: bool)
      requires Valid() && rules == Apply(was, op)
      modifies storage
      ensures ok == w.Written? && (ok ==> Mirrors(storage.content, rules))
      ensures w.FailedUnchanged? ==> storage.content == old(storage.content)
      ensures exists order :: Performed(was, old(storage.content), Call(op, order, w))
    {
      ghost var blob := storage.content;
      var all := AllRulesLocked();
      ghost var order :| IsOrder(order, rules) && all == Flatten(rules, order);
      ok := Persist(all, w);
      assert Performed(was, blob, Call(op, order, w));
    }

    method Match(domain: string, path: string) returns (latest: Option<Rule>)
      ensures latest == Newest(Bucket(rules, domain), path)
    {
      var bucket := Bucket(rules, domain);
      latest := None;
      for i := 0 to |bucket|
        invariant latest == Newest(bucket[..i], path)
      {
        assert bucket[..i + 1][..i] == bucket[..i];
        var r := bucket[i];
        if Covers(r, path) {
          if latest.None? || r.createdAt > latest.value.createdAt {
            latest := Some(r);
          }
        }
      }
      assert bucket[..|bucket|] == bucket;
    }

    method Cleanup(maxAge: int, now: int, w: WriteResult) returns (ok: bool)
      requires Valid()
      modifies this, storage
      ensures Valid() && ok == w.Written?
      ensures rules == Cleaned(old(rules), now - maxAge)
      ensures ok ==> Mirrors(storage.content, rules)
      ensures w.FailedUnchanged? ==> storage.content == old(storage.content)
      ensures exists order :: Performed(old(rules), old(storage.content), Call(Clean(maxAge, now), order, w))
    {
      var cutoff := now - maxAge;
      ghost var was := rules;
      CleanedIsWellBucketed(rules, cutoff);
      CleanBuckets(cutoff);
      ok := Save(was, Clean(maxAge, now), w);
    }

    /** The outer loop of Cleanup; Go walks the map in an unspecified order. */
    method CleanBuckets(cutoff: int)
      modifies this`rules
      ensures rules == Cleaned(old(rules), cutoff)
    {
      ghost var was := rules;
      var todo := rules.Keys;
      assert rules - todo == map[] == Cleaned(was, cutoff) - todo;
      while todo != {}
        invariant todo <= was.Keys && todo <= rules.Keys
        invariant forall d :: d in was && d in todo ==> rules[d] == was[d]
        invariant rules - todo == Cleaned(was, cutoff) - todo
        decreases |todo|
      {
        var d :| d in todo;
        CleanOne(d, cutoff, was, todo);
        todo := todo - {d};
      }
      assert rules - {} == rules && Cleaned(was, cutoff) - {} == Cleaned(was, cutoff);
    }

    /** One turn of the outer loop of Cleanup. */
    method CleanOne(d: string, cutoff: int, ghost was: Rules, ghost todo: set<string>)
      requires d in todo && todo <= was.Keys && todo <= rules.Keys
      requires forall e :: e in was && e in todo ==> rules[e] == was[e]
      requires rules - todo == Cleaned(was, cutoff) - todo
      modifies this`rules
      ensures todo - {d} <= rules.Keys
      ensures forall e :: e in was && e in todo - {d} ==> rules[e] == was[e]
      ensures rules - (todo - {d}) == Cleaned(was, cutoff) - (todo - {d})
    {
      var kept := KeepYounger(rules[d], cutoff);
      if |kept| == 0 {
        rules := rules - {d};
      } else {
        rules := rules[d := kept];
      }
      assert forall e :: e in rules && e !in todo ==> e in old(rules) - todo;
      assert forall e :: e in Cleaned(was, cutoff) && e !in todo ==> e in Cleaned(was, cutoff) - todo;
      forall e ensures e in rules - (todo - {d}) <==> e in Cleaned(was, cutoff) - (todo - {d}) {
        if e != d {
          assert e in old(rules) - todo <==> e in Cleaned(was, cutoff) - todo;
        }
      }
      forall e | e in rules - (todo - {d}) ensures rules[e] == Cleaned(was, cutoff)[e] {
        if e != d {
          assert e in old(rules) - todo && (old(rules) - todo)[e] == (Cleaned(was, cutoff) - todo)[e];
        }
      }
    }

    /** The rules of all domains; Go walks the map in an unspecified order. */
    method AllRulesLocked() returns (all: seq<Rule>)
      ensures exists order :: IsOrder(order, rules) && all == Flatten(rules, order)
    {
      all := [];
      ghost var order: seq<string> := [];
      var todo := rules.Keys;
      while todo != {}
        invariant todo <= rules.Keys
        invariant forall d :: d in order <==> d in rules && d !in todo
        invariant forall i, j :: 0 <= i < j < |order| ==> order[i] != order[j]
        invariant all == Flatten(rules, order)
        decreases |todo|
      {
        var d :| d in todo;
        assert (order + [d])[..|order|] == order;
        all := all + rules[d];
        order := order + [d];
        todo := todo - {d};
      }
    }

    method Persist(all: seq<Rule>, w: WriteResult) returns (ok: bool)
      requires Valid() && exists order :: IsOrder(order, rules) && all == Flatten(rules, order)
      modifies storage
      ensures ok == w.Written? && storage.content == Persisted(old(storage.content), all, w)
      ensures ok ==> Mirrors(storage.content, rules)
    {
      ghost var order :| IsOrder(order, rules) && all == Flatten(rules, order);
      PersistedMirrors(rules, order);
      storage.content := Persisted(storage.content, all, w);
      ok := w.Written?;
    }
  }

  /** The inner loop of Cleanup. */
  method KeepYounger(bucket: seq<Rule>, cutoff: int) returns (kept: seq<Rule>)
    ensures kept == Younger(bucket, cutoff)
  {
    kept := [];
    for i := 0 to |bucket|
      invariant kept == Younger(bucket[..i], cutoff)
    {
      assert bucket[..i + 1][..i] == bucket[..i];
      if bucket[i].createdAt > cutoff {
        kept := kept + [bucket[i]];
      }
    }
    assert bucket[..|bucket|] == bucket;
  }
}
