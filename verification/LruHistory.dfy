/** Properties of whole sequential histories of one LRUCache: recency order, survival,
    and inclusion between two capacities. */
module LruHistory {
  import opened Objects
  import opened LruIndex
  import LruCache

  /** One call on the cache. `readOk` and `writeOk` say whether the backend call inside it succeeds. */
  datatype Op =
    | Get(key: string, now: int, readOk: bool)
    | Set(meta: Meta, writeOk: bool)
    | Delete(key: string)
    | Stat(key: string)

  function Step(l: Index, cap: int, op: Op): Index {
    match op
    case Get(key, now, readOk) =>
      var c := Check(l, key, now);
      if c.Fresh? && !readOk then Remove(c.index, key) else c.index
    case Set(meta, writeOk) => if writeOk then Insert(l, meta, cap) else l
    case Delete(key) => Remove(l, key)
    case Stat(_) => l
  }

  /** The calls of LRUCache are the steps of a history: a storage read works when the backend works and has
      the object, and a Set that fails to write leaves the index alone. */
  lemma CallsAreSteps(s: LruCache.CacheState, cap: int, key: string, now: int, ok: bool, obj: Obj, w: WriteResult, evictOk: bool)
    requires Distinct(s.index)
    ensures var (s', r) := LruCache.GetResult(s, key, now, ok); var op := Get(key, now, ok && key in s.store);
      s'.index == Step(s.index, cap, op) && (if r.Some? then Some(r.value.meta) else None) == Answer(s.index, op)
    ensures LruCache.SetResult(s, cap, key, obj, w, evictOk).index == Step(s.index, cap, Set(obj.meta, w.Written?))
    ensures LruCache.DeleteResult(s, key, ok).index == Step(s.index, cap, Delete(key))
  {
  }

  /** What the caller sees: the metadata of a hit (Get) or of an indexed key (Stat). */
  function Answer(l: Index, op: Op): Option<Meta> {
    match op
    case Get(key, now, readOk) =>
      var c := Check(l, key, now);
      if c.Fresh? && readOk then Some(c.meta) else None
    case Stat(key) => if Has(l, key) then Some(Lookup(l, key)) else None
    case _ => None
  }

  /** The index after a history that starts with an empty cache. */
  function Run(cap: int, ops: seq<Op>): Index {
    if ops == [] then [] else Step(Run(cap, Before(ops)), cap, Last(ops))
  }

  function Before(ops: seq<Op>): seq<Op>
    requires ops != []
  {
    ops[..|ops| - 1]
  }

  function Last(ops: seq<Op>): Op
    requires ops != []
  {
    ops[|ops| - 1]
  }

  lemma StepBounded(l: Index, cap: int, op: Op)
    requires Bounded(l, cap)
    ensures Bounded(Step(l, cap, op), cap)
  {
    match op
    case Get(key, now, _) =>
      CheckFacts(l, key, now);
      RemoveFacts(Check(l, key, now).index, key);
    case Set(meta, _) => InsertFacts(l, meta, cap);
    case Delete(key) => RemoveFacts(l, key);
    case Stat(_) =>
  }

  lemma {:induction false} RunBounded(cap: int, ops: seq<Op>)
    ensures Bounded(Run(cap, ops), cap)
  {
    if ops != [] {
      RunBounded(cap, Before(ops));
      StepBounded(Run(cap, Before(ops)), cap, Last(ops));
    }
  }

  // ---- recency order ----

  /** The key a call touches: a successful Set, or a Get answered from the cache. Stat touches nothing. */
  function Touched(l: Index, op: Op): Option<string> {
    match op
    case Get(key, _, _) => if Answer(l, op).Some? then Some(key) else None
    case Set(meta, writeOk) => if writeOk then Some(meta.key) else None
    case _ => None
  }

  /** The number of the last call that touched `key`, counted from 1; 0 if none did. */
  function LastTouch(cap: int, ops: seq<Op>, key: string): nat {
    if ops == [] then 0
    else if Touched(Run(cap, Before(ops)), Last(ops)) == Some(key) then |ops|
    else LastTouch(cap, Before(ops), key)
  }

  lemma {:induction false} LastTouchBound(cap: int, ops: seq<Op>, key: string)
    ensures LastTouch(cap, ops, key) <= |ops|
  {
    if ops != [] {
      LastTouchBound(cap, Before(ops), key);
    }
  }

  ghost predicate OrderedBy(l: Index, stamp: string -> nat) {
    l != [] ==> (forall m :: m in l[1..] ==> stamp(l[0].key) > stamp(m.key)) && OrderedBy(l[1..], stamp)
  }

  lemma {:induction false} OrderedAt(l: Index, stamp: string -> nat, i: nat, j: nat)
    requires OrderedBy(l, stamp) && i < j < |l|
    ensures stamp(l[i].key) > stamp(l[j].key)
  {
    assert l[j] == l[1..][j - 1];
    if i > 0 {
      OrderedAt(l[1..], stamp, i - 1, j - 1);
    }
  }

  lemma {:induction false} OrderedRemove(l: Index, key: string, stamp: string -> nat)
    requires Distinct(l) && OrderedBy(l, stamp)
    ensures OrderedBy(Remove(l, key), stamp)
    decreases |l|
  {
    if l != [] && l[0].key != key {
      DistinctTail(l);
      OrderedRemove(l[1..], key, stamp);
      RemoveFacts(l[1..], key);
      assert Remove(l, key)[1..] == Remove(l[1..], key);
    }
  }

  lemma {:induction false} OrderedTake(l: Index, c: nat, stamp: string -> nat)
    requires c <= |l| && OrderedBy(l, stamp)
    ensures OrderedBy(l[..c], stamp)
    decreases |l|
  {
    if c > 0 {
      OrderedTake(l[1..], c - 1, stamp);
      assert l[..c][1..] == l[1..][..c - 1];
    }
  }

  lemma {:induction false} OrderedRestamp(l: Index, stamp: string -> nat, stamp': string -> nat)
    requires OrderedBy(l, stamp)
    requires forall m :: m in l ==> stamp(m.key) == stamp'(m.key)
    ensures OrderedBy(l, stamp')
    decreases |l|
  {
    if l != [] {
      OrderedRestamp(l[1..], stamp, stamp');
    }
  }

  /** The index lists keys in the order of their last touch, most recent first. */
  lemma RecencyOrder(cap: int, ops: seq<Op>, i: nat, j: nat)
    requires i < j < |Run(cap, ops)|
    ensures LastTouch(cap, ops, Run(cap, ops)[i].key) > LastTouch(cap, ops, Run(cap, ops)[j].key)
  {
    RunOrdered(cap, ops);
    OrderedAt(Run(cap, ops), Stamp(cap, ops), i, j);
  }

  function Stamp(cap: int, ops: seq<Op>): string -> nat {
    k => LastTouch(cap, ops, k)
  }

  lemma {:induction false} RunOrdered(cap: int, ops: seq<Op>)
    ensures OrderedBy(Run(cap, ops), Stamp(cap, ops))
  {
    if ops != [] {
      var pre := Before(ops);
      var l, op := Run(cap, pre), Last(ops);
      RunOrdered(cap, pre);
      RunBounded(cap, pre);
      StepShape(l, cap, op);
      match Touched(l, op)
      case None =>
        if op.Get? || op.Delete? {
          OrderedRemove(l, op.key, Stamp(cap, pre));
        }
        OrderedRestamp(Run(cap, ops), Stamp(cap, pre), Stamp(cap, ops));
      case Some(k) =>
        OrderedRemove(l, k, Stamp(cap, pre));
        RemoveFacts(l, k);
        var rest := Remove(l, k);
        OrderedRestamp(rest, Stamp(cap, pre), Stamp(cap, ops));
        var m: Meta :| m.key == k && Run(cap, ops) == Evict([m] + rest, cap);
        forall x | x in rest ensures LastTouch(cap, ops, k) > LastTouch(cap, ops, x.key) {
          LastTouchBound(cap, pre, x.key);
        }
        assert ([m] + rest)[1..] == rest;
        if |[m] + rest| > Keep(cap) {
          OrderedTake([m] + rest, Keep(cap), Stamp(cap, ops));
        }
    }
  }

  /** A call either leaves the order alone, drops one key, or puts the touched key in front of the
      others and trims the back to capacity. */
  lemma StepShape(l: Index, cap: int, op: Op)
    requires Bounded(l, cap)
    ensures var n := Step(l, cap, op);
      match Touched(l, op)
      case None => n == if op.Delete? || Drops(l, op) then Remove(l, op.key) else l
      case Some(k) => exists m: Meta :: m.key == k && n == Evict([m] + Remove(l, k), cap)
  {
    match op
    case Get(key, now, readOk) =>
      HasIff(l, key);
      RemoveFacts(l, key);
      var c := Check(l, key, now);
      if c.Fresh? {
        if readOk {
          assert c.index == Evict([c.meta] + Remove(l, key), cap);
        } else {
          assert Remove(c.index, key) == Remove(l, key);
        }
      }
    case Set(meta, writeOk) =>
      InsertIsEvict(l, meta, cap);
    case Delete(key) => RemoveFacts(l, key);
    case Stat(_) =>
  }

  // ---- survival ----

  /** The call takes its key out of the index: Delete, a Get that finds it expired, or a Get whose
      storage read fails. */
  predicate Drops(l: Index, op: Op) {
    match op
    case Get(key, now, readOk) => Has(l, key) && (Lookup(l, key).Expired(now) || !readOk)
    case Delete(key) => Has(l, key)
    case _ => false
  }

  /** `key` has been touched and not dropped since; evictions are not looked at. */
  predicate Alive(cap: int, ops: seq<Op>, key: string) {
    ops != [] &&
    var l, op := Run(cap, Before(ops)), Last(ops);
    if Touched(l, op) == Some(key) then true
    else if Drops(l, op) && op.key == key then false
    else Alive(cap, Before(ops), key)
  }

  /** The other keys touched since the last touch of `key`. */
  function TouchedSince(cap: int, ops: seq<Op>, key: string): set<string> {
    if ops == [] then {}
    else
      match Touched(Run(cap, Before(ops)), Last(ops))
      case None => TouchedSince(cap, Before(ops), key)
      case Some(k) => if k == key then {} else TouchedSince(cap, Before(ops), key) + {k}
  }

  /** The keys in front of `key`. */
  function Ahead(l: Index, key: string): set<string> {
    if l == [] || l[0].key == key then {} else {l[0].key} + Ahead(l[1..], key)
  }

  lemma {:induction false} AheadRemove(l: Index, key: string, gone: string)
    requires Distinct(l) && Has(l, key) && key != gone
    ensures Has(Remove(l, gone), key) && Ahead(Remove(l, gone), key) == Ahead(l, key) - {gone}
    decreases |l|
  {
    if l[0].key != key {
      DistinctTail(l);
      AheadRemove(l[1..], key, gone);
      if l[0].key != gone {
        assert Remove(l, gone)[1..] == Remove(l[1..], gone);
      } else {
        AheadKeys(l[1..], key);
        HasIff(l[1..], gone);
      }
    }
  }

  lemma {:induction false} AheadOfTake(l: Index, key: string, c: nat)
    requires c <= |l| && Has(l[..c], key)
    ensures Has(l, key) && Ahead(l[..c], key) == Ahead(l, key)
    decreases |l|
  {
    if l[0].key != key {
      assert l[..c][1..] == l[1..][..c - 1];
      AheadOfTake(l[1..], key, c - 1);
    }
  }

  lemma {:induction false} AheadKeys(l: Index, key: string)
    ensures Ahead(l, key) <= Keys(l) - {key}
  {
    if l != [] && l[0].key != key {
      AheadKeys(l[1..], key);
      assert forall m :: m in l[1..] ==> m in l;
    }
  }

  function Rank(l: Index, key: string): nat {
    if l == [] || l[0].key == key then 0 else 1 + Rank(l[1..], key)
  }

  lemma {:induction false} RankIsSize(l: Index, key: string)
    requires Distinct(l)
    ensures Rank(l, key) == |Ahead(l, key)|
  {
    if l != [] && l[0].key != key {
      DistinctTail(l);
      RankIsSize(l[1..], key);
      AheadKeys(l[1..], key);
      HasIff(l[1..], l[0].key);
      assert l[0].key !in Ahead(l[1..], key);
    }
  }

  lemma {:induction false} AheadTake(l: Index, key: string, cap: nat)
    requires Has(l, key) && Rank(l, key) < cap <= |l|
    ensures Has(l[..cap], key) && Ahead(l[..cap], key) == Ahead(l, key)
    decreases |l|
  {
    if l[0].key != key {
      AheadTake(l[1..], key, cap - 1);
      assert l[..cap][1..] == l[1..][..cap - 1];
    }
  }

  /** Survival across a touch of another key `m.key`. */
  lemma SurvivesTouch(cap: nat, l: Index, m: Meta, key: string, others: set<string>)
    requires Bounded(l, cap) && Has(l, key) && m.key != key && Ahead(l, key) <= others
    requires |others + {m.key}| < cap
    ensures var n := Evict([m] + Remove(l, m.key), cap);
      Has(n, key) && Ahead(n, key) <= others + {m.key}
  {
    var rest := Remove(l, m.key);
    RemoveFacts(l, m.key);
    DistinctCons(m, rest);
    AheadRemove(l, key, m.key);
    assert ([m] + rest)[1..] == rest;
    SubsetSize(Ahead([m] + rest, key), others + {m.key});
    RankIsSize([m] + rest, key);
    if |[m] + rest| > cap {
      AheadTake([m] + rest, key, cap);
    }
  }

  /** Only keys touched since can be in front of a key, and a key stays indexed as long as
      fewer than `cap` distinct other keys have been touched since its own last touch. */
  lemma {:induction false} Survival(cap: nat, ops: seq<Op>, key: string)
    requires Alive(cap, ops, key)
    ensures |TouchedSince(cap, ops, key)| < cap ==>
      Has(Run(cap, ops), key) && Ahead(Run(cap, ops), key) <= TouchedSince(cap, ops, key)
  {
    var pre := Before(ops);
    var l, op := Run(cap, pre), Last(ops);
    RunBounded(cap, pre);
    StepShape(l, cap, op);
    match Touched(l, op)
    case Some(k) =>
      if k != key && |TouchedSince(cap, ops, key)| < cap {
        SubsetSize(TouchedSince(cap, pre, key), TouchedSince(cap, ops, key));
        Survival(cap, pre, key);
        var m: Meta :| m.key == k && Run(cap, ops) == Evict([m] + Remove(l, k), cap);
        SurvivesTouch(cap, l, m, key, TouchedSince(cap, pre, key));
      }
    case None =>
      Survival(cap, pre, key);
      if |TouchedSince(cap, ops, key)| < cap && Run(cap, ops) != l {
        RemoveFacts(l, op.key);
        AheadRemove(l, key, op.key);
      }
  }

  /** Nothing else is indexed: every indexed key was touched and has not been dropped since. */
  lemma {:induction false} OnlyAliveIndexed(cap: nat, ops: seq<Op>, key: string)
    requires Has(Run(cap, ops), key)
    ensures Alive(cap, ops, key)
  {
    var pre := Before(ops);
    var l, op := Run(cap, pre), Last(ops);
    RunBounded(cap, pre);
    StepShape(l, cap, op);
    HasIff(Run(cap, ops), key);
    HasIff(l, key);
    if Touched(l, op) != Some(key) {
      if Touched(l, op).Some? {
        var k := Touched(l, op).value;
        RemoveFacts(l, k);
        var m: Meta :| m.key == k && Run(cap, ops) == Evict([m] + Remove(l, k), cap);
        assert Lookup(Run(cap, ops), key) in [m] + Remove(l, k);
        assert Lookup(Run(cap, ops), key) in l;
      } else if op.Get? || op.Delete? {
        RemoveFacts(l, op.key);
      }
      OnlyAliveIndexed(cap, pre, key);
    }
  }

  /** Evictions come from the back: whatever was touched after a resident key, and not dropped,
      is resident and in front of it. */
  lemma {:induction false} NewerSurvives(cap: nat, ops: seq<Op>, key: string, newer: string)
    requires Has(Run(cap, ops), key)
    requires newer in TouchedSince(cap, ops, key) && Alive(cap, ops, newer)
    ensures newer in Ahead(Run(cap, ops), key)
  {
    var pre := Before(ops);
    var l, op, n := Run(cap, pre), Last(ops), Run(cap, ops);
    RunBounded(cap, pre);
    StepShape(l, cap, op);
    TouchedSinceOthers(cap, pre, key);
    match Touched(l, op)
    case Some(k) =>
      var rest := Remove(l, k);
      var m: Meta :| m.key == k && n == Evict([m] + rest, cap);
      var full := [m] + rest;
      assert full[1..] == rest && n == full[..|n|];
      AheadOfTake(full, key, |n|);
      if k != newer {
        RemoveFacts(l, k);
        HasIff(rest, key);
        HasIff(l, key);
        NewerSurvives(cap, pre, key, newer);
        AheadRemove(l, key, k);
      }
    case None =>
      if n != l {
        RemoveFacts(l, op.key);
        HasIff(n, key);
        HasIff(l, key);
        NewerSurvives(cap, pre, key, newer);
        AheadRemove(l, key, op.key);
        AheadKeys(l, key);
        HasIff(l, newer);
      } else {
        NewerSurvives(cap, pre, key, newer);
        AheadKeys(l, key);
        HasIff(l, newer);
      }
  }

  lemma {:induction false} TouchedSinceOthers(cap: nat, ops: seq<Op>, key: string)
    ensures key !in TouchedSince(cap, ops, key)
  {
    if ops != [] {
      TouchedSinceOthers(cap, Before(ops), key);
    }
  }

  /** With no drop among the keys touched since, a touched key is resident exactly while fewer than
      `cap` distinct other keys have been touched after it. */
  lemma ResidentExactly(cap: nat, ops: seq<Op>, key: string)
    requires Alive(cap, ops, key)
    requires forall k :: k in TouchedSince(cap, ops, key) ==> Alive(cap, ops, k)
    ensures Has(Run(cap, ops), key) <==> |TouchedSince(cap, ops, key)| < cap
  {
    var l, since := Run(cap, ops), TouchedSince(cap, ops, key);
    Survival(cap, ops, key);
    if Has(l, key) {
      forall k | k in since ensures k in Ahead(l, key) {
        NewerSurvives(cap, ops, key, k);
      }
      RunBounded(cap, ops);
      SubsetSize(since, Ahead(l, key));
      RankIsSize(l, key);
      RankInside(l, key);
    }
  }

  lemma {:induction false} RankInside(l: Index, key: string)
    requires Has(l, key)
    ensures Rank(l, key) < |l|
  {
    if l[0].key != key {
      RankInside(l[1..], key);
    }
  }

  lemma {:induction false} SubsetSize(a: set<string>, b: set<string>)
    requires a <= b
    ensures |a| <= |b|
  {
    if a != {} {
      var x :| x in a;
      SubsetSize(a - {x}, b - {x});
    }
  }

  // ---- inclusion ----

  /** `a` is a subsequence of `b`. */
  ghost predicate Sub(a: Index, b: Index)
    decreases |b|
  {
    a == [] || (b != [] && ((a[0] == b[0] && Sub(a[1..], b[1..])) || Sub(a, b[1..])))
  }

  lemma {:induction false} SubMembers(a: Index, b: Index)
    requires Sub(a, b)
    ensures forall m :: m in a ==> m in b
    ensures |a| <= |b|
    decreases |b|
  {
    if a != [] {
      if a[0] == b[0] && Sub(a[1..], b[1..]) {
        SubMembers(a[1..], b[1..]);
        assert forall m :: m in a ==> m == a[0] || m in a[1..];
      } else {
        SubMembers(a, b[1..]);
      }
    }
  }

  lemma {:induction false} SubTail(a: Index, b: Index)
    requires Sub(a, b) && a != []
    ensures Sub(a[1..], b)
    decreases |b|
  {
    if !(a[0] == b[0] && Sub(a[1..], b[1..])) {
      SubTail(a, b[1..]);
    }
  }

  lemma {:induction false} SubRemove(a: Index, b: Index, key: string)
    requires Sub(a, b) && Distinct(b) && Distinct(a)
    ensures Sub(Remove(a, key), Remove(b, key))
    decreases |b|
  {
    if a != [] {
      DistinctTail(b);
      DistinctTail(a);
      if a[0] == b[0] && Sub(a[1..], b[1..]) {
        SubRemove(a[1..], b[1..], key);
        if a[0].key != key {
          assert Remove(a, key)[1..] == Remove(a[1..], key) && Remove(b, key)[1..] == Remove(b[1..], key);
        }
      } else {
        SubRemove(a, b[1..], key);
        if b[0].key == key {
          SubMembers(a, b[1..]);
          HasIff(a, key);
          HasIff(b[1..], key);
          RemoveFacts(a, key);
        } else {
          assert Remove(b, key)[1..] == Remove(b[1..], key);
        }
      }
    }
  }

  /** Trimming both lists keeps the inclusion when the shorter one has to give up no less. */
  lemma {:induction false} SubTake(a: Index, b: Index, c: nat, d: nat)
    requires Sub(a, b) && c <= |a| && d <= |b| && |b| - d <= |a| - c
    ensures Sub(a[..c], b[..d])
    decreases |b|
  {
    if c > 0 {
      if a[0] == b[0] && Sub(a[1..], b[1..]) {
        if d == 0 {
          SubMembers(a[1..], b[1..]);
        } else {
          SubTake(a[1..], b[1..], c - 1, d - 1);
          assert a[..c][1..] == a[1..][..c - 1] && b[..d][1..] == b[1..][..d - 1];
        }
      } else {
        SubMembers(a, b[1..]);
        SubTake(a, b[1..], c, d - 1);
        assert b[..d][1..] == b[1..][..d - 1];
      }
    }
  }

  lemma SubCons(m: Meta, a: Index, b: Index)
    requires Sub(a, b)
    ensures Sub([m] + a, [m] + b)
  {
    assert ([m] + a)[1..] == a && ([m] + b)[1..] == b;
  }

  /** The smaller cache's entries, in order, are among the larger's, and it has no more free slots. */
  ghost predicate Included(a: Index, cap: nat, b: Index, cap': nat) {
    Bounded(a, cap) && Bounded(b, cap') && Sub(a, b) && cap - |a| <= cap' - |b|
  }

  lemma IncludedLookup(a: Index, b: Index, key: string)
    requires Distinct(a) && Distinct(b) && Sub(a, b) && Has(a, key)
    ensures Has(b, key) && Lookup(b, key) == Lookup(a, key)
  {
    SubMembers(a, b);
    HasIff(a, key);
    LookupUnique(b, Lookup(a, key));
  }

  lemma IncludedRemove(a: Index, cap: nat, b: Index, cap': nat, key: string)
    requires Included(a, cap, b, cap')
    ensures Included(Remove(a, key), cap, Remove(b, key), cap')
  {
    SubRemove(a, b, key);
    RemoveFacts(a, key);
    RemoveFacts(b, key);
    if Has(a, key) {
      IncludedLookup(a, b, key);
    }
  }

  /** Both caches trim a list that starts with the new entry; the small one gives up no less. */
  lemma IncludedEvict(x: Index, cap: nat, y: Index, cap': nat)
    requires Distinct(x) && Distinct(y) && Sub(x, y)
    requires |x| <= cap + 1 && |y| <= cap' + 1 && cap - |x| <= cap' - |y|
    ensures Included(Evict(x, cap), cap, Evict(y, cap'), cap')
  {
    SubMembers(x, y);
    EvictFacts(x, cap);
    EvictFacts(y, cap');
    var nx, ny := Evict(x, cap), Evict(y, cap');
    assert nx == x[..|nx|] && ny == y[..|ny|];
    SubTake(x, y, |nx|, |ny|);
  }

  lemma IncludedInsert(a: Index, cap: nat, b: Index, cap': nat, m: Meta)
    requires Included(a, cap, b, cap')
    ensures Included(Insert(a, m, cap), cap, Insert(b, m, cap'), cap')
  {
    IncludedRemove(a, cap, b, cap', m.key);
    var ra, rb := Remove(a, m.key), Remove(b, m.key);
    SubCons(m, ra, rb);
    FrontDistinct(a, m);
    FrontDistinct(b, m);
    IncludedEvict([m] + ra, cap, [m] + rb, cap');
    InsertIsEvict(a, m, cap);
    InsertIsEvict(b, m, cap');
  }

  lemma FrontDistinct(l: Index, m: Meta)
    requires Distinct(l)
    ensures Distinct([m] + Remove(l, m.key))
  {
    RemoveFacts(l, m.key);
    DistinctCons(m, Remove(l, m.key));
  }

  /** Both branches of Set put the entry in front of the others and trim to capacity. */
  lemma InsertIsEvict(l: Index, m: Meta, cap: int)
    requires Bounded(l, cap)
    ensures Insert(l, m, cap) == Evict([m] + Remove(l, m.key), cap)
  {
    RemoveLength(l, m.key);
  }

  lemma SubSkip(a: Index, m: Meta, b: Index)
    requires Sub(a, b)
    ensures Sub(a, [m] + b)
  {
    assert ([m] + b)[1..] == b;
  }

  /** What Get leaves and answers. */
  lemma GetShape(l: Index, key: string, now: int, readOk: bool, cap: int)
    requires Distinct(l)
    ensures var n, r := Step(l, cap, Get(key, now, readOk)), Answer(l, Get(key, now, readOk));
      if Has(l, key) && !Lookup(l, key).Expired(now) && readOk
      then r == Some(Lookup(l, key)) && n == [Lookup(l, key)] + Remove(l, key)
      else r == None && n == Remove(l, key)
  {
    RemoveLength(l, key);
    HasIff(l, key);
  }

  lemma IncludedGet(a: Index, cap: nat, b: Index, cap': nat, key: string, now: int, readOk: bool)
    requires Included(a, cap, b, cap')
    ensures var op := Get(key, now, readOk);
      && Included(Step(a, cap, op), cap, Step(b, cap', op), cap')
      && (Answer(a, op).Some? ==> Answer(b, op) == Answer(a, op))
  {
    GetShape(a, key, now, readOk, cap);
    GetShape(b, key, now, readOk, cap');
    IncludedRemove(a, cap, b, cap', key);
    StepBounded(a, cap, Get(key, now, readOk));
    StepBounded(b, cap', Get(key, now, readOk));
    RemoveLength(a, key);
    RemoveLength(b, key);
    if Has(a, key) {
      IncludedLookup(a, b, key);
      SubCons(Lookup(a, key), Remove(a, key), Remove(b, key));
    } else if Has(b, key) {
      SubSkip(Remove(a, key), Lookup(b, key), Remove(b, key));
    }
  }

  lemma IncludedStep(a: Index, cap: nat, b: Index, cap': nat, op: Op)
    requires Included(a, cap, b, cap')
    ensures Included(Step(a, cap, op), cap, Step(b, cap', op), cap')
    ensures Answer(a, op).Some? ==> Answer(b, op) == Answer(a, op)
  {
    match op
    case Get(key, now, readOk) => IncludedGet(a, cap, b, cap', key, now, readOk);
    case Set(meta, _) => IncludedInsert(a, cap, b, cap', meta);
    case Delete(key) => IncludedRemove(a, cap, b, cap', key);
    case Stat(key) =>
      if Has(a, key) {
        IncludedLookup(a, b, key);
      }
  }

  lemma {:induction false} RunsIncluded(cap: nat, cap': nat, ops: seq<Op>)
    requires cap <= cap'
    ensures Included(Run(cap, ops), cap, Run(cap', ops), cap')
  {
    if ops != [] {
      RunsIncluded(cap, cap', Before(ops));
      IncludedStep(Run(cap, Before(ops)), cap, Run(cap', Before(ops)), cap', Last(ops));
    }
  }

  /** A larger cache never misses where a smaller one hits, and answers with the same metadata. */
  lemma LargerNeverMisses(cap: nat, cap': nat, ops: seq<Op>, op: Op)
    requires cap <= cap'
    ensures Sub(Run(cap, ops), Run(cap', ops))
    ensures Answer(Run(cap, ops), op).Some? ==> Answer(Run(cap', ops), op) == Answer(Run(cap, ops), op)
  {
    RunsIncluded(cap, cap', ops);
    IncludedStep(Run(cap, ops), cap, Run(cap', ops), cap', op);
  }

  // ---- inclusion of whole caches ----

  /** One call with what its backend calls do. */
  datatype Call =
    | GetCall(key: string, now: int, readOk: bool)
    | SetCall(obj: Obj, write: WriteResult, evictOk: bool)
    | DeleteCall(key: string, deleteOk: bool)
    | StatCall(key: string)

  datatype Reply = Nothing | Body(obj: Obj) | Known(meta: Meta)

  function CallStep(s: LruCache.CacheState, cap: int, c: Call): LruCache.CacheState {
    match c
    case GetCall(key, now, readOk) => LruCache.GetResult(s, key, now, readOk).0
    case SetCall(obj, write, evictOk) => LruCache.SetResult(s, cap, obj.meta.key, obj, write, evictOk)
    case DeleteCall(key, deleteOk) => LruCache.DeleteResult(s, key, deleteOk)
    case StatCall(_) => s
  }

  function ReplyOf(s: LruCache.CacheState, c: Call): Reply {
    match c
    case GetCall(key, now, readOk) =>
      (match LruCache.GetResult(s, key, now, readOk).1
       case None => Nothing
       case Some(obj) => Body(obj))
    case StatCall(key) => if Has(s.index, key) then Known(Lookup(s.index, key)) else Nothing
    case _ => Nothing
  }

  /** The cache after a sequence of calls, from an empty index over some storage. */
  function After(cap: int, store: ObjectMap, calls: seq<Call>): LruCache.CacheState {
    if calls == [] then LruCache.CacheState([], store)
    else CallStep(After(cap, store, calls[..|calls| - 1]), cap, calls[|calls| - 1])
  }

  /** What the first cache has indexed, both hold alike. */
  ghost predicate SameObjects(l: Index, a: ObjectMap, b: ObjectMap) {
    forall k :: Has(l, k) ==> (k in a <==> k in b) && (k in a ==> a[k] == b[k])
  }

  ghost predicate Within(a: LruCache.CacheState, cap: nat, b: LruCache.CacheState, cap': nat) {
    Included(a.index, cap, b.index, cap') && SameObjects(a.index, a.store, b.store)
  }

  lemma WithinGet(a: LruCache.CacheState, cap: nat, b: LruCache.CacheState, cap': nat, key: string, now: int, readOk: bool)
    requires Within(a, cap, b, cap')
    ensures var c := GetCall(key, now, readOk);
      && Within(CallStep(a, cap, c), cap, CallStep(b, cap', c), cap')
      && (ReplyOf(a, c).Body? ==> ReplyOf(b, c) == ReplyOf(a, c))
  {
    var inA, inB := readOk && key in a.store, readOk && key in b.store;
    GetShape(a.index, key, now, inA, cap);
    GetShape(b.index, key, now, inB, cap');
    IncludedGet(a.index, cap, b.index, cap', key, now, inB);
    CallsAreSteps(a, cap, key, now, readOk, Obj([], Meta("", 0, 0, 0, map[])), Written, true);
    CallsAreSteps(b, cap', key, now, readOk, Obj([], Meta("", 0, 0, 0, map[])), Written, true);
    GetKeys(a.index, key, now, inA, cap);
    if Has(a.index, key) {
      IncludedLookup(a.index, b.index, key);
    }
  }

  /** Get indexes nothing new. */
  lemma GetKeys(l: Index, key: string, now: int, readOk: bool, cap: int)
    requires Distinct(l)
    ensures forall k :: Has(Step(l, cap, Get(key, now, readOk)), k) ==> Has(l, k)
    ensures !Has(l, key) ==> forall other :: Step(l, cap, Get(key, now, other)) == l
  {
    GetShape(l, key, now, readOk, cap);
    HasRemove(l, key);
    RemoveLength(l, key);
    if Has(l, key) {
      HasTouch(l, key);
    }
  }

  lemma WithinSet(a: LruCache.CacheState, cap: nat, b: LruCache.CacheState, cap': nat, obj: Obj, write: WriteResult, evictOk: bool)
    requires Within(a, cap, b, cap')
    ensures var c := SetCall(obj, write, evictOk); Within(CallStep(a, cap, c), cap, CallStep(b, cap', c), cap')
  {
    if write.Written? {
      IncludedInsert(a.index, cap, b.index, cap', obj.meta);
      InsertSpares(a.index, obj.meta, cap);
      InsertSpares(b.index, obj.meta, cap');
      forall k | Has(Insert(a.index, obj.meta, cap), k) ensures Has(Insert(b.index, obj.meta, cap'), k) {
        IncludedLookup(Insert(a.index, obj.meta, cap), Insert(b.index, obj.meta, cap'), k);
      }
    }
  }

  /** What is indexed after an insert was indexed before or is new, and has not been evicted. */
  lemma InsertSpares(l: Index, m: Meta, cap: int)
    requires Bounded(l, cap)
    ensures forall k :: Has(Insert(l, m, cap), k) ==> (k == m.key || Has(l, k)) && k !in LruCache.Evicted(l, m, cap)
  {
    if Has(l, m.key) {
      HasRemove(l, m.key);
      assert ([m] + Remove(l, m.key))[1..] == Remove(l, m.key);
    } else {
      LruCache.HasInsert(l, m, cap);
    }
  }

  lemma WithinStep(a: LruCache.CacheState, cap: nat, b: LruCache.CacheState, cap': nat, c: Call)
    requires Within(a, cap, b, cap')
    ensures Within(CallStep(a, cap, c), cap, CallStep(b, cap', c), cap')
    ensures ReplyOf(a, c) != Nothing ==> ReplyOf(b, c) == ReplyOf(a, c)
  {
    match c
    case GetCall(key, now, readOk) => WithinGet(a, cap, b, cap', key, now, readOk);
    case SetCall(obj, write, evictOk) => WithinSet(a, cap, b, cap', obj, write, evictOk);
    case DeleteCall(key, _) =>
      IncludedRemove(a.index, cap, b.index, cap', key);
      HasRemove(a.index, key);
    case StatCall(key) =>
      if Has(a.index, key) {
        IncludedLookup(a.index, b.index, key);
      }
  }

  lemma {:induction false} RunsWithin(cap: nat, cap': nat, store: ObjectMap, calls: seq<Call>)
    requires cap <= cap'
    ensures Within(After(cap, store, calls), cap, After(cap', store, calls), cap')
  {
    if calls != [] {
      RunsWithin(cap, cap', store, calls[..|calls| - 1]);
      WithinStep(After(cap, store, calls[..|calls| - 1]), cap, After(cap', store, calls[..|calls| - 1]), cap', calls[|calls| - 1]);
    }
  }

  /** For the same calls, the same storage to start with and the same failures of the backend, a larger cache
      indexes what a smaller one does, in the same order, and gives every answer the smaller one gives, with the same
      metadata and body. */
  lemma LargerAnswersAlike(cap: nat, cap': nat, store: ObjectMap, calls: seq<Call>, c: Call)
    requires cap <= cap'
    ensures var a, b := After(cap, store, calls), After(cap', store, calls);
      Sub(a.index, b.index) && (ReplyOf(a, c) != Nothing ==> ReplyOf(b, c) == ReplyOf(a, c))
  {
    RunsWithin(cap, cap', store, calls);
    WithinStep(After(cap, store, calls), cap, After(cap', store, calls), cap', c);
  }
}
