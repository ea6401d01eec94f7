/** When the lazy flush needs room: flushed entries that nobody has asked for again still take up slots. */
module LazyCapacity {
  import opened Objects
  import opened LruIndex
  import opened LruCache
  import opened Router
  import opened LazyFlush
  import F = FlushStore
  import K = CacheKey

  /** In every run over at most `room` keys, the lazy cache of this capacity answers like the eager one. */
  ghost predicate Refines(cap: int, room: int) {
    forall store: ObjectMap, rules, now, maxTtl, minAge, keys, events ::
      RulesOk(rules, now) && EventsOk(now, maxTtl, minAge, keys, events) && |keys| <= room && maxTtl <= minAge ==>
      SameReplies(cap, store, rules, events)
  }

  ghost predicate SameReplies(cap: int, store: ObjectMap, rules: F.Rules, events: seq<Event>) {
    LazyReplies(cap, Node(CacheState([], store), rules), events) == EagerReplies(cap, CacheState([], store), events)
  }

  // ---- keys of many domains ----

  function Unary(i: nat): string {
    seq(i, _ => 'a')
  }

  function Name(i: nat): string {
    K.Format(Unary(i), "/", "", "")
  }

  lemma NameParts(i: nat)
    ensures K.DomainOf(Name(i)) == Unary(i) && K.PathOf(Name(i)) == "/"
  {
    K.KeyReadsBack(Unary(i), "/", "", "");
  }

  lemma NamesDiffer(i: nat, j: nat)
    requires i != j
    ensures Name(i) != Name(j) && Unary(i) != Unary(j)
  {
    NameParts(i);
    NameParts(j);
    assert |Unary(i)| != |Unary(j)|;
  }

  function Names(n: nat): set<string> {
    set i | 0 <= i < n :: Name(i)
  }

  lemma {:induction false} NamesSize(n: nat)
    ensures |Names(n)| <= n
  {
    if n > 0 {
      NamesSize(n - 1);
      assert Names(n) == Names(n - 1) + {Name(n - 1)};
    }
  }

  // ---- filling the cache ----

  /** The request for key i at time `at`, with an empty body. */
  function Want(i: nat, at: int, ttl: int): Request {
    Request(Unary(i), "/", Name(i), at, at, at, Response([], ttl, map[]), NO_FAULTS)
  }

  function MetaOf(i: nat, at: int, ttl: int): Meta {
    Meta(Name(i), at, ttl, 0, map[])
  }

  function ObjOf(i: nat, at: int, ttl: int): Obj {
    Obj([], MetaOf(i, at, ttl))
  }

  /** The index after the keys below n have been asked for, each at its own time. */
  function Listed(n: nat, ttl: int): Index {
    if n == 0 then [] else [MetaOf(n - 1, n - 1, ttl)] + Listed(n - 1, ttl)
  }

  function Stored(n: nat, ttl: int): ObjectMap {
    if n == 0 then map[] else Stored(n - 1, ttl)[Name(n - 1) := ObjOf(n - 1, n - 1, ttl)]
  }

  function Filled(n: nat, ttl: int): CacheState {
    CacheState(Listed(n, ttl), Stored(n, ttl))
  }

  lemma {:induction false} ListedFacts(n: nat, ttl: int)
    ensures |Listed(n, ttl)| == n
    ensures forall k :: 0 <= k < n ==> Listed(n, ttl)[k] == MetaOf(n - 1 - k, n - 1 - k, ttl)
  {
    if n > 0 {
      ListedFacts(n - 1, ttl);
    }
  }

  lemma FilledFacts(n: nat, ttl: int)
    ensures |Listed(n, ttl)| == n && Distinct(Listed(n, ttl))
    ensures forall k :: 0 <= k < n ==> Listed(n, ttl)[k] == MetaOf(n - 1 - k, n - 1 - k, ttl)
  {
    ListedFacts(n, ttl);
    forall i, j | 0 <= i < j < n ensures Listed(n, ttl)[i].key != Listed(n, ttl)[j].key {
      NamesDiffer(n - 1 - i, n - 1 - j);
    }
  }

  lemma {:induction false} StoredFacts(n: nat, ttl: int, i: nat)
    requires i < n
    ensures Name(i) in Stored(n, ttl) && Stored(n, ttl)[Name(i)] == ObjOf(i, i, ttl)
  {
    if i < n - 1 {
      StoredFacts(n - 1, ttl, i);
      NamesDiffer(i, n - 1);
    }
  }

  lemma NotYetListed(n: nat, ttl: int, i: nat)
    requires i >= n
    ensures !Has(Listed(n, ttl), Name(i))
  {
    FilledFacts(n, ttl);
    HasIff(Listed(n, ttl), Name(i));
    forall m | m in Listed(n, ttl) ensures m.key != Name(i) {
      var k :| 0 <= k < n && Listed(n, ttl)[k] == m;
      NamesDiffer(n - 1 - k, i);
    }
  }

  /** A request for a key that is not indexed, with room for it. */
  lemma MissWithRoom(cap: int, c: CacheState, i: nat, at: int, ttl: int)
    requires Distinct(c.index) && !Has(c.index, Name(i)) && |c.index| < cap
    ensures GetOrFetchResult(cap, c, Want(i, at, ttl)) ==
      (CacheState([MetaOf(i, at, ttl)] + c.index, c.store[Name(i) := ObjOf(i, at, ttl)]), Served(ObjOf(i, at, ttl), true))
  {
    var q := Want(i, at, ttl);
    MissResult(cap, c, q);
    RemoveLength(c.index, Name(i));
    var store := c.store[Name(i) := ObjOf(i, at, ttl)];
    assert store - {} == store;
    assert c.(index := Remove(c.index, Name(i))) == c;
  }

  /** Both caches fill alike while there are no rules. */
  lemma FillOne(cap: int, i: nat, ttl: int)
    requires i < cap
    ensures LazyStep(cap, Node(Filled(i, ttl), map[]), Ask(Want(i, i, ttl))) == (Node(Filled(i + 1, ttl), map[]), [Served(ObjOf(i, i, ttl), true)])
    ensures EagerStep(cap, Filled(i, ttl), Ask(Want(i, i, ttl))) == (Filled(i + 1, ttl), [Served(ObjOf(i, i, ttl), true)])
  {
    FilledFacts(i, ttl);
    NotYetListed(i, ttl, i);
    MissWithRoom(cap, Filled(i, ttl), i, i, ttl);
  }

  /** Requests for the keys from i up to n, and then the rest. */
  function Filling(i: nat, n: nat, ttl: int, rest: seq<Event>): seq<Event>
    decreases n - i
  {
    if i >= n then rest else [Ask(Want(i, i, ttl))] + Filling(i + 1, n, ttl, rest)
  }

  lemma {:induction false} FillingDiffers(cap: int, i: nat, n: nat, ttl: int, rest: seq<Event>)
    requires i <= n <= cap
    requires LazyReplies(cap, Node(Filled(n, ttl), map[]), rest) != EagerReplies(cap, Filled(n, ttl), rest)
    ensures LazyReplies(cap, Node(Filled(i, ttl), map[]), Filling(i, n, ttl, rest)) !=
            EagerReplies(cap, Filled(i, ttl), Filling(i, n, ttl, rest))
    decreases n - i
  {
    if i < n {
      FillOne(cap, i, ttl);
      FillingDiffers(cap, i + 1, n, ttl, rest);
      var more, r := Filling(i + 1, n, ttl, rest), [Served(ObjOf(i, i, ttl), true)];
      assert Filling(i, n, ttl, rest)[1..] == more;
      var a, b := LazyReplies(cap, Node(Filled(i + 1, ttl), map[]), more), EagerReplies(cap, Filled(i + 1, ttl), more);
      assert (r + a)[1..] == a && (r + b)[1..] == b;
    }
  }

  lemma {:induction false} FillingOk(i: nat, n: nat, ttl: int, rest: seq<Event>, keys: set<string>, now: int)
    requires i <= n && Names(n) <= keys && now <= i && now < n
    requires forall t :: t < n ==> EventsOk(t, ttl, ttl, keys, rest)
    ensures EventsOk(now, ttl, ttl, keys, Filling(i, n, ttl, rest))
    decreases n - i
  {
    if i < n {
      NameParts(i);
      assert Name(i) in Names(n);
      FillingOk(i + 1, n, ttl, rest, keys, i);
      assert Filling(i, n, ttl, rest)[1..] == Filling(i + 1, n, ttl, rest);
    }
  }

  // ---- the overflow ----

  /** The rule covers the newest key; then a new key is asked for, and then the oldest. */
  function Overflowing(cap: nat, ttl: int): seq<Event>
    requires cap >= 2
  {
    [AddRule(1, Unary(cap - 1), "/", cap), Ask(Want(cap, cap, ttl)), Ask(Want(0, cap + 1, ttl))]
  }

  /** The index after one more key than fits. */
  function Overfull(cap: nat, ttl: int): Index {
    Evict([MetaOf(cap, cap, ttl)] + Listed(cap, ttl), cap)
  }

  lemma OverfullAt(cap: nat, ttl: int, k: nat)
    requires cap >= 2 && k < cap
    ensures |Overfull(cap, ttl)| == cap && Overfull(cap, ttl)[k].key == Name(cap - k)
  {
    FilledFacts(cap, ttl);
    var full := [MetaOf(cap, cap, ttl)] + Listed(cap, ttl);
    assert k > 0 ==> full[k] == Listed(cap, ttl)[k - 1];
  }

  lemma OldestIsOut(cap: nat, ttl: int)
    requires cap >= 2
    ensures Distinct(Overfull(cap, ttl)) && !Has(Overfull(cap, ttl), Name(0))
  {
    var l := Overfull(cap, ttl);
    OverfullAt(cap, ttl, 0);
    forall i, j | 0 <= i < j < |l| ensures l[i].key != l[j].key {
      OverfullAt(cap, ttl, i);
      OverfullAt(cap, ttl, j);
      NamesDiffer(cap - i, cap - j);
    }
    HasIff(l, Name(0));
    forall m | m in l ensures m.key != Name(0) {
      var k :| 0 <= k < |l| && l[k] == m;
      OverfullAt(cap, ttl, k);
      NamesDiffer(cap - k, 0);
    }
  }

  lemma LazyInserts(cap: nat, ttl: int, rules: F.Rules)
    requires cap >= 2
    ensures var (n, out) := LazyStep(cap, Node(Filled(cap, ttl), rules), Ask(Want(cap, cap, ttl)));
      n.rules == rules && n.cache.index == Overfull(cap, ttl) && out == [Served(ObjOf(cap, cap, ttl), true)]
  {
    var n := Node(Filled(cap, ttl), rules);
    FilledFacts(cap, ttl);
    NotYetListed(cap, ttl, cap);
    MissResult(cap, n.cache, Want(cap, cap, ttl));
    RemoveLength(n.cache.index, Name(cap));
  }

  lemma LazyMisses(cap: nat, ttl: int, n: Node)
    requires cap >= 2 && n.cache.index == Overfull(cap, ttl)
    ensures LazyStep(cap, n, Ask(Want(0, cap + 1, ttl))).1 == [Served(ObjOf(0, cap + 1, ttl), true)]
  {
    OldestIsOut(cap, ttl);
    MissResult(cap, n.cache, Want(0, cap + 1, ttl));
  }

  /** The lazy cache has evicted the oldest entry, because the flushed one still had its slot. */
  lemma LazyOverflows(cap: nat, ttl: int)
    requires cap >= 2
    ensures LazyReplies(cap, Node(Filled(cap, ttl), map[]), Overflowing(cap, ttl)) ==
      [Served(ObjOf(cap, cap, ttl), true), Served(ObjOf(0, cap + 1, ttl), true)]
  {
    var e := Overflowing(cap, ttl);
    var n0, n1 := Node(Filled(cap, ttl), map[]), Node(Filled(cap, ttl), F.AddTo(map[], F.Rule(1, Unary(cap - 1), "/", cap)));
    assert LazyStep(cap, n0, e[0]) == (n1, []);
    LazyInserts(cap, ttl, n1.rules);
    var (n2, _) := LazyStep(cap, n1, e[1]);
    LazyMisses(cap, ttl, n2);
    LazyThree(cap, n0, e[0], n1, e[1], n2, e[2]);
  }

  lemma LazyThree(cap: int, n0: Node, e0: Event, n1: Node, e1: Event, n2: Node, e2: Event)
    requires LazyStep(cap, n0, e0).0 == n1 && LazyStep(cap, n1, e1).0 == n2
    ensures LazyReplies(cap, n0, [e0, e1, e2]) == LazyStep(cap, n0, e0).1 + (LazyStep(cap, n1, e1).1 + LazyStep(cap, n2, e2).1)
  {
    assert [e0, e1, e2][1..] == [e1, e2] && [e1, e2][1..] == [e2];
    var (n3, out) := LazyStep(cap, n2, e2);
    assert LazyReplies(cap, n2, [e2]) == out + LazyReplies(cap, n3, []);
    assert LazyReplies(cap, n2, [e2]) == out;
    assert LazyReplies(cap, n1, [e1, e2]) == LazyStep(cap, n1, e1).1 + LazyReplies(cap, n2, [e2]);
  }

  /** Of the listed keys the rule covers the newest alone. */
  lemma {:induction false} NewestFlushed(n: nat, cap: nat, ttl: int)
    requires n < cap
    ensures Filter(Listed(n, ttl), Spared(Unary(cap - 1), "/")) == Listed(n, ttl)
  {
    if n > 0 {
      NewestFlushed(n - 1, cap, ttl);
      NameParts(n - 1);
      assert Listed(n, ttl)[1..] == Listed(n - 1, ttl);
      NamesDiffer(n - 1, cap - 1);
    }
  }

  lemma EagerInserts(cap: nat, ttl: int, c: CacheState)
    requires cap >= 2 && c.index == Listed(cap - 1, ttl)
    ensures EagerStep(cap, c, Ask(Want(cap, cap, ttl))) ==
      (CacheState([MetaOf(cap, cap, ttl)] + c.index, c.store[Name(cap) := ObjOf(cap, cap, ttl)]), [Served(ObjOf(cap, cap, ttl), true)])
  {
    FilledFacts(cap - 1, ttl);
    NotYetListed(cap - 1, ttl, cap);
    MissWithRoom(cap, c, cap, cap, ttl);
  }

  lemma EagerHits(cap: nat, ttl: int, c: CacheState)
    requires cap >= 2 && ttl > cap && c.index == [MetaOf(cap, cap, ttl)] + Listed(cap - 1, ttl)
    requires Name(0) in c.store && c.store[Name(0)] == ObjOf(0, 0, ttl)
    ensures EagerStep(cap, c, Ask(Want(0, cap + 1, ttl))).1 == [Served(ObjOf(0, 0, ttl), false)]
  {
    OldestIsIn(cap, ttl, c);
    HitResult(cap, c, Want(0, cap + 1, ttl));
  }

  /** The eager cache still has the oldest entry. */
  lemma EagerKeeps(cap: nat, ttl: int)
    requires cap >= 2 && ttl > cap
    ensures EagerReplies(cap, Filled(cap, ttl), Overflowing(cap, ttl)) ==
      [Served(ObjOf(cap, cap, ttl), true), Served(ObjOf(0, 0, ttl), false)]
  {
    var e := Overflowing(cap, ttl);
    var c1 := EagerAdd(Filled(cap, ttl), Unary(cap - 1), "/");
    AfterEagerAdd(cap, ttl);
    EagerInserts(cap, ttl, c1);
    var (c2, _) := EagerStep(cap, c1, e[1]);
    NamesDiffer(0, cap);
    EagerHits(cap, ttl, c2);
    assert EagerStep(cap, Filled(cap, ttl), e[0]) == (c1, []);
    EagerThree(cap, Filled(cap, ttl), e[0], c1, e[1], c2, e[2]);
  }

  lemma EagerThree(cap: int, c0: CacheState, e0: Event, c1: CacheState, e1: Event, c2: CacheState, e2: Event)
    requires EagerStep(cap, c0, e0).0 == c1 && EagerStep(cap, c1, e1).0 == c2
    ensures EagerReplies(cap, c0, [e0, e1, e2]) == EagerStep(cap, c0, e0).1 + (EagerStep(cap, c1, e1).1 + EagerStep(cap, c2, e2).1)
  {
    assert [e0, e1, e2][1..] == [e1, e2] && [e1, e2][1..] == [e2];
    var (c3, out) := EagerStep(cap, c2, e2);
    assert EagerReplies(cap, c2, [e2]) == out + EagerReplies(cap, c3, []);
    assert EagerReplies(cap, c2, [e2]) == out;
    assert EagerReplies(cap, c1, [e1, e2]) == EagerStep(cap, c1, e1).1 + EagerReplies(cap, c2, [e2]);
  }

  lemma AfterEagerAdd(cap: nat, ttl: int)
    requires cap >= 2
    ensures var c := EagerAdd(Filled(cap, ttl), Unary(cap - 1), "/");
      c.index == Listed(cap - 1, ttl) && Name(0) in c.store && c.store[Name(0)] == ObjOf(0, 0, ttl)
  {
    StoredFacts(cap, ttl, 0);
    NewestFlushed(cap - 1, cap, ttl);
    NameParts(cap - 1);
    NameParts(0);
    NamesDiffer(0, cap - 1);
    assert Listed(cap, ttl)[1..] == Listed(cap - 1, ttl);
    assert Covered(Unary(cap - 1), "/", Name(cap - 1)) && !Covered(Unary(cap - 1), "/", Name(0));
  }

  lemma OldestIsIn(cap: nat, ttl: int, c: CacheState)
    requires cap >= 2 && c.index == [MetaOf(cap, cap, ttl)] + Listed(cap - 1, ttl)
    ensures Distinct(c.index) && Has(c.index, Name(0)) && Lookup(c.index, Name(0)) == MetaOf(0, 0, ttl)
  {
    FilledFacts(cap - 1, ttl);
    NotYetListed(cap - 1, ttl, cap);
    NotHas(Listed(cap - 1, ttl), Name(cap));
    DistinctCons(MetaOf(cap, cap, ttl), Listed(cap - 1, ttl));
    assert c.index[cap - 1] == Listed(cap - 1, ttl)[cap - 2] == MetaOf(0, 0, ttl);
    LookupUnique(c.index, MetaOf(0, 0, ttl));
  }

  lemma OverflowingOk(cap: nat, ttl: int, now: int)
    requires cap >= 2 && now < cap
    ensures EventsOk(now, ttl, ttl, Names(cap + 1), Overflowing(cap, ttl))
  {
    var e := Overflowing(cap, ttl);
    NameParts(cap);
    NameParts(0);
    assert Name(cap) in Names(cap + 1) && Name(0) in Names(cap + 1);
    assert e[1..][1..] == [e[2]] && e[1..] == [e[1], e[2]] && [e[2]][1..] == [];
    assert EventsOk(cap, ttl, ttl, Names(cap + 1), [e[2]]);
    assert EventsOk(cap, ttl, ttl, Names(cap + 1), [e[1], e[2]]);
  }

  lemma OverflowingRunOk(cap: nat, ttl: int)
    requires cap >= 2
    ensures EventsOk(0, ttl, ttl, Names(cap + 1), Filling(0, cap, ttl, Overflowing(cap, ttl)))
  {
    var keys, rest := Names(cap + 1), Overflowing(cap, ttl);
    forall t | t < cap ensures EventsOk(t, ttl, ttl, keys, rest) {
      OverflowingOk(cap, ttl, t);
    }
    FillingOk(0, cap, ttl, rest, keys, 0);
  }

  lemma RepliesDiffer(cap: nat, ttl: int)
    requires cap >= 2 && ttl > cap
    ensures !SameReplies(cap, map[], map[], Filling(0, cap, ttl, Overflowing(cap, ttl)))
  {
    LazyOverflows(cap, ttl);
    EagerKeeps(cap, ttl);
    assert [Served(ObjOf(cap, cap, ttl), true), Served(ObjOf(0, cap + 1, ttl), true)][1] !=
           [Served(ObjOf(cap, cap, ttl), true), Served(ObjOf(0, 0, ttl), false)][1];
    FillingDiffers(cap, 0, cap, ttl, Overflowing(cap, ttl));
  }

  lemma OverflowIsNoticed(cap: nat)
    requires cap >= 2
    ensures !Refines(cap, cap + 1)
  {
    var ttl := cap + 1;
    OverflowingRunOk(cap, ttl);
    RepliesDiffer(cap, ttl);
    NamesSize(cap + 1);
    assert RulesOk(map[], 0);
  }

  /** The lazy cache answers like the eager one in all runs over so many keys exactly when they all fit, or when
      it holds at most one entry anyway. */
  lemma RoomExactly(cap: int, room: int)
    ensures Refines(cap, room) <==> room <= cap || cap <= 1
  {
    if room <= cap || cap <= 1 {
      forall store: ObjectMap, rules, now, maxTtl, minAge, keys, events |
        RulesOk(rules, now) && EventsOk(now, maxTtl, minAge, keys, events) && |keys| <= room && maxTtl <= minAge
        ensures SameReplies(cap, store, rules, events)
      {
        LazyFlushRefinesEager(cap, store, rules, now, maxTtl, minAge, keys, events);
      }
    } else {
      OverflowIsNoticed(cap);
    }
  }
}
