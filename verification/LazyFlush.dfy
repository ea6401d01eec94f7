/** The lazy flush refines a cache that deletes every covered entry at once. */
module LazyFlush {
  import opened Objects
  import opened LruIndex
  import opened LruCache
  import opened Router
  import F = FlushStore
  import K = CacheKey

  // ---- filtering an index ----

  function Filter(l: Index, p: Meta -> bool): Index {
    if l == [] then [] else if p(l[0]) then [l[0]] + Filter(l[1..], p) else Filter(l[1..], p)
  }

  lemma {:induction false} FilterMembers(l: Index, p: Meta -> bool)
    ensures forall m :: m in Filter(l, p) <==> m in l && p(m)
  {
    if l != [] {
      FilterMembers(l[1..], p);
      assert forall m :: m in l <==> m == l[0] || m in l[1..];
    }
  }

  lemma {:induction false} FilterNone(l: Index, p: Meta -> bool)
    requires forall m :: m in l ==> !p(m)
    ensures Filter(l, p) == []
  {
    if l != [] {
      assert l[0] in l;
      FilterNone(l[1..], p);
    }
  }

  lemma {:induction false} FilterDistinct(l: Index, p: Meta -> bool)
    requires Distinct(l)
    ensures Distinct(Filter(l, p))
    decreases |l|
  {
    if l != [] {
      DistinctTail(l);
      NotHas(l[1..], l[0].key);
      FilterDistinct(l[1..], p);
      FilterMembers(l[1..], p);
      if p(l[0]) {
        DistinctCons(l[0], Filter(l[1..], p));
      }
    }
  }

  lemma FilterHas(l: Index, key: string, p: Meta -> bool)
    requires Distinct(l)
    ensures Has(Filter(l, p), key) <==> Has(l, key) && p(Lookup(l, key))
    ensures Has(Filter(l, p), key) ==> Lookup(Filter(l, p), key) == Lookup(l, key)
  {
    FilterMembers(l, p);
    FilterDistinct(l, p);
    HasIff(l, key);
    HasIff(Filter(l, p), key);
    if Has(Filter(l, p), key) {
      LookupUnique(l, Lookup(Filter(l, p), key));
    }
    if Has(l, key) && p(Lookup(l, key)) {
      LookupUnique(Filter(l, p), Lookup(l, key));
    }
  }

  lemma {:induction false} FilterRemove(l: Index, key: string, p: Meta -> bool)
    requires Distinct(l)
    ensures Filter(Remove(l, key), p) == Remove(Filter(l, p), key)
    decreases |l|
  {
    if l != [] {
      DistinctTail(l);
      if l[0].key == key {
        FilterHas(l[1..], key, p);
        RemoveLength(Filter(l[1..], p), key);
        assert p(l[0]) ==> Filter(l, p)[1..] == Filter(l[1..], p);
      } else {
        FilterRemove(l[1..], key, p);
        assert Remove(l, key)[1..] == Remove(l[1..], key);
        assert p(l[0]) ==> Filter(l, p)[1..] == Filter(l[1..], p);
      }
    }
  }

  lemma {:induction false} FilterTwice(l: Index, p: Meta -> bool, q: Meta -> bool, both: Meta -> bool)
    requires forall m :: m in l ==> (both(m) <==> p(m) && q(m))
    ensures Filter(Filter(l, p), q) == Filter(l, both)
  {
    if l != [] {
      FilterTwice(l[1..], p, q, both);
      assert l[0] in l;
      assert p(l[0]) ==> Filter(l, p)[1..] == Filter(l[1..], p);
    }
  }

  lemma {:induction false} FilterSame(l: Index, p: Meta -> bool, q: Meta -> bool)
    requires forall m :: m in l ==> p(m) == q(m)
    ensures Filter(l, p) == Filter(l, q)
  {
    if l != [] {
      FilterSame(l[1..], p, q);
      assert l[0] in l;
    }
  }

  // ---- the two caches ----

  /** A stored rule covers the entry and is newer than it. */
  predicate Flushed(rules: F.Rules, m: Meta) {
    exists r :: r in F.Bucket(rules, K.DomainOf(m.key)) && F.Covers(r, K.PathOf(m.key)) && r.createdAt > m.writtenAt
  }

  function Servable(rules: F.Rules, now: int): Meta -> bool {
    (m: Meta) => !m.Expired(now) && !Flushed(rules, m)
  }

  function Unexpired(now: int): Meta -> bool {
    (m: Meta) => !m.Expired(now)
  }

  predicate Covered(domain: string, prefix: string, key: string) {
    K.DomainOf(key) == domain && prefix <= K.PathOf(key)
  }

  function Spared(domain: string, prefix: string): Meta -> bool {
    (m: Meta) => !Covered(domain, prefix, m.key)
  }

  /** The reference: AddRule deletes every covered entry, from the index and from storage. */
  function EagerAdd(c: CacheState, domain: string, prefix: string): CacheState {
    CacheState(Filter(c.index, Spared(domain, prefix)),
               map k | k in c.store && !Covered(domain, prefix, k) :: c.store[k])
  }

  datatype Event =
    | Ask(q: Request)
    | AddRule(id: int, domain: string, prefix: string, at: int)
    | Cleanup(maxAge: int, at: int)

  datatype Node = Node(cache: CacheState, rules: F.Rules)

  function LazyStep(cap: int, n: Node, e: Event): (Node, seq<Reply>) {
    match e
    case Ask(q) =>
      var (c, r) := ServeResult(cap, n.cache, n.rules, q);
      (n.(cache := c), [r.reply])
    case AddRule(id, domain, prefix, at) => (n.(rules := F.AddTo(n.rules, F.Rule(id, domain, prefix, at))), [])
    case Cleanup(maxAge, at) => (n.(rules := F.Cleaned(n.rules, at - maxAge)), [])
  }

  function EagerStep(cap: int, c: CacheState, e: Event): (CacheState, seq<Reply>) {
    match e
    case Ask(q) =>
      var (c', reply) := GetOrFetchResult(cap, c, q);
      (c', [reply])
    case AddRule(_, domain, prefix, _) => (EagerAdd(c, domain, prefix), [])
    case Cleanup(_, _) => (c, [])
  }

  function LazyReplies(cap: int, n: Node, events: seq<Event>): seq<Reply>
    decreases |events|
  {
    if events == [] then []
    else
      var (n', out) := LazyStep(cap, n, events[0]);
      out + LazyReplies(cap, n', events[1..])
  }

  function EagerReplies(cap: int, c: CacheState, events: seq<Event>): seq<Reply>
    decreases |events|
  {
    if events == [] then []
    else
      var (c', out) := EagerStep(cap, c, events[0]);
      out + EagerReplies(cap, c', events[1..])
  }

  function EndOf(e: Event): int {
    match e
    case Ask(q) => q.answerAt
    case AddRule(_, _, _, at) => at
    case Cleanup(_, at) => at
  }

  /** The clock does not go back, and a rule is younger than everything before it; the key
      reads back as the request's domain and path; no TTL exceeds `maxTtl`; no cleanup
      drops rules younger than `minAge`; only `keys` are asked for. */
  predicate EventOk(now: int, maxTtl: int, minAge: int, keys: set<string>, e: Event) {
    match e
    case Ask(q) =>
      && now <= q.getAt <= q.recheckAt <= q.answerAt
      && K.DomainOf(q.key) == q.domain && K.PathOf(q.key) == q.path
      && (q.origin.Response? ==> q.origin.ttl <= maxTtl) && q.key in keys
    case AddRule(_, _, _, at) => now < at
    case Cleanup(maxAge, at) => now <= at && minAge <= maxAge
  }

  predicate EventsOk(now: int, maxTtl: int, minAge: int, keys: set<string>, events: seq<Event>)
    decreases |events|
  {
    events == [] || (EventOk(now, maxTtl, minAge, keys, events[0]) && EventsOk(EndOf(events[0]), maxTtl, minAge, keys, events[1..]))
  }

  // ---- the refinement relation ----

  ghost predicate EntriesOk(c: CacheState, now: int, maxTtl: int, keys: set<string>) {
    Distinct(c.index) && forall m :: m in c.index ==>
      m.key in c.store && m.key in keys && m.writtenAt <= now && m.ttl <= maxTtl
  }

  ghost predicate RulesOk(rules: F.Rules, now: int) {
    forall d, r :: d in rules && r in rules[d] ==> r.createdAt <= now
  }

  /** What the lazy cache would serve is, entry by entry and in the same order, what the eager one holds. */
  ghost predicate Agree(n: Node, c: CacheState, now: int) {
    && Filter(n.cache.index, Servable(n.rules, now)) == Filter(c.index, Unexpired(now))
    && forall m :: m in c.index && !m.Expired(now) && m.key in c.store ==>
         m.key in n.cache.store && n.cache.store[m.key] == c.store[m.key]
  }

  ghost predicate Related(n: Node, c: CacheState, now: int, maxTtl: int, keys: set<string>) {
    EntriesOk(n.cache, now, maxTtl, keys) && EntriesOk(c, now, maxTtl, keys) && RulesOk(n.rules, now) && Agree(n, c, now)
  }

  lemma RelatedLater(n: Node, c: CacheState, now: int, later: int, maxTtl: int, keys: set<string>)
    requires Related(n, c, now, maxTtl, keys) && now <= later
    ensures Related(n, c, later, maxTtl, keys)
  {
    FilterTwice(n.cache.index, Servable(n.rules, now), Unexpired(later), Servable(n.rules, later));
    FilterTwice(c.index, Unexpired(now), Unexpired(later), Unexpired(later));
  }

  /** The flush check looks at the newest rule only, and that decides whether any rule flushes the entry. */
  lemma FlushDueIff(c: CacheState, rules: F.Rules, q: Request)
    requires K.DomainOf(q.key) == q.domain && K.PathOf(q.key) == q.path
    ensures FlushDue(c.index, rules, q) <==> Has(c.index, q.key) && Flushed(rules, Lookup(c.index, q.key))
  {
    F.NewestFacts(F.Bucket(rules, q.domain), q.path);
    HasIff(c.index, q.key);
  }

  lemma AddRuleRelated(n: Node, c: CacheState, now: int, maxTtl: int, keys: set<string>, r: F.Rule)
    requires Related(n, c, now, maxTtl, keys) && now < r.createdAt
    ensures Related(n.(rules := F.AddTo(n.rules, r)), EagerAdd(c, r.domain, r.prefix), r.createdAt, maxTtl, keys)
  {
    var at := r.createdAt;
    RelatedLater(n, c, now, at, maxTtl, keys);
    var rules', c' := F.AddTo(n.rules, r), EagerAdd(c, r.domain, r.prefix);
    var spared := Spared(r.domain, r.prefix);
    forall m | m in n.cache.index ensures Servable(rules', at)(m) <==> Servable(n.rules, at)(m) && spared(m) {
      FlushedAdd(n.rules, r, m);
    }
    FilterTwice(n.cache.index, Servable(n.rules, at), spared, Servable(rules', at));
    var left := (m: Meta) => spared(m) && !m.Expired(at);
    FilterTwice(c.index, spared, Unexpired(at), left);
    FilterTwice(c.index, Unexpired(at), spared, left);
    FilterMembers(c.index, spared);
    FilterDistinct(c.index, spared);
    assert EntriesOk(c', at, maxTtl, keys);
    assert RulesOk(rules', at);
  }

  lemma FlushedAdd(rules: F.Rules, r: F.Rule, m: Meta)
    requires m.writtenAt < r.createdAt
    ensures Flushed(F.AddTo(rules, r), m) <==> Flushed(rules, m) || Covered(r.domain, r.prefix, m.key)
  {
    var d, b, b' := K.DomainOf(m.key), F.Bucket(rules, K.DomainOf(m.key)), F.Bucket(F.AddTo(rules, r), K.DomainOf(m.key));
    if d == r.domain {
      assert b' == b + [r];
      assert forall x :: x in b' <==> x in b || x == r;
      if F.Covers(r, K.PathOf(m.key)) {
        assert r in b';
      }
    } else {
      assert b' == b;
    }
  }

  /** A rule is dropped only when everything it flushed has expired. */
  lemma CleanupRelated(n: Node, c: CacheState, now: int, maxTtl: int, keys: set<string>, maxAge: int, at: int)
    requires Related(n, c, now, maxTtl, keys) && now <= at && maxTtl <= maxAge
    ensures Related(n.(rules := F.Cleaned(n.rules, at - maxAge)), c, at, maxTtl, keys)
  {
    RelatedLater(n, c, now, at, maxTtl, keys);
    var rules' := F.Cleaned(n.rules, at - maxAge);
    forall m | m in n.cache.index ensures Servable(rules', at)(m) == Servable(n.rules, at)(m) {
      var d := K.DomainOf(m.key);
      F.YoungerFacts(F.Bucket(n.rules, d), at - maxAge);
      assert F.Bucket(rules', d) == F.Younger(F.Bucket(n.rules, d), at - maxAge);
      if !m.Expired(at) && Flushed(n.rules, m) {
        var r :| r in F.Bucket(n.rules, d) && F.Covers(r, K.PathOf(m.key)) && r.createdAt > m.writtenAt;
        assert r in F.Bucket(rules', d);
      }
    }
    FilterSame(n.cache.index, Servable(rules', at), Servable(n.rules, at));
    forall d, r: F.Rule | d in rules' && r in rules'[d] ensures r.createdAt <= at {
      F.YoungerFacts(n.rules[d], at - maxAge);
    }
  }

  // ---- one request ----

  /** An answer from the cache: the entry moves to the front, nothing else changes. */
  lemma HitResult(cap: int, c: CacheState, q: Request)
    requires Distinct(c.index) && q.faults.read
    requires Has(c.index, q.key) && !Lookup(c.index, q.key).Expired(q.getAt) && q.key in c.store
    ensures GetOrFetchResult(cap, c, q) ==
      (c.(index := Touch(c.index, q.key)), Served(Obj(c.store[q.key].body, Lookup(c.index, q.key)), false))
  {
  }

  /** What a missed request leaves in a cache from which its key is gone. */
  function Refilled(cap: int, c: CacheState, q: Request): CacheState {
    match q.origin
    case Unavailable => c
    case Response(_, _, _) => SetResult(c, cap, q.key, Answer(q), q.faults.write, q.faults.evict)
  }

  function MissReply(q: Request): Reply {
    if q.origin.Response? then Served(Answer(q), true) else BadGateway
  }

  /** A miss, or a failed read: the key leaves the index, and the origin's answer, if any, is stored. */
  lemma MissResult(cap: int, c: CacheState, q: Request)
    requires Distinct(c.index)
    requires Has(c.index, q.key) ==> Lookup(c.index, q.key).Expired(q.getAt) || !q.faults.read
    ensures GetOrFetchResult(cap, c, q) == (Refilled(cap, c.(index := Remove(c.index, q.key)), q), MissReply(q))
  {
    RemoveLength(c.index, q.key);
    HasRemove(c.index, q.key);
    HitTwice(c, q);
    if Has(c.index, q.key) {
      HasIff(c.index, q.key);
      assert Touch(c.index, q.key)[1..] == Remove(c.index, q.key);
    }
  }

  /** The cache once the key is out, whether by the flush check or by the Get. */
  function Vacated(n: Node, q: Request): CacheState {
    CacheState(Remove(n.cache.index, q.key), AfterFlushCheck(n.cache, n.rules, q).store)
  }

  /** The flush check before a miss only takes the key out earlier. */
  lemma LazyMissResult(cap: int, n: Node, q: Request)
    requires Distinct(n.cache.index)
    requires Has(n.cache.index, q.key) ==>
      Lookup(n.cache.index, q.key).Expired(q.getAt) || FlushDue(n.cache.index, n.rules, q) || !q.faults.read
    ensures var (c, r) := ServeResult(cap, n.cache, n.rules, q);
      r.reply == MissReply(q) && c == Refilled(cap, Vacated(n, q), q)
    ensures Kept(n.cache, Vacated(n, q), q.key)
  {
    var c1 := AfterFlushCheck(n.cache, n.rules, q);
    RemoveDistinct(n.cache.index, q.key);
    HasRemove(n.cache.index, q.key);
    RemoveLength(c1.index, q.key);
    MissResult(cap, c1, q);
  }

  /** Nothing but the key's object differs. */
  ghost predicate Kept(c: CacheState, c': CacheState, key: string) {
    forall k :: k != key ==> (k in c'.store <==> k in c.store) && (k in c'.store ==> c'.store[k] == c.store[k])
  }

  lemma {:induction false} DistinctSize(l: Index, keys: set<string>)
    requires Distinct(l) && forall m :: m in l ==> m.key in keys
    ensures |l| <= |keys|
    decreases |l|
  {
    if l != [] {
      DistinctTail(l);
      NotHas(l[1..], l[0].key);
      DistinctSize(l[1..], keys - {l[0].key});
    }
  }

  /** The lists after a request put the same entry in front of what is left of the old ones. */
  lemma FrontFiltered(l: Index, key: string, m: Meta, p: Meta -> bool)
    requires Distinct(l)
    ensures Filter([m] + Remove(l, key), p) == (if p(m) then [m] else []) + Remove(Filter(l, p), key)
  {
    FilterRemove(l, key, p);
    assert ([m] + Remove(l, key))[1..] == Remove(l, key);
  }

  lemma FrontMembers(l: Index, key: string, m: Meta)
    requires Distinct(l) && m.key == key
    ensures Distinct([m] + Remove(l, key))
    ensures forall x :: x in [m] + Remove(l, key) <==> x == m || (x in l && x.key != key)
  {
    RemoveMembers(l, key);
    RemoveDistinct(l, key);
    DistinctCons(m, Remove(l, key));
  }

  ghost predicate CanAsk(n: Node, c: CacheState, now: int, maxTtl: int, minAge: int, keys: set<string>, q: Request) {
    Related(n, c, now, maxTtl, keys) && EventOk(now, maxTtl, minAge, keys, Ask(q)) && q.getAt == now
  }

  /** Both caches serve the entry. */
  lemma AskHitRelated(cap: int, n: Node, c: CacheState, now: int, maxTtl: int, minAge: int, keys: set<string>, q: Request)
    requires CanAsk(n, c, now, maxTtl, minAge, keys, q)
    requires Has(Filter(c.index, Unexpired(now)), q.key) && q.faults.read
    ensures var (n', out) := LazyStep(cap, n, Ask(q)); var (c', out') := EagerStep(cap, c, Ask(q));
      out == out' && Related(n', c', q.answerAt, maxTtl, keys)
  {
    FilterHas(n.cache.index, q.key, Servable(n.rules, now));
    FilterHas(c.index, q.key, Unexpired(now));
    FlushDueIff(n.cache, n.rules, q);
    var m := Lookup(c.index, q.key);
    HasIff(c.index, q.key);
    HasIff(n.cache.index, q.key);
    HitResult(cap, c, q);
    HitResult(cap, n.cache, q);
    var n', c' := n.(cache := n.cache.(index := [m] + Remove(n.cache.index, q.key))), c.(index := [m] + Remove(c.index, q.key));
    assert LazyStep(cap, n, Ask(q)).0 == n' && EagerStep(cap, c, Ask(q)).0 == c';
    TouchedRelated(n, c, now, maxTtl, keys, m);
    RelatedLater(n', c', now, q.answerAt, maxTtl, keys);
  }

  /** Moving an entry that both can serve to the front keeps the relation. */
  lemma TouchedRelated(n: Node, c: CacheState, now: int, maxTtl: int, keys: set<string>, m: Meta)
    requires Related(n, c, now, maxTtl, keys) && m in n.cache.index && m in c.index
    requires Servable(n.rules, now)(m)
    ensures Related(n.(cache := n.cache.(index := [m] + Remove(n.cache.index, m.key))), c.(index := [m] + Remove(c.index, m.key)),
      now, maxTtl, keys)
  {
    FrontFiltered(n.cache.index, m.key, m, Servable(n.rules, now));
    FrontFiltered(c.index, m.key, m, Unexpired(now));
    FrontMembers(n.cache.index, m.key, m);
    FrontMembers(c.index, m.key, m);
  }

  /** Giving up a key in both caches keeps the relation. */
  lemma VacatedRelated(n: Node, c: CacheState, now: int, maxTtl: int, keys: set<string>, key: string, a: CacheState, b: CacheState)
    requires Related(n, c, now, maxTtl, keys) && Kept(n.cache, a, key) && Kept(c, b, key)
    requires a.index == Remove(n.cache.index, key) && b.index == Remove(c.index, key)
    ensures Related(n.(cache := a), b, now, maxTtl, keys) && !Has(a.index, key) && !Has(b.index, key)
  {
    RemoveMembers(n.cache.index, key);
    RemoveMembers(c.index, key);
    RemoveDistinct(n.cache.index, key);
    RemoveDistinct(c.index, key);
    HasRemove(n.cache.index, key);
    HasRemove(c.index, key);
    FilterRemove(n.cache.index, key, Servable(n.rules, now));
    FilterRemove(c.index, key, Unexpired(now));
  }

  /** Neither cache serves the entry: both go to the origin. */
  lemma AskMissRelated(cap: int, n: Node, c: CacheState, now: int, maxTtl: int, minAge: int, keys: set<string>, q: Request)
    requires CanAsk(n, c, now, maxTtl, minAge, keys, q) && (|keys| <= cap || cap <= 1)
    requires !Has(Filter(c.index, Unexpired(now)), q.key) || !q.faults.read
    ensures var (n', out) := LazyStep(cap, n, Ask(q)); var (c', out') := EagerStep(cap, c, Ask(q));
      out == out' && Related(n', c', q.answerAt, maxTtl, keys)
  {
    FilterHas(n.cache.index, q.key, Servable(n.rules, now));
    FilterHas(c.index, q.key, Unexpired(now));
    FlushDueIff(n.cache, n.rules, q);
    MissResult(cap, c, q);
    LazyMissResult(cap, n, q);
    var a, b := Vacated(n, q), c.(index := Remove(c.index, q.key));
    RelatedLater(n, c, now, q.answerAt, maxTtl, keys);
    VacatedRelated(n, c, q.answerAt, maxTtl, keys, q.key, a, b);
    RefilledRelated(cap, n.(cache := a), b, maxTtl, keys, q);
  }

  /** Both caches store the same answer, or neither does. */
  lemma RefilledRelated(cap: int, n: Node, c: CacheState, maxTtl: int, keys: set<string>, q: Request)
    requires Related(n, c, q.answerAt, maxTtl, keys) && !Has(n.cache.index, q.key) && !Has(c.index, q.key)
    requires q.key in keys && (q.origin.Response? ==> q.origin.ttl <= maxTtl) && (|keys| <= cap || cap <= 1)
    ensures Related(n.(cache := Refilled(cap, n.cache, q)), Refilled(cap, c, q), q.answerAt, maxTtl, keys)
  {
    if q.origin.Response? {
      NotHas(n.cache.index, q.key);
      NotHas(c.index, q.key);
      if !q.faults.write.Written? {
        UnindexedRelated(n, c, q.answerAt, maxTtl, keys, q.key, Refilled(cap, n.cache, q), Refilled(cap, c, q));
      } else if |keys| <= cap {
        InsertedRelated(cap, n, c, maxTtl, keys, q);
      } else {
        SingleRelated(cap, n, c, maxTtl, keys, q);
      }
    }
  }

  /** Writing under a key that is not indexed keeps the relation. */
  lemma UnindexedRelated(n: Node, c: CacheState, now: int, maxTtl: int, keys: set<string>, key: string, a: CacheState, b: CacheState)
    requires Related(n, c, now, maxTtl, keys) && Kept(n.cache, a, key) && Kept(c, b, key)
    requires a.index == n.cache.index && b.index == c.index
    requires (forall m :: m in n.cache.index ==> m.key != key) && forall m :: m in c.index ==> m.key != key
    ensures Related(n.(cache := a), b, now, maxTtl, keys)
  {
  }

  /** With room for all keys nothing is evicted. */
  lemma RoomyRefill(cap: int, c: CacheState, at: int, maxTtl: int, keys: set<string>, q: Request)
    requires EntriesOk(c, at, maxTtl, keys) && q.key in keys && |keys| <= cap && !Has(c.index, q.key)
    requires q.origin.Response? && q.faults.write.Written?
    ensures Refilled(cap, c, q) == CacheState([Answer(q).meta] + c.index, c.store[q.key := Answer(q)])
  {
    RoomFor(c.index, q.key, keys);
    RemoveLength(c.index, q.key);
    var store := c.store[q.key := Answer(q)];
    assert store - {} == store;
    assert Insert(c.index, Answer(q).meta, cap) == [Answer(q).meta] + c.index;
  }

  lemma FrontOk(c: CacheState, maxTtl: int, keys: set<string>, q: Request)
    requires EntriesOk(c, q.answerAt, maxTtl, keys) && q.key in keys && !Has(c.index, q.key)
    requires q.origin.Response? && q.origin.ttl <= maxTtl
    ensures EntriesOk(CacheState([Answer(q).meta] + c.index, c.store[q.key := Answer(q)]), q.answerAt, maxTtl, keys)
  {
    NotHas(c.index, q.key);
    DistinctCons(Answer(q).meta, c.index);
  }

  lemma InsertedRelated(cap: int, n: Node, c: CacheState, maxTtl: int, keys: set<string>, q: Request)
    requires Related(n, c, q.answerAt, maxTtl, keys) && !Has(n.cache.index, q.key) && !Has(c.index, q.key)
    requires q.key in keys && |keys| <= cap && q.origin.Response? && q.origin.ttl <= maxTtl && q.faults.write.Written?
    ensures Related(n.(cache := Refilled(cap, n.cache, q)), Refilled(cap, c, q), q.answerAt, maxTtl, keys)
  {
    var m, at := Answer(q).meta, q.answerAt;
    RoomyRefill(cap, n.cache, at, maxTtl, keys, q);
    RoomyRefill(cap, c, at, maxTtl, keys, q);
    FrontOk(n.cache, maxTtl, keys, q);
    FrontOk(c, maxTtl, keys, q);
    RemoveLength(n.cache.index, q.key);
    RemoveLength(c.index, q.key);
    FrontFiltered(n.cache.index, q.key, m, Servable(n.rules, at));
    FrontFiltered(c.index, q.key, m, Unexpired(at));
    assert !Flushed(n.rules, m);
    FilterRemove(n.cache.index, q.key, Servable(n.rules, at));
    FilterRemove(c.index, q.key, Unexpired(at));
  }

  /** A cache for at most one entry keeps just the new one, or nothing. */
  lemma SingleRefill(cap: int, c: CacheState, maxTtl: int, keys: set<string>, q: Request)
    requires EntriesOk(c, q.answerAt, maxTtl, keys) && q.key in keys && cap <= 1 && !Has(c.index, q.key)
    requires q.origin.Response? && q.origin.ttl <= maxTtl && q.faults.write.Written?
    ensures var c' := Refilled(cap, c, q);
      && c'.index == (if cap == 1 then [Answer(q).meta] else [])
      && (cap == 1 ==> q.key in c'.store && c'.store[q.key] == Answer(q))
      && EntriesOk(c', q.answerAt, maxTtl, keys)
  {
    NotHas(c.index, q.key);
    var full := [Answer(q).meta] + c.index;
    assert cap == 1 ==> full[Keep(cap)..] == c.index;
  }

  lemma SingleRelated(cap: int, n: Node, c: CacheState, maxTtl: int, keys: set<string>, q: Request)
    requires Related(n, c, q.answerAt, maxTtl, keys) && !Has(n.cache.index, q.key) && !Has(c.index, q.key)
    requires q.key in keys && cap <= 1 && q.origin.Response? && q.origin.ttl <= maxTtl && q.faults.write.Written?
    ensures Related(n.(cache := Refilled(cap, n.cache, q)), Refilled(cap, c, q), q.answerAt, maxTtl, keys)
  {
    SingleRefill(cap, n.cache, maxTtl, keys, q);
    SingleRefill(cap, c, maxTtl, keys, q);
    assert !Flushed(n.rules, Answer(q).meta);
    if cap == 1 {
      assert [Answer(q).meta][1..] == [];
    }
  }

  /** An index over `keys` has a free slot for one of them once its entry is out. */
  lemma RoomFor(l: Index, key: string, keys: set<string>)
    requires Distinct(l) && key in keys && forall m :: m in l ==> m.key in keys
    ensures |l| <= |keys| && |Remove(l, key)| < |keys|
  {
    DistinctSize(l, keys);
    RemoveMembers(l, key);
    RemoveDistinct(l, key);
    DistinctSize(Remove(l, key), keys - {key});
  }

  lemma StepRelated(cap: int, n: Node, c: CacheState, now: int, maxTtl: int, minAge: int, keys: set<string>, e: Event)
    requires Related(n, c, now, maxTtl, keys) && EventOk(now, maxTtl, minAge, keys, e)
    requires (|keys| <= cap || cap <= 1) && maxTtl <= minAge
    ensures var (n', out) := LazyStep(cap, n, e); var (c', out') := EagerStep(cap, c, e);
      out == out' && Related(n', c', EndOf(e), maxTtl, keys)
  {
    match e
    case Ask(q) =>
      RelatedLater(n, c, now, q.getAt, maxTtl, keys);
      if Has(Filter(c.index, Unexpired(q.getAt)), q.key) && q.faults.read {
        AskHitRelated(cap, n, c, q.getAt, maxTtl, minAge, keys, q);
      } else {
        AskMissRelated(cap, n, c, q.getAt, maxTtl, minAge, keys, q);
      }
    case AddRule(id, domain, prefix, at) => AddRuleRelated(n, c, now, maxTtl, keys, F.Rule(id, domain, prefix, at));
    case Cleanup(maxAge, at) => CleanupRelated(n, c, now, maxTtl, keys, maxAge, at);
  }

  lemma {:induction false} RelatedRepliesAgree(cap: int, n: Node, c: CacheState, now: int, maxTtl: int, minAge: int,
    keys: set<string>, events: seq<Event>)
    requires Related(n, c, now, maxTtl, keys) && EventsOk(now, maxTtl, minAge, keys, events)
    requires (|keys| <= cap || cap <= 1) && maxTtl <= minAge
    ensures LazyReplies(cap, n, events) == EagerReplies(cap, c, events)
    decreases |events|
  {
    if events != [] {
      StepRelated(cap, n, c, now, maxTtl, minAge, keys, events[0]);
      var (n', _) := LazyStep(cap, n, events[0]);
      var (c', _) := EagerStep(cap, c, events[0]);
      RelatedRepliesAgree(cap, n', c', EndOf(events[0]), maxTtl, minAge, keys, events[1..]);
    }
  }

  /** Whatever reads, writes and deletes of the backend fail, every request gets the same answer (hit or fetch,
      body and metadata) from the lazy cache as from one that deletes every covered entry at each AddRule, as
      long as the cache has room for the keys asked for, or for at most one entry, and cleanups keep rules at
      least as long as any entry can live. */
  lemma LazyFlushRefinesEager(cap: int, store: ObjectMap, rules: F.Rules, now: int, maxTtl: int, minAge: int,
    keys: set<string>, events: seq<Event>)
    requires RulesOk(rules, now) && EventsOk(now, maxTtl, minAge, keys, events)
    requires (|keys| <= cap || cap <= 1) && maxTtl <= minAge
    ensures LazyReplies(cap, Node(CacheState([], store), rules), events) == EagerReplies(cap, CacheState([], store), events)
  {
    RelatedRepliesAgree(cap, Node(CacheState([], store), rules), CacheState([], store), now, maxTtl, minAge, keys, events);
  }

  // ---- every run ----

  function LazyRun(cap: int, n: Node, events: seq<Event>): Node
    decreases |events|
  {
    if events == [] then n else LazyRun(cap, LazyStep(cap, n, events[0]).0, events[1..])
  }

  /** Requests keep the index in order, whatever fails. */
  lemma ServeBounded(cap: int, c: CacheState, rules: F.Rules, q: Request)
    requires Bounded(c.index, cap)
    ensures Bounded(ServeResult(cap, c, rules, q).0.index, cap)
  {
    RemoveDistinct(c.index, q.key);
    RemoveLength(c.index, q.key);
    GetOrFetchBounded(cap, AfterFlushCheck(c, rules, q), q);
  }

  lemma GetOrFetchBounded(cap: int, c: CacheState, q: Request)
    requires Bounded(c.index, cap)
    ensures Bounded(GetOrFetchResult(cap, c, q).0.index, cap)
  {
    GetBounded(cap, c, q.key, q.getAt, q.faults.read);
    var c1 := GetResult(c, q.key, q.getAt, q.faults.read).0;
    GetBounded(cap, c1, q.key, q.recheckAt, q.faults.reread);
    var c2 := GetResult(c1, q.key, q.recheckAt, q.faults.reread).0;
    if q.origin.Response? {
      SetBounded(cap, c2, q.key, Answer(q), q.faults.write, q.faults.evict);
    }
  }

  lemma SetBounded(cap: int, c: CacheState, key: string, obj: Obj, w: WriteResult, evictOk: bool)
    requires Bounded(c.index, cap)
    ensures Bounded(SetResult(c, cap, key, obj, w, evictOk).index, cap)
  {
    InsertFacts(c.index, obj.meta, cap);
  }

  lemma GetBounded(cap: int, c: CacheState, key: string, now: int, readOk: bool)
    requires Bounded(c.index, cap)
    ensures Bounded(GetResult(c, key, now, readOk).0.index, cap)
  {
    CheckFacts(c.index, key, now);
    RemoveDistinct(Check(c.index, key, now).index, key);
    RemoveLength(Check(c.index, key, now).index, key);
  }

  lemma {:induction false} RunBounded(cap: int, n: Node, events: seq<Event>)
    requires Bounded(n.cache.index, cap)
    ensures Bounded(LazyRun(cap, n, events).cache.index, cap)
    decreases |events|
  {
    if events != [] {
      if events[0].Ask? {
        ServeBounded(cap, n.cache, n.rules, events[0].q);
      }
      RunBounded(cap, LazyStep(cap, n, events[0]).0, events[1..]);
    }
  }

  /** After any run of requests, rules and cleanups, with any faults and any clock readings, the next request is
      either answered by its own fetch or by an unexpired entry no older than any stored rule that covers it. */
  lemma ServedIsFreshInEveryRun(cap: int, store: ObjectMap, rules: F.Rules, events: seq<Event>, q: Request)
    requires q.getAt <= q.recheckAt
    ensures var n := LazyRun(cap, Node(CacheState([], store), rules), events);
      var reply := ServeResult(cap, n.cache, n.rules, q).1.reply;
      reply.Served? && !reply.fetched ==>
        && reply.obj.meta.key == q.key && q.getAt <= reply.obj.meta.ExpiresAt()
        && (q.getAt > reply.obj.meta.writtenAt ==> reply.obj.meta.ttl > 0)
        && forall r :: r in F.Bucket(n.rules, q.domain) && F.Covers(r, q.path) ==> r.createdAt <= reply.obj.meta.writtenAt
  {
    RunBounded(cap, Node(CacheState([], store), rules), events);
    var n := LazyRun(cap, Node(CacheState([], store), rules), events);
    ServedIsFresh(cap, n.cache, n.rules, q);
  }

  // ---- when cleanup is safe ----

  ghost predicate CleanupSafe(maxTtl: int, minAge: int) {
    forall cap: int, store: ObjectMap, now: int, keys: set<string>, events: seq<Event> ::
      EventsOk(now, maxTtl, minAge, keys, events) && |keys| <= cap ==>
      LazyReplies(cap, Node(CacheState([], store), map[]), events) == EagerReplies(cap, CacheState([], store), events)
  }

  function Plain(key: string, at: int, ttl: int): Event {
    Ask(Request(K.DomainOf(key), K.PathOf(key), key, at, at, at, Response([], ttl, map[]), NO_FAULTS))
  }

  /** An entry that outlives the rules: fetch it, flush it, drop the rule, and it is served again. */
  function Resurrection(key: string, ttl: int, age: int): seq<Event> {
    [Plain(key, 0, ttl), AddRule(1, K.DomainOf(key), K.PathOf(key), 1), Cleanup(age, 1 + age), Plain(key, 1 + age, ttl)]
  }

  lemma ResurrectionOk(key: string, ttl: int, age: int)
    requires 0 <= age
    ensures EventsOk(0, ttl, age, {key}, Resurrection(key, ttl, age))
  {
    var events := Resurrection(key, ttl, age);
    assert events[1..][1..] == events[2..] && events[2..][1..] == events[3..] && events[3..][1..] == [];
    assert EventsOk(1 + age, ttl, age, {key}, events[3..]);
    assert EventsOk(1, ttl, age, {key}, events[2..]);
    assert EventsOk(0, ttl, age, {key}, events[1..]);
  }

  /** The lazy cache answers both requests with the first object. */
  lemma LazyResurrects(key: string, ttl: int, age: int)
    requires 0 <= age < ttl
    ensures var obj := Obj([], Meta(key, 0, ttl, 0, map[]));
      LazyReplies(1, Node(CacheState([], map[]), map[]), Resurrection(key, ttl, age)) == [Served(obj, true), Served(obj, false)]
  {
    var c0, m := CacheState([], map[]), Meta(key, 0, ttl, 0, map[]);
    var c1 := CacheState([m], map[key := Obj([], m)]);
    var r := F.Rule(1, K.DomainOf(key), K.PathOf(key), 1);
    var e := Resurrection(key, ttl, age);
    FetchOne(key, 0, ttl, c0);
    assert F.Younger([r], 1) == [];
    assert F.Cleaned(F.AddTo(map[], r), 1) == map[];
    var n0, n1, n2, n3 := Node(c0, map[]), Node(c1, map[]), Node(c1, F.AddTo(map[], r)), Node(c1, map[]);
    assert LazyStep(1, n0, e[0]) == (n1, [Served(Obj([], m), true)]);
    assert LazyStep(1, n1, e[1]) == (n2, []);
    assert LazyStep(1, n2, e[2]) == (n3, []);
    assert LazyStep(1, n3, e[3]).1 == [Served(Obj([], m), false)];
    LazyFour(1, n0, e[0], n1, e[1], n2, e[2], n3, e[3]);
  }

  /** The eager cache fetches twice. */
  lemma EagerRefetches(key: string, ttl: int, age: int)
    requires 0 <= age < ttl
    ensures var obj, again := Obj([], Meta(key, 0, ttl, 0, map[])), Obj([], Meta(key, 1 + age, ttl, 0, map[]));
      EagerReplies(1, CacheState([], map[]), Resurrection(key, ttl, age)) == [Served(obj, true), Served(again, true)]
  {
    var c0, m := CacheState([], map[]), Meta(key, 0, ttl, 0, map[]);
    var c1 := CacheState([m], map[key := Obj([], m)]);
    var d, p, e := K.DomainOf(key), K.PathOf(key), Resurrection(key, ttl, age);
    FetchOne(key, 0, ttl, c0);
    var c2 := EagerAdd(c1, d, p);
    assert Covered(d, p, key);
    FilterNone(c1.index, Spared(d, p));
    assert forall k :: k !in c2.store;
    assert c2.store == map[];
    FetchOne(key, 1 + age, ttl, c2);
    assert EagerStep(1, c0, e[0]) == (c1, [Served(Obj([], m), true)]);
    EagerFour(1, c0, e[0], c1, e[1], c2, e[2], c2, e[3]);
  }

  lemma CleanupResurrects(maxTtl: int, minAge: int)
    requires 0 <= minAge < maxTtl
    ensures !CleanupSafe(maxTtl, minAge)
  {
    var key := "a:/?#";
    ResurrectionOk(key, maxTtl, minAge);
    LazyResurrects(key, maxTtl, minAge);
    EagerRefetches(key, maxTtl, minAge);
    assert |{key}| <= 1;
  }

  lemma FetchOne(key: string, at: int, ttl: int, c: CacheState)
    requires c.index == []
    ensures var q := Plain(key, at, ttl).q; var m := Meta(key, at, ttl, 0, map[]);
      Answer(q) == Obj([], m)
      && GetOrFetchResult(1, c, q) == (CacheState([m], c.store[key := Obj([], m)]), Served(Obj([], m), true))
  {
    var q := Plain(key, at, ttl).q;
    MissResult(1, c, q);
    RoomyRefill(1, c, at, ttl, {key}, q);
    assert c.(index := Remove(c.index, key)) == c;
    assert [Answer(q).meta] + c.index == [Answer(q).meta];
  }

  lemma LazyFour(cap: int, n0: Node, e0: Event, n1: Node, e1: Event, n2: Node, e2: Event, n3: Node, e3: Event)
    requires LazyStep(cap, n0, e0).0 == n1 && LazyStep(cap, n1, e1).0 == n2 && LazyStep(cap, n2, e2).0 == n3
    ensures LazyReplies(cap, n0, [e0, e1, e2, e3]) ==
      LazyStep(cap, n0, e0).1 + (LazyStep(cap, n1, e1).1 + (LazyStep(cap, n2, e2).1 + LazyStep(cap, n3, e3).1))
  {
    assert [e0, e1, e2, e3][1..] == [e1, e2, e3] && [e1, e2, e3][1..] == [e2, e3] && [e2, e3][1..] == [e3];
    var (n4, out) := LazyStep(cap, n3, e3);
    assert LazyReplies(cap, n3, [e3]) == out + LazyReplies(cap, n4, []);
    assert LazyReplies(cap, n3, [e3]) == out;
    assert LazyReplies(cap, n2, [e2, e3]) == LazyStep(cap, n2, e2).1 + LazyReplies(cap, n3, [e3]);
    assert LazyReplies(cap, n1, [e1, e2, e3]) == LazyStep(cap, n1, e1).1 + LazyReplies(cap, n2, [e2, e3]);
  }

  lemma EagerFour(cap: int, c0: CacheState, e0: Event, c1: CacheState, e1: Event, c2: CacheState, e2: Event, c3: CacheState, e3: Event)
    requires EagerStep(cap, c0, e0).0 == c1 && EagerStep(cap, c1, e1).0 == c2 && EagerStep(cap, c2, e2).0 == c3
    ensures EagerReplies(cap, c0, [e0, e1, e2, e3]) ==
      EagerStep(cap, c0, e0).1 + (EagerStep(cap, c1, e1).1 + (EagerStep(cap, c2, e2).1 + EagerStep(cap, c3, e3).1))
  {
    assert [e0, e1, e2, e3][1..] == [e1, e2, e3] && [e1, e2, e3][1..] == [e2, e3] && [e2, e3][1..] == [e3];
    var (c4, out) := EagerStep(cap, c3, e3);
    assert EagerReplies(cap, c3, [e3]) == out + EagerReplies(cap, c4, []);
    assert EagerReplies(cap, c3, [e3]) == out;
    assert EagerReplies(cap, c2, [e2, e3]) == EagerStep(cap, c2, e2).1 + EagerReplies(cap, c3, [e3]);
    assert EagerReplies(cap, c1, [e1, e2, e3]) == EagerStep(cap, c1, e1).1 + EagerReplies(cap, c2, [e2, e3]);
  }

  /** Dropping rules of age `minAge` is invisible in every run exactly when no entry lives longer than that. */
  lemma CleanupSafeExactly(maxTtl: int, minAge: int)
    requires 0 <= minAge
    ensures CleanupSafe(maxTtl, minAge) <==> maxTtl <= minAge
  {
    if maxTtl <= minAge {
      forall cap: int, store: ObjectMap, now: int, keys: set<string>, events: seq<Event> |
        EventsOk(now, maxTtl, minAge, keys, events) && |keys| <= cap
        ensures LazyReplies(cap, Node(CacheState([], store), map[]), events) == EagerReplies(cap, CacheState([], store), events)
      {
        LazyFlushRefinesEager(cap, store, map[], now, maxTtl, minAge, keys, events);
      }
    } else {
      CleanupResurrects(maxTtl, minAge);
    }
  }
}
