/** One request at a time through the flush check, the cache and the origin (steps 3 and 4 of ServeHTTP). */
module Router {
  import opened Objects
  import opened LruIndex
  import opened LruCache
  import F = FlushStore

  datatype OriginAnswer = Unavailable | Response(body: Bytes, ttl: int, headers: map<string, seq<string>>)

  /** A request with everything its environment decides: the times at which it reads the clock (first Get,
      double-check, answer of the origin), the origin's answer, and which backend calls succeed. */
  datatype Request = Request(
    domain: string,
    path: string,
    key: string,
    getAt: int,
    recheckAt: int,
    answerAt: int,
    origin: OriginAnswer,
    faults: Faults)

  datatype Faults = Faults(read: bool, reread: bool, body: bool, write: WriteResult, evict: bool, delete: bool)

  const NO_FAULTS := Faults(true, true, true, Written, true, true)

  /** `fetched` says that this request called the origin; `cacheHit` is what the X-Cache header reports. */
  datatype Reply = BadGateway | Served(obj: Obj, fetched: bool)

  datatype Exchange = Exchange(reply: Reply, cacheHit: bool)

  function Answer(q: Request): Obj
    requires q.origin.Response?
  {
    Obj(q.origin.body, Meta(q.key, q.answerAt, q.origin.ttl, |q.origin.body|, q.origin.headers))
  }

  /** GetOrFetch with no other call running. */
  function GetOrFetchResult(cap: int, c: CacheState, q: Request): (CacheState, Reply) {
    var (c1, hit) := GetResult(c, q.key, q.getAt, q.faults.read);
    if hit.Some? then (c1, Served(hit.value, false))
    else
      var (c2, again) := GetResult(c1, q.key, q.recheckAt, q.faults.reread);
      if again.Some? then (c2, if q.faults.body then Served(again.value, false) else BadGateway)
      else
        match q.origin
        case Unavailable => (c2, BadGateway)
        case Response(_, _, _) =>
          (SetResult(c2, cap, q.key, Answer(q), q.faults.write, q.faults.evict), Served(Answer(q), true))
  }

  /** The lazy flush: an indexed entry older than the newest rule covering its path is deleted on request. */
  predicate FlushDue(index: Index, rules: F.Rules, q: Request) {
    Has(index, q.key) &&
    var rule := F.Newest(F.Bucket(rules, q.domain), q.path);
    rule.Some? && rule.value.createdAt > Lookup(index, q.key).writtenAt
  }

  function AfterFlushCheck(c: CacheState, rules: F.Rules, q: Request): CacheState {
    if FlushDue(c.index, rules, q) then DeleteResult(c, q.key, q.faults.delete) else c
  }

  function ServeResult(cap: int, c: CacheState, rules: F.Rules, q: Request): (CacheState, Exchange) {
    var c1 := AfterFlushCheck(c, rules, q);
    var (c2, reply) := GetOrFetchResult(cap, c1, q);
    (c2, Exchange(reply, Has(c1.index, q.key)))
  }

  class Handler {
    const cache: LRUCache
    const flushStore: F.Store

    constructor (cache: LRUCache, flushStore: F.Store)
      ensures this.cache == cache && this.flushStore == flushStore
    {
      this.cache, this.flushStore := cache, flushStore;
    }

    ghost predicate Valid()
      reads this, cache, cache.lru
    {
      cache.Valid()
    }

    /** SingleflightCache.GetOrFetch: fast path, double-check, fetch, set. */
    method GetOrFetch(q: Request) returns (reply: Reply)
      requires Valid()
      modifies cache, cache.nodes, cache.storage
      ensures Valid() && fresh(cache.nodes - old(cache.nodes))
      ensures (cache.State(), reply) == GetOrFetchResult(cache.maxItems, old(cache.State()), q)
    {
      ghost var c0 := cache.State();
      var hit := cache.Get(q.key, q.getAt, q.faults.read);
      assert (cache.State(), hit) == GetResult(c0, q.key, q.getAt, q.faults.read);
      if hit.Some? {
        return Served(hit.value, false);
      }
      ghost var c1 := cache.State();
      var again := cache.Get(q.key, q.recheckAt, q.faults.reread);
      ghost var c2 := cache.State();
      assert (c2, again) == GetResult(c1, q.key, q.recheckAt, q.faults.reread);
      if again.Some? {
        return if q.faults.body then Served(again.value, false) else BadGateway;
      }
      if q.origin.Unavailable? {
        return BadGateway;
      }
      var obj := Obj(q.origin.body, Meta(q.key, q.answerAt, q.origin.ttl, |q.origin.body|, q.origin.headers));
      cache.Set(q.key, obj, q.faults.write, q.faults.evict);
      assert cache.State() == SetResult(c2, cache.maxItems, q.key, Answer(q), q.faults.write, q.faults.evict);
      reply := Served(obj, true);
    }

    method ServeHTTP(q: Request) returns (r: Exchange)
      requires Valid()
      modifies cache, cache.nodes, cache.storage
      ensures Valid() && fresh(cache.nodes - old(cache.nodes))
      ensures (cache.State(), r) == ServeResult(cache.maxItems, old(cache.State()), flushStore.rules, q)
    {
      CheckFlush(q);
      var peek := cache.Stat(q.key);
      var cacheHit := peek.Some?;
      var reply := GetOrFetch(q);
      r := Exchange(reply, cacheHit);
    }

    method CheckFlush(q: Request)
      requires Valid()
      modifies cache, cache.storage
      ensures Valid() && cache.nodes == old(cache.nodes)
      ensures cache.State() == AfterFlushCheck(old(cache.State()), flushStore.rules, q)
    {
      var meta := cache.Stat(q.key);
      if meta.Some? {
        var rule := flushStore.Match(q.domain, q.path);
        if rule.Some? {
          if rule.value.createdAt > meta.value.writtenAt {
            cache.Delete(q.key, q.faults.delete);
          }
        }
      }
    }
  }

  // ---- what one request guarantees ----

  /** Whatever the state and the faults: an answer from the cache is unexpired, was indexed under the request's
      key, and was written no earlier than every stored rule that covers the request. Once the clock has moved
      past the time it was written, it is never one that must not be stored. */
  lemma ServedIsFresh(cap: int, c: CacheState, rules: F.Rules, q: Request)
    requires Distinct(c.index) && q.getAt <= q.recheckAt
    ensures var reply := ServeResult(cap, c, rules, q).1.reply;
      reply.Served? && !reply.fetched ==>
        && reply.obj.meta in c.index && reply.obj.meta.key == q.key && q.getAt <= reply.obj.meta.ExpiresAt()
        && q.key in c.store && reply.obj.body == c.store[q.key].body
        && (q.getAt > reply.obj.meta.writtenAt ==> reply.obj.meta.ttl > 0)
        && forall r :: r in F.Bucket(rules, q.domain) && F.Covers(r, q.path) ==> r.createdAt <= reply.obj.meta.writtenAt
  {
    var c1 := AfterFlushCheck(c, rules, q);
    F.NewestFacts(F.Bucket(rules, q.domain), q.path);
    HasIff(c.index, q.key);
    HasRemove(c.index, q.key);
    if Has(c1.index, q.key) {
      HasRemove(c1.index, q.key);
      HasTouch(c1.index, q.key);
      RemoveDistinct(c1.index, q.key);
      HitTwice(c1, q);
    }
  }

  /** After a missed Get the double-check of the same request misses too. */
  lemma HitTwice(c: CacheState, q: Request)
    requires Distinct(c.index)
    ensures var (c1, hit) := GetResult(c, q.key, q.getAt, q.faults.read);
      hit.None? ==> !Has(c1.index, q.key) && GetResult(c1, q.key, q.recheckAt, q.faults.reread) == (c1, None)
  {
    HasRemove(c.index, q.key);
    if Has(c.index, q.key) {
      CheckFacts(c.index, q.key, q.getAt);
      HasRemove(Check(c.index, q.key, q.getAt).index, q.key);
    }
  }

  /** An entry of the key that no stored rule flushes: the rules of the domain whose prefix begins the path are not
      newer than it. */
  ghost predicate Unflushed(c: CacheState, rules: F.Rules, q: Request, m: Meta) {
    && m in c.index && m.key == q.key
    && forall r: F.Rule :: q.domain in rules && r in rules[q.domain] && r.prefix <= q.path ==> r.createdAt <= m.writtenAt
  }

  lemma UnflushedOrDue(c: CacheState, rules: F.Rules, q: Request)
    requires Distinct(c.index)
    ensures forall m :: Unflushed(c, rules, q, m) <==> Has(c.index, q.key) && m == Lookup(c.index, q.key) && !FlushDue(c.index, rules, q)
  {
    F.NewestFacts(F.Bucket(rules, q.domain), q.path);
    HasIff(c.index, q.key);
    forall m | m in c.index && m.key == q.key ensures Has(c.index, q.key) && m == Lookup(c.index, q.key) {
      LookupUnique(c.index, m);
    }
  }

  /** X-Cache says hit for every reply, good or bad, exactly when the key is indexed and spared, expired or not;
      so every answer from the cache says hit. */
  lemma CacheHitExactly(cap: int, c: CacheState, rules: F.Rules, q: Request)
    requires Distinct(c.index)
    ensures var r := ServeResult(cap, c, rules, q).1;
      && (r.cacheHit <==> exists m :: Unflushed(c, rules, q, m))
      && (r.reply.Served? && !r.reply.fetched ==> r.cacheHit)
  {
    UnflushedOrDue(c, rules, q);
    HasRemove(c.index, q.key);
    if Has(c.index, q.key) {
      assert Unflushed(c, rules, q, Lookup(c.index, q.key)) <==> !FlushDue(c.index, rules, q);
    }
    var c1 := AfterFlushCheck(c, rules, q);
    RemoveDistinct(c.index, q.key);
    if !Has(c1.index, q.key) {
      HitTwice(c1, q);
    }
  }

  /** The entry can be answered with: it is spared and not past its lifetime, and its object can be read. */
  ghost predicate Usable(c: CacheState, rules: F.Rules, q: Request, m: Meta) {
    Unflushed(c, rules, q, m) && q.getAt <= m.writtenAt + m.ttl && q.faults.read && q.key in c.store
  }

  /** The reply to every request: the stored body with the indexed metadata of a usable entry; without one, what the
      origin has answered, with metadata that says so; without either, an error. */
  lemma ReplyExactly(cap: int, c: CacheState, rules: F.Rules, q: Request)
    requires Distinct(c.index)
    ensures var reply := ServeResult(cap, c, rules, q).1.reply;
      && (forall m :: Usable(c, rules, q, m) ==> reply == Served(Obj(c.store[q.key].body, m), false))
      && ((forall m :: !Usable(c, rules, q, m)) ==>
            match q.origin
            case Unavailable => reply == BadGateway
            case Response(body, ttl, headers) => reply == Served(Obj(body, Meta(q.key, q.answerAt, ttl, |body|, headers)), true))
  {
    UnflushedOrDue(c, rules, q);
    var c1 := AfterFlushCheck(c, rules, q);
    HasRemove(c.index, q.key);
    RemoveDistinct(c.index, q.key);
    HitTwice(c1, q);
    if Has(c.index, q.key) {
      assert Usable(c, rules, q, Lookup(c.index, q.key)) || !Usable(c, rules, q, Lookup(c.index, q.key));
    }
  }

  /** What a fetched answer leaves: its object stored and its metadata in front, if the write works. */
  lemma FetchedIsStored(cap: int, c: CacheState, rules: F.Rules, q: Request)
    requires Bounded(c.index, cap) && cap > 0
    ensures var (c', r) := ServeResult(cap, c, rules, q);
      r.reply.Served? && r.reply.fetched && q.faults.write.Written? ==>
        && Bounded(c'.index, cap) && c'.index != [] && c'.index[0] == r.reply.obj.meta
        && q.key in c'.store && c'.store[q.key] == r.reply.obj
  {
    var c1 := AfterFlushCheck(c, rules, q);
    RemoveDistinct(c.index, q.key);
    RemoveLength(c.index, q.key);
    HitTwice(c1, q);
    var c2 := GetResult(c1, q.key, q.getAt, q.faults.read).0;
    CheckFacts(c1.index, q.key, q.getAt);
    RemoveDistinct(Check(c1.index, q.key, q.getAt).index, q.key);
    RemoveLength(Check(c1.index, q.key, q.getAt).index, q.key);
    if q.origin.Response? && !Has(c2.index, q.key) {
      InsertFacts(c2.index, Answer(q).meta, cap);
      LruCache.HasInsert(c2.index, Answer(q).meta, cap);
      assert Insert(c2.index, Answer(q).meta, cap)[0].key == q.key;
    }
  }

  /** From the origin to the next request: when a request fetches and its write works, the next request for the key
      that reads storage before the lifetime is over, and that no rule forbids, gets the origin's body and headers;
      and if it gets anything from the cache, then that. */
  lemma NextRequestGetsTheSame(cap: int, c: CacheState, rules: F.Rules, q: Request, rules': F.Rules, q': Request)
    requires Bounded(c.index, cap) && cap > 0 && q'.key == q.key && q.faults.write.Written?
    requires var reply := ServeResult(cap, c, rules, q).1.reply; reply.Served? && reply.fetched
    ensures q.origin.Response?
    ensures var m := Meta(q.key, q.answerAt, q.origin.ttl, |q.origin.body|, q.origin.headers);
      var r' := ServeResult(cap, ServeResult(cap, c, rules, q).0, rules', q').1;
      && (r'.reply.Served? && !r'.reply.fetched ==> r'.reply.obj == Obj(q.origin.body, m))
      && (q'.getAt <= q.answerAt + q.origin.ttl && q'.faults.read
            && (forall r: F.Rule :: q'.domain in rules' && r in rules'[q'.domain] && r.prefix <= q'.path ==> r.createdAt <= q.answerAt)
          ==> r' == Exchange(Served(Obj(q.origin.body, m), false), true))
  {
    ReplyExactly(cap, c, rules, q);
    FetchedIsStored(cap, c, rules, q);
    var c' := ServeResult(cap, c, rules, q).0;
    var m := c'.index[0];
    ReplyExactly(cap, c', rules', q');
    CacheHitExactly(cap, c', rules', q');
    forall x | x in c'.index && x.key == q'.key ensures x == m {
      LookupUnique(c'.index, x);
      LookupUnique(c'.index, m);
    }
    if (forall x :: !Usable(c', rules', q', x)) {
      assert !Usable(c', rules', q', m);
    }
  }

  /** X-Cache: hit does not mean that the origin was spared: it is reported for an answer that this request
      fetched exactly when the origin answers and the entry that survives the flush check has expired, or
      its object is missing or cannot be read. */
  lemma CacheHitHeader(cap: int, c: CacheState, rules: F.Rules, q: Request)
    requires Distinct(c.index) && q.getAt <= q.recheckAt
    ensures var r := ServeResult(cap, c, rules, q).1;
      r.cacheHit && r.reply.Served? && r.reply.fetched <==>
        && Has(c.index, q.key) && !FlushDue(c.index, rules, q) && q.origin.Response?
        && (Lookup(c.index, q.key).Expired(q.getAt) || !q.faults.read || q.key !in c.store)
  {
    var c1 := AfterFlushCheck(c, rules, q);
    HasRemove(c.index, q.key);
    HasIff(c.index, q.key);
    RemoveDistinct(c.index, q.key);
    HitTwice(c1, q);
  }

  /** An indexed key without an object, as a Delete can leave it: the header says hit, the answer is fetched,
      and the entry it was reported for is replaced. */
  lemma DanglingEntryIsReportedAsHit(cap: int, c: CacheState, rules: F.Rules, q: Request)
    requires cap > 0 && |c.index| == 1 && c.index[0].key == q.key && q.key !in c.store
    requires q.getAt <= q.recheckAt <= q.answerAt && q.faults == NO_FAULTS && q.origin.Response?
    requires rules == map[]
    ensures var (c', r) := ServeResult(cap, c, rules, q);
      r == Exchange(Served(Answer(q), true), true) && c' == CacheState([Answer(q).meta], c.store[q.key := Answer(q)])
  {
    CacheHitHeader(cap, c, rules, q);
    assert Remove(c.index, q.key) == [];
  }
}
