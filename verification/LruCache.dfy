/** LRUCache: list elements, the key-to-element map and the backend, updated in place.
    Backend failures are inputs of each call. */
module LruCache {
  import opened Objects
  import opened LruIndex

  /** Index and backend as values. */
  datatype CacheState = CacheState(index: Index, store: ObjectMap)

  /** A Get answers with the stored body and the indexed metadata. */
  function GetResult(s: CacheState, key: string, now: int, readOk: bool): (CacheState, Option<Obj>) {
    var c := Check(s.index, key, now);
    if c.Miss? then (s.(index := c.index), None)
    else if readOk && key in s.store then (s.(index := c.index), Some(Obj(s.store[key].body, c.meta)))
    else (s.(index := Remove(c.index, key)), None)
  }

  function SetResult(s: CacheState, cap: int, key: string, obj: Obj, w: WriteResult, evictOk: bool): CacheState {
    var store := AfterWrite(s.store, key, obj, w);
    if !w.Written? then s.(store := store)
    else CacheState(Insert(s.index, obj.meta, cap), store - (if evictOk then Evicted(s.index, obj.meta, cap) else {}))
  }

  /** The keys whose entries leave the index when `m` is inserted. */
  function Evicted(l: Index, m: Meta, cap: int): set<string> {
    if Has(l, m.key) then {} else Overflow([m] + l, cap)
  }

  function Overflow(l: Index, cap: int): set<string> {
    if |l| <= Keep(cap) then {} else Keys(l[Keep(cap)..])
  }

  function DeleteResult(s: CacheState, key: string, deleteOk: bool): CacheState {
    CacheState(Remove(s.index, key), if deleteOk then s.store - {key} else s.store)
  }

  /** Get answers exactly when the key is indexed, its lifetime has not run out, and its object can be read;
      the answer is the stored body with the indexed metadata. */
  lemma GetAnswersExactly(s: CacheState, key: string, now: int, readOk: bool)
    requires Distinct(s.index)
    ensures var r := GetResult(s, key, now, readOk).1;
      && (r.Some? <==> readOk && key in s.store && exists m :: m in s.index && m.key == key && now <= m.writtenAt + m.ttl)
      && (r.Some? ==> r.value.meta in s.index && r.value.meta.key == key && r.value.body == s.store[key].body)
  {
    HasIff(s.index, key);
    if Has(s.index, key) {
      forall m | m in s.index && m.key == key ensures m == Lookup(s.index, key) {
        LookupUnique(s.index, m);
      }
    }
  }

  /** Which keys are indexed after an insert: the old ones and the new one, less the evicted. */
  lemma HasInsert(l: Index, m: Meta, cap: int)
    requires Bounded(l, cap) && !Has(l, m.key)
    ensures forall k :: Has(Insert(l, m, cap), k) <==> (k == m.key || Has(l, k)) && k !in Evicted(l, m, cap)
    ensures forall k :: k in Evicted(l, m, cap) ==> k == m.key || Has(l, k)
  {
    var full := [m] + l;
    assert full[1..] == l;
    NotHas(l, m.key);
    DistinctCons(m, l);
    if |full| > Keep(cap) {
      forall k {
        HasSplit(full, Keep(cap), k);
      }
    }
  }

  lemma {:induction false} HasSplit(l: Index, c: nat, k: string)
    requires Distinct(l) && c <= |l|
    ensures Has(l[..c], k) <==> Has(l, k) && k !in Keys(l[c..])
    ensures k in Keys(l[c..]) ==> Has(l, k)
    decreases |l|
  {
    if c == 0 {
      HasIff(l, k);
    } else {
      DistinctTail(l);
      HasSplit(l[1..], c - 1, k);
      assert l[..c][1..] == l[1..][..c - 1] && l[c..] == l[1..][c - 1..];
      HasSplit(l[1..], c - 1, l[0].key);
    }
  }

  // ---- heap representation ----

  class Storage {
    var objects: ObjectMap

    constructor ()
      ensures objects == map[]
    {
      objects := map[];
    }

    method Read(key: string, ok: bool) returns (r: Option<Obj>)
      ensures r == if ok && key in objects then Some(objects[key]) else None
    {
      if ok && key in objects {
        r := Some(objects[key]);
      } else {
        r := None;
      }
    }

    method Write(key: string, obj: Obj, w: WriteResult)
      modifies this
      ensures objects == AfterWrite(old(objects), key, obj, w)
    {
      objects := AfterWrite(objects, key, obj, w);
    }

    method Delete(key: string, ok: bool)
      modifies this
      ensures objects == if ok then old(objects) - {key} else old(objects)
    {
      if ok {
        objects := objects - {key};
      }
    }
  }

  /** A list.Element: its position in the list belongs to the list, its value can be replaced. */
  class Element {
    var value: Meta

    constructor (m: Meta)
      ensures value == m
    {
      value := m;
    }
  }

  ghost function Values(es: seq<Element>): (l: Index)
    reads es
    ensures |l| == |es|
    ensures forall i :: 0 <= i < |es| ==> l[i] == es[i].value
  {
    seq(|es|, i requires 0 <= i < |es| reads es => es[i].value)
  }

  function Without(es: seq<Element>, e: Element): seq<Element> {
    if es == [] then [] else if es[0] == e then es[1..] else [es[0]] + Without(es[1..], e)
  }

  lemma {:induction false} WithoutFacts(es: seq<Element>, e: Element)
    requires Distinct(Values(es)) && e in es
    ensures Values(Without(es, e)) == Remove(Values(es), e.value.key)
    ensures forall x :: x in Without(es, e) <==> x in es && x != e
  {
    var l := Values(es);
    assert Values(es[1..]) == l[1..];
    assert forall x :: x in es <==> x == es[0] || x in es[1..];
    DistinctTail(l);
    if es[0] == e {
      forall x | x in es[1..] ensures x != e {
        var i :| 0 <= i < |es[1..]| && es[1..][i] == x;
        assert l[i + 1] == x.value && l[0] == e.value;
      }
    } else {
      WithoutFacts(es[1..], e);
      var i :| 0 <= i < |es| && es[i] == e;
      assert l[i] == e.value && l[0] == es[0].value;
      assert Without(es, e) == [es[0]] + Without(es[1..], e);
      assert forall x :: x in Without(es, e) <==> x == es[0] || x in Without(es[1..], e);
      assert Without(es, e)[1..] == Without(es[1..], e);
    }
  }

  predicate Bound(items: map<string, Element>, e: Element)
    reads e
  {
    e.value.key in items && items[e.value.key] == e
  }

  /** Map and list are in bijection: the map sends each listed key to its own element. */
  ghost predicate Paired(items: map<string, Element>, es: seq<Element>)
    reads es
  {
    && Distinct(Values(es))
    && (forall k :: k in items <==> Has(Values(es), k))
    && (forall e :: e in es ==> Bound(items, e))
  }

  lemma PairedRemove(items: map<string, Element>, es: seq<Element>, e: Element)
    requires Paired(items, es) && e in es
    ensures Paired(items - {e.value.key}, Without(es, e))
    ensures Values(Without(es, e)) == Remove(Values(es), e.value.key)
  {
    var key, rest := e.value.key, Without(es, e);
    assert Values(rest) == Remove(Values(es), key) by {
      WithoutFacts(es, e);
    }
    RemoveDistinct(Values(es), key);
    HasRemove(Values(es), key);
    assert Bound(items, e);
    forall x | x in rest
      ensures Bound(items - {key}, x)
    {
      WithoutFacts(es, e);
      assert Bound(items, x);
    }
  }

  lemma PairedPush(items: map<string, Element>, es: seq<Element>, e: Element)
    requires Paired(items, es) && e.value.key !in items
    ensures Paired(items[e.value.key := e], [e] + es)
    ensures Values([e] + es) == [e.value] + Values(es)
  {
    var key, all := e.value.key, [e] + es;
    assert Values(all) == [e.value] + Values(es);
    assert Values(all)[1..] == Values(es);
    NotHas(Values(es), key);
    DistinctCons(e.value, Values(es));
    BoundPush(items, es, e);
  }

  lemma BoundPush(items: map<string, Element>, es: seq<Element>, e: Element)
    requires e.value.key !in items && forall x :: x in es ==> Bound(items, x)
    ensures forall x :: x in [e] + es ==> Bound(items[e.value.key := e], x)
  {
    forall x | x in [e] + es
      ensures Bound(items[e.value.key := e], x)
    {
      assert x == e || x in es;
      assert x in es ==> Bound(items, x);
    }
  }

  lemma PairedLookup(items: map<string, Element>, es: seq<Element>, key: string)
    requires Paired(items, es) && key in items
    ensures items[key] in es && items[key].value.key == key
    ensures Has(Values(es), key) && Lookup(Values(es), key) == items[key].value
  {
    var l := Values(es);
    HasIff(l, key);
    var i :| 0 <= i < |l| && l[i] == Lookup(l, key);
    assert es[i] in es;
    assert Bound(items, es[i]);
  }

  ghost function Slot(es: seq<Element>, e: Element): (i: nat)
    requires e in es
    ensures i < |es| && es[i] == e
  {
    var i :| 0 <= i < |es| && es[i] == e; i
  }

  lemma WithoutSub(es: seq<Element>, e: Element)
    ensures forall x :: x in Without(es, e) ==> x in es
  {
  }

  class LRUCache {
    var items: map<string, Element>
    var lru: seq<Element>
    const maxItems: int
    const storage: Storage
    ghost var nodes: set<Element>  // every element the list has held

    ghost predicate Linked()
      reads this, lru
    {
      Paired(items, lru) && forall e :: e in lru ==> e in nodes
    }

    ghost predicate Valid()
      reads this, lru
    {
      Linked() && |lru| <= Keep(maxItems)
    }

    ghost function Contents(): Index
      reads this, lru
    {
      Values(lru)
    }

    ghost function State(): CacheState
      reads this, lru, storage
    {
      CacheState(Contents(), storage.objects)
    }

    constructor (maxItems: int, s: Storage)
      ensures Valid() && Contents() == [] && this.maxItems == maxItems && storage == s && nodes == {}
    {
      items, lru, nodes := map[], [], {};
      this.maxItems := maxItems;
      storage := s;
    }

    lemma Indexed(key: string)
      requires Linked()
      ensures key in items <==> Has(Contents(), key)
      ensures key in items ==> items[key] in lru && items[key].value.key == key
      ensures key in items ==> Lookup(Contents(), key) == items[key].value
    {
      if key in items {
        PairedLookup(items, lru, key);
      }
    }

    method RemoveLocked(el: Element)
      requires Linked() && el in lru
      modifies this
      ensures Linked()
      ensures Contents() == Remove(old(Contents()), el.value.key)
      ensures nodes == old(nodes)
    {
      PairedRemove(items, lru, el);
      WithoutSub(lru, el);
      items, lru := items - {el.value.key}, Without(lru, el);
    }

    method MoveToFront(el: Element)
      requires Linked() && el in lru
      modifies this
      ensures Linked() && items == old(items)
      ensures Contents() == [el.value] + Remove(old(Contents()), el.value.key)
      ensures nodes == old(nodes)
    {
      assert Bound(items, el);
      PairedRemove(items, lru, el);
      WithoutSub(lru, el);
      PairedPush(items - {el.value.key}, Without(lru, el), el);
      assert (items - {el.value.key})[el.value.key := el] == items;
      lru := [el] + Without(lru, el);
    }

    /** Get at time `now`; the locked check and the storage read run back to back. */
    method Get(key: string, now: int, readOk: bool) returns (r: Option<Obj>)
      requires Valid()
      modifies this
      ensures Valid()
      ensures (State(), r) == GetResult(old(State()), key, now, readOk)
      ensures nodes == old(nodes)
    {
      Indexed(key);
      RemoveLength(Contents(), key);
      if key !in items {
        return None;
      }
      var el := items[key];
      var meta := el.value;
      if meta.Expired(now) {
        RemoveLocked(el);
        return None;
      }
      MoveToFront(el);
      var obj := storage.Read(key, readOk);
      if obj.None? {
        if key in items {
          Indexed(key);
          RemoveLength(Contents(), key);
          RemoveLocked(items[key]);
        }
        return None;
      }
      r := Some(Obj(obj.value.body, meta));
    }

    method Set(key: string, obj: Obj, w: WriteResult, evictOk: bool)
      requires Valid() && obj.meta.key == key
      modifies this, nodes, storage
      ensures Valid()
      ensures State() == SetResult(old(State()), maxItems, key, obj, w, evictOk)
      ensures fresh(nodes - old(nodes))
    {
      Indexed(key);
      storage.Write(key, obj, w);
      if !w.Written? {
        return;
      }
      if key in items {
        RemoveLength(Contents(), key);
        Replace(items[key], obj.meta);
        NothingGone(storage.objects);
      } else {
        InsertNew(obj.meta, evictOk);
      }
    }

    method InsertNew(m: Meta, evictOk: bool)
      requires Linked() && m.key !in items
      modifies this, storage
      ensures Valid() && Contents() == Evict([m] + old(Contents()), maxItems)
      ensures storage.objects == old(storage.objects) - (if evictOk then Overflow([m] + old(Contents()), maxItems) else {})
      ensures fresh(nodes - old(nodes))
    {
      var el := new Element(m);
      PushFront(el);
      EvictLocked(evictOk);
    }

    method PushFront(el: Element)
      requires Linked() && el.value.key !in items
      modifies this
      ensures Linked() && nodes == old(nodes) + {el}
      ensures Contents() == [el.value] + old(Contents())
    {
      PairedPush(items, lru, el);
      items, lru, nodes := items[el.value.key := el], [el] + lru, nodes + {el};
    }

    method Replace(el: Element, m: Meta)
      requires Linked() && el in lru && el.value.key == m.key
      modifies this, el
      ensures Linked()
      ensures Contents() == [m] + Remove(old(Contents()), m.key)
      ensures nodes == old(nodes)
    {
      ghost var l := Contents();
      ghost var i := Slot(lru, el);
      assert forall j :: 0 <= j < |lru| && j != i ==> lru[j] != el by {
        assert forall j :: 0 <= j < |lru| ==> l[j] == lru[j].value;
      }
      el.value := m;
      assert Values(lru) == l[i := m];
      UpdateInPlace(l, i, m);
      forall e | e in lru ensures Bound(items, e) {
        assert old(Bound(items, e));
      }
      MoveToFront(el);
    }

    /** Drop entries from the back, with their objects, until the list is within capacity. */
    method EvictLocked(evictOk: bool)
      requires Linked()
      modifies this, storage
      ensures Valid() && Contents() == Evict(old(Contents()), maxItems)
      ensures storage.objects == old(storage.objects) - (if evictOk then Overflow(old(Contents()), maxItems) else {})
      ensures nodes == old(nodes)
    {
      ghost var l := Contents();
      ghost var before := storage.objects;
      assert l[..|l|] == l && before - {} == before;
      while |lru| > maxItems
        invariant Linked() && |lru| <= |l| && Contents() == l[..|lru|]
        invariant |lru| >= if |l| > Keep(maxItems) then Keep(maxItems) else |l|
        invariant storage.objects == before - (if evictOk then Keys(l[|lru|..]) else {})
        invariant nodes == old(nodes)
        decreases |lru|
      {
        if lru == [] {
          break;
        }
        EvictNext(l, before, evictOk);
      }
      Trimmed(l, |lru|, maxItems, before);
    }

    /** One turn of the loop, seen from its start. */
    method EvictNext(ghost l: Index, ghost before: ObjectMap, evictOk: bool)
      requires Linked() && 0 < |lru| <= |l| && Contents() == l[..|lru|]
      requires storage.objects == before - (if evictOk then Keys(l[|lru|..]) else {})
      modifies this, storage
      ensures Linked() && |lru| == |old(lru)| - 1 && Contents() == l[..|lru|] && nodes == old(nodes)
      ensures storage.objects == before - (if evictOk then Keys(l[|lru|..]) else {})
    {
      TrimLast(l, |lru|, before);
      EvictTail(evictOk);
    }

    static lemma Trimmed(l: Index, n: nat, cap: int, before: ObjectMap)
      requires n == if |l| > Keep(cap) then Keep(cap) else |l|
      ensures l[..n] == Evict(l, cap) && before - Keys(l[n..]) == before - Overflow(l, cap)
    {
      assert n == |l| ==> l[..n] == l && l[n..] == [];
    }

    method EvictTail(evictOk: bool)
      requires Linked() && lru != []
      modifies this, storage
      ensures Linked() && nodes == old(nodes) && |lru| == |old(lru)| - 1
      ensures Contents() == old(Contents())[..|lru|]
      ensures storage.objects ==
        if evictOk then old(storage.objects) - {old(Contents())[|lru|].key} else old(storage.objects)
    {
      var tail := lru[|lru| - 1];
      assert tail.value == Contents()[|lru| - 1];
      RemoveLast(Contents());
      storage.Delete(tail.value.key, evictOk);
      RemoveLocked(tail);
      assert |Contents()| == |lru|;
    }

    method Delete(key: string, deleteOk: bool)
      requires Valid()
      modifies this, storage
      ensures Valid() && State() == DeleteResult(old(State()), key, deleteOk)
      ensures nodes == old(nodes)
    {
      Indexed(key);
      RemoveLength(Contents(), key);
      if key in items {
        RemoveLocked(items[key]);
      }
      storage.Delete(key, deleteOk);
    }

    method Stat(key: string) returns (r: Option<Meta>)
      requires Valid()
      ensures r == if Has(Contents(), key) then Some(Lookup(Contents(), key)) else None
    {
      Indexed(key);
      if key !in items {
        return None;
      }
      r := Some(items[key].value);
    }
  }

  lemma {:induction false} RemoveLast(l: Index)
    requires Distinct(l) && l != []
    ensures Remove(l, l[|l| - 1].key) == l[..|l| - 1]
  {
    if |l| > 1 {
      DistinctTail(l);
      RemoveLast(l[1..]);
      assert l[..|l| - 1] == [l[0]] + l[1..][..|l| - 2];
    }
  }

  lemma NothingGone(m: ObjectMap)
    ensures m - {} == m
  {
  }

  lemma TrimLast(l: Index, n: nat, before: ObjectMap)
    requires 0 < n <= |l| && Distinct(l[..n])
    ensures Remove(l[..n], l[n - 1].key) == l[..n - 1]
    ensures (before - Keys(l[n..])) - {l[n - 1].key} == before - Keys(l[n - 1..])
  {
    RemoveLast(l[..n]);
    assert l[..n][..n - 1] == l[..n - 1];
    assert l[n - 1..] == [l[n - 1]] + l[n..];
    assert Keys(l[n - 1..]) == {l[n - 1].key} + Keys(l[n..]);
  }
}
