/** The in-memory index of LRUCache as a value: the metadata of every indexed key,
    most recently used first. */
module LruIndex {
  import opened Objects

  type Index = seq<Meta>

  ghost predicate Distinct(l: Index) {
    forall i, j :: 0 <= i < j < |l| ==> l[i].key != l[j].key
  }

  predicate Has(l: Index, key: string) {
    l != [] && (l[0].key == key || Has(l[1..], key))
  }

  function Keys(l: Index): set<string> {
    set m <- l :: m.key
  }

  function Lookup(l: Index, key: string): (m: Meta)
    requires Has(l, key)
  {
    if l[0].key == key then l[0] else Lookup(l[1..], key)
  }

  /** The index without its entry for `key`, the others in the same order. */
  function Remove(l: Index, key: string): Index {
    if l == [] then []
    else if l[0].key == key then l[1..]
    else [l[0]] + Remove(l[1..], key)
  }

  function Touch(l: Index, key: string): Index
    requires Has(l, key)
  {
    [Lookup(l, key)] + Remove(l, key)
  }

  /** evictLocked: entries leave from the back until the index is within capacity. */
  function Keep(cap: int): nat {
    if cap < 0 then 0 else cap
  }

  function Evict(l: Index, cap: int): Index {
    if |l| <= Keep(cap) then l else l[..Keep(cap)]
  }

  /** The locked half of Set: update in place of an indexed key, or insert and evict. */
  function Insert(l: Index, m: Meta, cap: int): Index {
    if Has(l, m.key) then [m] + Remove(l, m.key) else Evict([m] + l, cap)
  }

  /** The locked half of Get at time `now`. */
  datatype Checked = Miss(index: Index) | Fresh(index: Index, meta: Meta)

  function Check(l: Index, key: string, now: int): Checked {
    if !Has(l, key) then Miss(l)
    else if Lookup(l, key).Expired(now) then Miss(Remove(l, key))
    else Fresh(Touch(l, key), Lookup(l, key))
  }

  ghost predicate Bounded(l: Index, cap: int) {
    Distinct(l) && |l| <= Keep(cap)
  }

  // ---- facts ----

  lemma {:induction false} HasIff(l: Index, key: string)
    ensures Has(l, key) <==> key in Keys(l)
    ensures Has(l, key) ==> Lookup(l, key) in l && Lookup(l, key).key == key
  {
    if l != [] && l[0].key != key {
      HasIff(l[1..], key);
      assert l == [l[0]] + l[1..];
    }
  }

  lemma DistinctTail(l: Index)
    requires Distinct(l) && l != []
    ensures Distinct(l[1..]) && !Has(l[1..], l[0].key)
  {
    HasIff(l[1..], l[0].key);
  }

  lemma LookupUnique(l: Index, m: Meta)
    requires Distinct(l) && m in l
    ensures Has(l, m.key) && Lookup(l, m.key) == m
  {
    HasIff(l, m.key);
  }

  lemma {:induction false} RemoveMembers(l: Index, key: string)
    requires Distinct(l)
    ensures forall m :: m in Remove(l, key) <==> m in l && m.key != key
    ensures |Remove(l, key)| == if Has(l, key) then |l| - 1 else |l|
    ensures !Has(l, key) ==> Remove(l, key) == l
    decreases |l|
  {
    if l != [] {
      DistinctTail(l);
      assert forall m :: m in l <==> m == l[0] || m in l[1..];
      if l[0].key == key {
        HasIff(l[1..], key);
      } else {
        RemoveMembers(l[1..], key);
        var r := [l[0]] + Remove(l[1..], key);
        assert forall m :: m in r <==> m == l[0] || m in Remove(l[1..], key);
      }
    }
  }

  lemma {:induction false} RemoveDistinct(l: Index, key: string)
    requires Distinct(l)
    ensures Distinct(Remove(l, key))
    decreases |l|
  {
    if l != [] && l[0].key != key {
      DistinctTail(l);
      RemoveDistinct(l[1..], key);
      RemoveMembers(l[1..], key);
      DistinctCons(l[0], Remove(l[1..], key));
    }
  }

  lemma DistinctCons(m: Meta, l: Index)
    requires Distinct(l)
    requires forall x :: x in l ==> x.key != m.key
    ensures Distinct([m] + l)
  {
    var n := [m] + l;
    forall j | 0 < j < |n| ensures n[j] in l && n[j].key != m.key {
      assert n[j] == l[j - 1];
    }
  }

  lemma {:induction false} HasRemove(l: Index, key: string)
    requires Distinct(l)
    ensures forall k :: Has(Remove(l, key), k) <==> Has(l, k) && k != key
    decreases |l|
  {
    if l != [] {
      DistinctTail(l);
      HasRemove(l[1..], key);
      if l[0].key != key {
        assert Remove(l, key)[1..] == Remove(l[1..], key);
      }
    }
  }

  lemma HasTouch(l: Index, key: string)
    requires Distinct(l) && Has(l, key)
    ensures forall k :: Has(Touch(l, key), k) <==> Has(l, k)
  {
    HasIff(l, key);
    HasRemove(l, key);
    assert Touch(l, key)[1..] == Remove(l, key);
  }

  lemma {:induction false} RemoveLength(l: Index, key: string)
    ensures |Remove(l, key)| == if Has(l, key) then |l| - 1 else |l|
    ensures !Has(l, key) ==> Remove(l, key) == l
  {
    if l != [] && l[0].key != key {
      RemoveLength(l[1..], key);
    }
  }

  /** Replacing the metadata of a key where it stands changes neither the keys nor the others. */
  lemma {:induction false} UpdateInPlace(l: Index, i: nat, m: Meta)
    requires Distinct(l) && i < |l| && l[i].key == m.key
    ensures Distinct(l[i := m])
    ensures forall k :: Has(l[i := m], k) <==> Has(l, k)
    ensures Remove(l[i := m], m.key) == Remove(l, m.key)
    decreases |l|
  {
    DistinctTail(l);
    if i > 0 {
      UpdateInPlace(l[1..], i - 1, m);
      assert l[i := m][1..] == l[1..][i - 1 := m];
    }
  }

  lemma NotHas(l: Index, key: string)
    requires !Has(l, key)
    ensures forall m :: m in l ==> m.key != key
  {
    HasIff(l, key);
  }

  lemma RemoveFacts(l: Index, key: string)
    requires Distinct(l)
    ensures Distinct(Remove(l, key))
    ensures forall m :: m in Remove(l, key) <==> m in l && m.key != key
    ensures |Remove(l, key)| == if Has(l, key) then |l| - 1 else |l|
    ensures Keys(Remove(l, key)) == Keys(l) - {key}
    ensures !Has(Remove(l, key), key)
    ensures !Has(l, key) ==> Remove(l, key) == l
  {
    RemoveMembers(l, key);
    RemoveDistinct(l, key);
    HasIff(Remove(l, key), key);
  }

  lemma EvictFacts(l: Index, cap: int)
    requires Distinct(l)
    ensures Bounded(Evict(l, cap), cap)
    ensures forall m :: m in Evict(l, cap) ==> m in l
  {
  }

  /** What the locked half of Set leaves: the new entry in front (unless nothing may be kept),
      no other entry of that key, and no entry that was not there. */
  lemma InsertFacts(l: Index, m: Meta, cap: int)
    requires Bounded(l, cap)
    ensures Bounded(Insert(l, m, cap), cap)
    ensures forall x :: x in Insert(l, m, cap) ==> x == m || (x in l && x.key != m.key)
    ensures Keep(cap) > 0 ==> Insert(l, m, cap) != [] && Insert(l, m, cap)[0] == m
  {
    RemoveFacts(l, m.key);
    HasIff(l, m.key);
    var n := [m] + Remove(l, m.key);
    DistinctCons(m, Remove(l, m.key));
    EvictFacts(n, cap);
  }

  lemma CheckFacts(l: Index, key: string, now: int)
    requires Distinct(l)
    ensures var c := Check(l, key, now);
      && Distinct(c.index) && |c.index| <= |l|
      && (forall m :: m in c.index ==> m in l)
      && (c.Miss? ==> !Has(c.index, key) && (forall m :: m in l && m.key != key ==> m in c.index))
      && (c.Fresh? ==> c.meta in l && c.meta.key == key && !c.meta.Expired(now) && Keys(c.index) == Keys(l))
  {
    RemoveFacts(l, key);
    HasIff(l, key);
    if Has(l, key) {
      var t := Touch(l, key);
      DistinctCons(Lookup(l, key), Remove(l, key));
      assert forall m :: m in t <==> m == Lookup(l, key) || m in Remove(l, key);
      assert Keys(t) == {key} + Keys(Remove(l, key));
    }
  }
}
