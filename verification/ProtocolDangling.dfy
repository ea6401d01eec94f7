/** What the drop after a failed storage read takes away: not always the entry that could not be read. */
module ProtocolDangling {
  import opened Objects
  import opened LruIndex
  import opened Protocol
  import opened ProtocolSafety
  import opened ProtocolOvertaking
  import LruCache
  import ProtocolTheorems
  import R = ProtocolRaces

  /** The key is indexed and has its object. */
  predicate Good(s: State, key: string) {
    Has(s.index, key) && key in s.store
  }

  /** A flight puts the key in the index. */
  predicate Indexes(s: State, e: Timed, key: string) {
    e.step.InsertEntry? && PcOf(s.pcs, e.step.tid).Inserting? && PcOf(s.pcs, e.step.tid).key == key
  }

  /** The step takes an entry of the key, or its object: a drop, a check that finds the entry expired, an eviction,
      or the storage half of a Delete. */
  predicate Spoils(cap: int, s: State, e: Timed, key: string) {
    var pc := PcOf(s.pcs, e.step.tid);
    || (e.step.DropEntry? && pc.Dropping? && pc.key == key)
    || (e.step.DropForDelete? && pc.Deleting? && pc.key == key)
    || (e.step.CheckIndex? && pc.Checking? && pc.key == key && Has(s.index, key) && Lookup(s.index, key).Expired(e.time))
    || (e.step.InsertEntry? && pc.Inserting? && pc.key != key && key in LruCache.Evicted(s.index, pc.obj.meta, cap))
    || (e.step.EraseStore? && e.step.ok && pc.Erasing? && pc.key == key)
  }

  /** No step after w and before j takes an entry of the key, or its object. */
  ghost predicate Unspoiled(cap: int, s0: State, run: seq<Timed>, w: nat, j: nat, key: string)
    requires ValidRun(cap, s0, run) && j <= |run|
  {
    forall v: nat :: w < v < j ==> !Spoils(cap, After(cap, s0, run, v), run[v], key)
  }

  /** Between step i and step j a flight has indexed the key with its object, and no step since has spoiled it. */
  ghost predicate Reindexed(cap: int, s0: State, run: seq<Timed>, i: nat, j: nat, key: string)
    requires ValidRun(cap, s0, run) && j <= |run|
  {
    exists w: nat ::
      && i < w < j && Indexes(After(cap, s0, run, w), run[w], key) && Good(After(cap, s0, run, w + 1), key)
      && Unspoiled(cap, s0, run, w, j, key)
  }

  lemma CheckHas(l: Index, k: string, now: int, key: string)
    requires Distinct(l)
    ensures Has(Check(l, k, now).index, key) <==> Has(l, key) && !(k == key && Lookup(l, key).Expired(now))
  {
    HasRemove(l, k);
    if Has(l, k) {
      HasTouch(l, k);
    }
  }

  lemma CheckKeeps(s: State, t: nat, k: string, lead: bool, key: string)
    requires Distinct(s.index)
    ensures var s' := DoCheck(s, t, k, lead);
      s'.store == s.store && (Has(s'.index, key) <==> Has(s.index, key) && !(k == key && Lookup(s.index, key).Expired(s.now)))
  {
    CheckHas(s.index, k, s.now, key);
    CheckedIndex(s, t, k, lead);
  }

  lemma CheckedIndex(s: State, t: nat, k: string, lead: bool)
    ensures DoCheck(s, t, k, lead).store == s.store && DoCheck(s, t, k, lead).index == Check(s.index, k, s.now).index
  {
    RemoveLength(s.index, k);
    match Check(s.index, k, s.now)
    case Fresh(_, _) =>
    case Miss(_) => assert RemoveEntry(s, k).index == Remove(s.index, k);
  }

  lemma InsertKeeps(cap: int, s: State, t: nat, k: string, obj: Obj, evictOk: bool, key: string)
    requires Bounded(s.index, cap) && !Has(s.index, k) && obj.meta.key == k && k != key
    ensures Good(DoInsert(cap, s, t, k, obj, evictOk), key) <==> Good(s, key) && key !in LruCache.Evicted(s.index, obj.meta, cap)
  {
    LruCache.HasInsert(s.index, obj.meta, cap);
  }

  lemma DropKeeps(s: State, t: nat, k: string, lead: bool, key: string)
    requires Distinct(s.index)
    ensures Good(Missed(RemoveEntry(s, k), t, k, lead), key) <==> Good(s, key) && k != key
    ensures Good(Goto(RemoveEntry(s, k), t, Erasing(k)), key) <==> Good(s, key) && k != key
  {
    HasRemove(s.index, k);
  }

  /** Whether a key has a good entry changes only where a flight indexes it or a step spoils it. */
  lemma GoodStep(cap: int, s: State, e: Timed, key: string)
    requires Inv(cap, s) && Enabled(s, e) && !Indexes(s, e, key)
    ensures Good(Do(cap, s, e), key) <==> Good(s, key) && !Spoils(cap, s, e, key)
  {
    var s1, t, pc := s.(now := e.time), e.step.tid, PcOf(s.pcs, e.step.tid);
    if e.step.CheckIndex? {
      CheckKeeps(s1, t, pc.key, pc.lead, key);
    } else if e.step.DropEntry? {
      DropKeeps(s1, t, pc.key, pc.lead, key);
    } else if e.step.DropForDelete? {
      DropKeeps(s1, t, pc.key, false, key);
    } else if e.step.InsertEntry? {
      assert InWindow(pc) ==> !Has(s.index, pc.key);
      assert ThreadOk(s.fetched, s.installed, pc);
      InsertKeeps(cap, s1, t, pc.key, pc.obj, e.step.evictOk, key);
    } else {
      GoodElsewhere(cap, s, e, key);
    }
  }

  lemma GoodElsewhere(cap: int, s: State, e: Timed, key: string)
    requires Inv(cap, s) && Enabled(s, e)
    requires !e.step.CheckIndex? && !e.step.DropEntry? && !e.step.DropForDelete? && !e.step.InsertEntry?
    ensures Good(Do(cap, s, e), key) <==> Good(s, key) && !Spoils(cap, s, e, key)
  {
    var s1, t, pc := s.(now := e.time), e.step.tid, PcOf(s.pcs, e.step.tid);
    ProtocolTheorems.IndexSteps(cap, s, e);
    if e.step.WriteStore? {
      assert InWindow(pc) ==> !Has(s.index, pc.key);
      assert Do(cap, s, e).store == DoWrite(s1, t, pc.key, pc.obj, e.step.write).store;
    } else if !e.step.EraseStore? {
      ProtocolTheorems.StoreSteps(cap, s, e);
    }
  }

  lemma ReindexedNext(cap: int, s0: State, run: seq<Timed>, i: nat, n: nat, key: string)
    requires ValidRun(cap, s0, run) && i < n < |run|
    ensures Reindexed(cap, s0, run, i, n + 1, key) <==>
      || (Indexes(After(cap, s0, run, n), run[n], key) && Good(After(cap, s0, run, n + 1), key))
      || (Reindexed(cap, s0, run, i, n, key) && !Spoils(cap, After(cap, s0, run, n), run[n], key))
  {
  }

  /** One more step. */
  lemma GoodNext(cap: int, s0: State, run: seq<Timed>, n: nat, key: string)
    requires Inv(cap, s0) && ValidRun(cap, s0, run) && n < |run|
    ensures Good(After(cap, s0, run, n + 1), key) <==>
      || (Indexes(After(cap, s0, run, n), run[n], key) && Good(After(cap, s0, run, n + 1), key))
      || (Good(After(cap, s0, run, n), key) && !Spoils(cap, After(cap, s0, run, n), run[n], key))
  {
    AfterStep(cap, s0, run, n);
    AfterInv(cap, s0, run, n);
    var s := After(cap, s0, run, n);
    if Indexes(s, run[n], key) {
      NoGoodYet(cap, s, run[n], key);
    } else {
      GoodStep(cap, s, run[n], key);
    }
  }

  /** A key without a good entry after step i has one later exactly when a flight has indexed it since. */
  lemma {:induction false} GoodSince(cap: int, s0: State, run: seq<Timed>, i: nat, n: nat, key: string)
    requires Inv(cap, s0) && ValidRun(cap, s0, run) && i < n <= |run| && !Good(After(cap, s0, run, i + 1), key)
    ensures Good(After(cap, s0, run, n), key) <==> Reindexed(cap, s0, run, i, n, key)
    decreases n
  {
    if i < n - 1 {
      GoodSince(cap, s0, run, i, n - 1, key);
      ReindexedNext(cap, s0, run, i, n - 1, key);
      GoodNext(cap, s0, run, n - 1, key);
    }
  }

  /** A flight indexes only keys that are not indexed. */
  lemma NoGoodYet(cap: int, s: State, e: Timed, key: string)
    requires Inv(cap, s) && Enabled(s, e) && Indexes(s, e, key)
    ensures !Good(s, key)
  {
    assert InWindow(PcOf(s.pcs, e.step.tid));
  }

  lemma {:induction false} AfterInv(cap: int, s: State, run: seq<Timed>, n: nat)
    requires Inv(cap, s) && ValidRun(cap, s, run) && n <= |run|
    ensures Inv(cap, After(cap, s, run, n))
    decreases n
  {
    if n > 0 {
      StepInv(cap, s, run[0]);
      AfterInv(cap, Do(cap, s, run[0]), run[1..], n - 1);
    }
  }

  lemma StartsDropping(cap: int, s: State, e: Timed)
    requires Enabled(s, e) && e.step.ReadStore? && e.step.read.ReadError?
    ensures var pc, pc' := PcOf(s.pcs, e.step.tid), PcOf(Do(cap, s, e).pcs, e.step.tid);
      pc.Reading? && pc'.Dropping? && pc'.key == pc.key
  {
  }

  lemma {:induction false} StillDropping(cap: int, s0: State, run: seq<Timed>, t: nat, i: nat, n: nat)
    requires ValidRun(cap, s0, run) && i < n <= |run| && run[i].step == ReadStore(t, ReadError)
    requires forall k :: i < k < n ==> run[k].step.tid != t
    ensures PcOf(After(cap, s0, run, i).pcs, t).Reading?
    ensures var pc := PcOf(After(cap, s0, run, n).pcs, t); pc.Dropping? && pc.key == PcOf(After(cap, s0, run, i).pcs, t).key
    decreases n
  {
    AfterStep(cap, s0, run, n - 1);
    if i < n - 1 {
      StillDropping(cap, s0, run, t, i, n - 1);
      ProtocolTheorems.StepThreads(cap, After(cap, s0, run, n - 1), run[n - 1], t);
    } else {
      StartsDropping(cap, After(cap, s0, run, i), run[i]);
    }
  }

  /** A Get fails to read at step i, where its key has no good entry, and drops the entry at step j. In every
      run the key is not indexed then, and the drop has taken an entry with its object exactly when some flight
      had indexed the key between the two steps and nothing had spoiled that entry. */
  lemma DropTakesGoodExactly(cap: int, s0: State, run: seq<Timed>, t: nat, i: nat, j: nat)
    requires Init(s0) && ValidRun(cap, s0, run) && i < j < |run| && run[i].step == ReadStore(t, ReadError) && run[j].step == DropEntry(t)
    requires !Good(After(cap, s0, run, i), KeyAt(After(cap, s0, run, i), t)) && forall k :: i < k < j ==> run[k].step.tid != t
    ensures var key := KeyAt(After(cap, s0, run, i), t);
      && !Has(After(cap, s0, run, j + 1).index, key)
      && (Good(After(cap, s0, run, j), key) <==> Reindexed(cap, s0, run, i, j, key))
  {
    var key := KeyAt(After(cap, s0, run, i), t);
    InitInv(cap, s0);
    StillDropping(cap, s0, run, t, i, j);
    AfterStep(cap, s0, run, i);
    AfterInv(cap, s0, run, i);
    GoodStep(cap, After(cap, s0, run, i), run[i], key);
    GoodSince(cap, s0, run, i, j, key);
    AfterStep(cap, s0, run, j);
    AfterInv(cap, s0, run, j);
    RemoveEntryShape(cap, After(cap, s0, run, j).(now := run[j].time), key);
  }

  // ---- a run in which it does ----

  /** A failed read of the only entry. */
  lemma FailsToRead(cap: int, s0: State, run: seq<Timed>, s: State, t: nat, meta: Meta, time: int)
    returns (run': seq<Timed>, s': State)
    requires R.Reaches(cap, s0, run, s) && (PcOf(s.pcs, t).Idle? || PcOf(s.pcs, t).Done?) && s.index == [meta] && time > s.now
    requires !meta.Expired(time + 1)
    ensures R.Reaches(cap, s0, run', s')
    ensures R.Looks(s', time + 2, s.index, s.store, s.group, s.pcs[t := Dropping(meta.key, false)])
  {
    run', s' := R.GoBegin(cap, s0, run, s, t, meta.key, time);
    run', s' := R.GoHit(cap, s0, run', s', t, meta, time + 1);
    run', s' := R.Go(cap, s0, run', s', ReadStore(t, ReadError), time + 2);
    R.Overwrite(s.pcs, t, Checking(meta.key, false), Reading(meta.key, false, meta, time + 1), Dropping(meta.key, false));
  }

  /** The drop that follows it. */
  lemma Drops(cap: int, s0: State, run: seq<Timed>, s: State, t: nat, key: string, time: int)
    returns (run': seq<Timed>, s': State)
    requires R.Reaches(cap, s0, run, s) && PcOf(s.pcs, t) == Dropping(key, false) && |s.index| == 1 && s.index[0].key == key
    requires time > s.now
    ensures R.Reaches(cap, s0, run', s')
    ensures s' == Do(cap, s, At(time, DropEntry(t))) && R.Looks(s', time, [], s.store, s.group, s.pcs[t := Entering(key)])
  {
    run', s' := R.Go(cap, s0, run, s, DropEntry(t), time);
    assert s' == Missed(RemoveEntry(s.(now := time), key), t, key, false);
  }

  /** Two requests fail to read the dangling entry. */
  lemma BothFail(cap: int, s0: State, key: string, body: Bytes, ttl: int) returns (run: seq<Timed>, s: State)
    requires cap > 0 && Init(s0) && ttl > 20
    ensures R.Reaches(cap, s0, run, s) && s.now == s0.now + 17 && |s.index| == 1 && s.index[0].key == key && s.group == map[]
    ensures PcOf(s.pcs, 2) == Dropping(key, false) && PcOf(s.pcs, 3) == Dropping(key, false)
  {
    var meta;
    run, s, meta := R.Dangles(cap, s0, key, body, ttl);
    assert PcOf(s.pcs, 2).Idle? && PcOf(s.pcs, 3).Idle?;
    run, s := FailsToRead(cap, s0, run, s, 2, meta, s0.now + 12);
    assert PcOf(s.pcs, 3).Idle?;
    run, s := FailsToRead(cap, s0, run, s, 3, meta, s0.now + 15);
  }

  /** One of them drops the entry and fetches the key again. */
  lemma OneFetches(cap: int, s0: State, run: seq<Timed>, s: State, key: string, body: Bytes, ttl: int)
    returns (run': seq<Timed>, s': State, obj: Obj)
    requires R.Reaches(cap, s0, run, s) && |s.index| == 1 && s.index[0].key == key && s.group == map[]
    requires PcOf(s.pcs, 2) == Dropping(key, false) && PcOf(s.pcs, 3) == Dropping(key, false)
    ensures R.Reaches(cap, s0, run', s') && s'.index == [] && obj.meta.key == key
    ensures PcOf(s'.pcs, 2) == Dropping(key, false) && PcOf(s'.pcs, 3) == Writing(key, obj)
  {
    var n := s.now;
    run', s' := Drops(cap, s0, run, s, 3, key, n + 1);
    run', s' := R.GoLead(cap, s0, run', s', 3, key, n + 2);
    run', s' := R.GoMiss(cap, s0, run', s', 3, key, true, n + 3);
    run', s' := R.GoResponse(cap, s0, run', s', 3, key, body, ttl, n + 4);
    obj := R.Answer(key, body, ttl, n + 4);
  }

  /** It stores and indexes the new object. */
  lemma OneIndexes(cap: int, s0: State, run: seq<Timed>, s: State, key: string, obj: Obj) returns (run': seq<Timed>, s': State)
    requires cap > 0 && R.Reaches(cap, s0, run, s) && s.index == [] && obj.meta.key == key
    requires PcOf(s.pcs, 2) == Dropping(key, false) && PcOf(s.pcs, 3) == Writing(key, obj)
    ensures R.Reaches(cap, s0, run', s') && |s'.index| == 1 && s'.index[0].key == key && key in s'.store
    ensures PcOf(s'.pcs, 2) == Dropping(key, false)
  {
    run', s' := R.GoWrite(cap, s0, run, s, 3, key, obj, s.now + 1);
    run', s' := R.GoInsert(cap, s0, run', s', 3, key, obj, s.now + 2);
  }

  /** Two requests fail to read the dangling entry; one drops it, fetches and indexes the key again; then the other
      drops the new entry, whose object is there. */
  lemma GoodEntryIsDropped(cap: int, s0: State, key: string, body: Bytes, ttl: int)
    requires cap > 0 && Init(s0) && ttl > 20
    ensures exists run: seq<Timed>, drop: Timed ::
      && ValidRun(cap, s0, run) && StrictClock(s0.now, run) && drop.step == DropEntry(2) && Enabled(Run(cap, s0, run), drop)
      && Good(Run(cap, s0, run), key) && !Has(Do(cap, Run(cap, s0, run), drop).index, key)
  {
    var run, s := BothFail(cap, s0, key, body, ttl);
    var obj;
    run, s, obj := OneFetches(cap, s0, run, s, key, body, ttl);
    run, s := OneIndexes(cap, s0, run, s, key, obj);
    var drop := At(s.now + 1, DropEntry(2));
    var run', s' := Drops(cap, s0, run, s, 2, key, s.now + 1);
    assert Enabled(s, drop) && !Has(Do(cap, s, drop).index, key);
  }
}
