/**
 * The TTL-indexed wrapper of kcache/cache.go around the LRU of module Lru.
 *
 * The wrapper creates its LRU lazily on the first add and keeps `exmp`, the
 * set of keys it has added with an expiry, so that the active-expiry sweep
 * (CheckEx) has keys to sample. CacheState and the functions on it are the
 * reference behaviour; the class Cache implements them on a Lru.Cache object.
 */
module LocalCache {
  import opened Wrappers
  import opened Lru

  /** The fields of one wrapper: capacity, the LRU (None until the first add)
      and the expiry index. */
  datatype CacheState = CacheState(capacity: int, lru: Option<LruState>, exmp: set<Bytes>)

  /** What newCache(capacity) builds. */
  function NewCacheState(capacity: int): CacheState {
    CacheState(capacity, None, {})
  }

  /** The LRU add works on: the existing one, or the one it creates. */
  function LruOf(cs: CacheState): LruState {
    if cs.lru.Some? then cs.lru.value else NewState(cs.capacity, false)
  }

  /** Every held key whose entry has an expiry is in the index. */
  predicate ExpiringKeysIndexed(st: LruState, exmp: set<Bytes>) {
    forall k :: k in Index(st.list) && Index(st.list)[k].expire.Some? ==> k in exmp
  }

  /** The invariant of the wrapper: without an LRU the index is empty; with
      one, the LRU is consistent, has the wrapper's capacity and no callback,
      and every key it holds with an expiry is indexed. */
  predicate Tracked(cs: CacheState) {
    if cs.lru.None? then cs.exmp == {}
    else
      var st := cs.lru.value;
      Consistent(st) && st.capacity == cs.capacity && !st.hasCallback
      && ExpiringKeysIndexed(st, cs.exmp)
  }

  /** add returns: the LRU's eviction loop can end for this entry. */
  predicate CanAdd(cs: CacheState, key: Bytes, value: Bytes) {
    CanFit(LruOf(cs), Charge(key, value))
  }

  /** add(key, value, expire). */
  function CacheAdd(cs: CacheState, key: Bytes, value: Bytes, expire: Option<int>): CacheState
    requires CanAdd(cs, key, value)
  {
    cs.(lru := Some(AddSpec(LruOf(cs), key, value, expire)),
        exmp := if expire.None? then cs.exmp - {key} else cs.exmp + {key})
  }

  /** get(key): a miss of any kind answers (empty, -1, false); a lazy expiry
      in the LRU also takes the key out of the index. */
  function CacheGet(cs: CacheState, key: Bytes, now: int): (CacheState, Lookup) {
    if cs.lru.None? then (cs, Lookup([], -1, false))
    else
      var (st, l) := GetSpec(cs.lru.value, key, now);
      var exmp := if l.ex == -1 && !l.ok then cs.exmp - {key} else cs.exmp;
      (cs.(lru := Some(st), exmp := exmp), if l.ok then l else Lookup([], -1, false))
  }

  /** del(key). */
  function CacheDel(cs: CacheState, key: Bytes): (CacheState, bool) {
    if cs.lru.None? then (cs, false)
    else if key in Index(cs.lru.value.list) then
      (cs.(lru := Some(RemoveElementSpec(cs.lru.value, key)), exmp := cs.exmp - {key}), true)
    else (cs, true)
  }

  /** The LRU exists and its IsEx holds for the key. */
  predicate Expiring(cs: CacheState, key: Bytes, now: int) {
    cs.lru.Some? && IsExpiredIn(cs.lru.value, key, now)
  }

  /** How many of l indexed keys one sweep samples. */
  function SampleSize(l: nat): nat {
    l / 5 + 1
  }

  /** The sweep over the sampled keys, in order: delete the key when IsEx
      holds for it, and list it. */
  function SweepKeys(cs: CacheState, keys: seq<Bytes>, now: int): (CacheState, seq<Bytes>)
    decreases |keys|
  {
    if keys == [] then (cs, [])
    else if Expiring(cs, keys[0], now) then
      var (r, d) := SweepKeys(CacheDel(cs, keys[0]).0, keys[1..], now);
      (r, [keys[0]] + d)
    else SweepKeys(cs, keys[1..], now)
  }

  /** `order` lists the keys of the index, each once (the shuffled key slice). */
  predicate IsOrdering(order: seq<Bytes>, exmp: set<Bytes>) {
    |order| == |exmp| && (forall k :: k in order ==> k in exmp) && (forall k :: k in exmp ==> k in order)
  }

  /** One iteration of CheckEx's loop, after the sleep, with the shuffled key
      order given. */
  function CheckExStep(cs: CacheState, order: seq<Bytes>, now: int): (CacheState, seq<Bytes>)
    requires IsOrdering(order, cs.exmp)
  {
    if |cs.exmp| == 0 then (cs, [])
    else SweepKeys(cs, order[..SampleSize(|cs.exmp|)], now)
  }

  /** The sampled keys a sweep finds expired. */
  function ExpiredAmong(cs: CacheState, keys: seq<Bytes>, now: int): set<Bytes> {
    set k | k in keys && Expiring(cs, k, now)
  }

  // ---------------------------------------------------------------------------
  // Properties

  /** Before the first add there is no LRU: get answers (empty, -1, false) and
      del false, both changing nothing, and add creates the LRU with the
      wrapper's capacity and no callback. */
  lemma NoLruBeforeAdd(cs: CacheState, key: Bytes, value: Bytes, expire: Option<int>, now: int)
    requires Tracked(cs) && cs.lru.None?
    ensures cs.exmp == {}
    ensures CacheGet(cs, key, now) == (cs, Lookup([], -1, false))
    ensures CacheDel(cs, key) == (cs, false)
    ensures CanAdd(cs, key, value) ==>
      CacheAdd(cs, key, value, expire).lru == Some(AddSpec(NewState(cs.capacity, false), key, value, expire))
  {
  }

  /** After add, the key is indexed exactly when it was added with an expiry,
      no other key's membership changes, the entry is at the LRU's front and
      the invariant holds. */
  lemma AddTracksExpiry(cs: CacheState, key: Bytes, value: Bytes, expire: Option<int>)
    requires Tracked(cs) && CanAdd(cs, key, value)
    ensures var r := CacheAdd(cs, key, value, expire);
      && Tracked(r)
      && (key in r.exmp <==> expire.Some?)
      && r.exmp - {key} == cs.exmp - {key}
      && r.lru.Some? && r.lru.value.list[0] == Entry(key, value, expire)
  {
    var st := LruOf(cs);
    var need := Charge(key, value);
    var ev := Evict(st, need);
    var r := CacheAdd(cs, key, value, expire);
    EvictShape(st, need);
    AddPutsEntryFirst(st, key, value, expire);
    var e := Entry(key, value, expire);
    var rs := AddSpec(st, key, value, expire);
    assert Index(rs.list) == Index(ev.list)[key := e];
    forall k | k in Index(rs.list) && Index(rs.list)[k].expire.Some?
      ensures k in r.exmp
    {
      if k != key {
        IndexPrefix(st.list, |ev.list|, k);
      }
    }
  }

  /** add then get of the same key, at a time its expiry has not passed,
      answers the value just added and its seconds left. */
  lemma AddThenGetHits(cs: CacheState, key: Bytes, value: Bytes, expire: Option<int>, now: int)
    requires Tracked(cs) && CanAdd(cs, key, value)
    requires expire.None? || now <= expire.value
    ensures CacheGet(CacheAdd(cs, key, value, expire), key, now).1
      == Lookup(value, if expire.None? then 0 else expire.value - now, true)
  {
    AddPutsEntryFirst(LruOf(cs), key, value, expire);
    AddTracksExpiry(cs, key, value, expire);
    GetFollowsLru(CacheAdd(cs, key, value, expire), key, now);
  }

  /** get: a found key answers the LRU's value and seconds left; any miss
      answers (empty, -1, false); the key leaves the index exactly when IsEx
      held for it (the LRU's lazy expiry); the invariant holds. */
  lemma GetFollowsLru(cs: CacheState, key: Bytes, now: int)
    requires Tracked(cs)
    ensures var (r, l) := CacheGet(cs, key, now);
      && Tracked(r)
      && (cs.lru.None? ==> r == cs)
      && (l.ok <==> cs.lru.Some? && key in Index(cs.lru.value.list) && !Expired(Index(cs.lru.value.list)[key], now))
      && (l.ok ==> l.value == Index(cs.lru.value.list)[key].value
                   && l.ex == Remaining(Index(cs.lru.value.list)[key], now))
      && (!l.ok ==> l == Lookup([], -1, false))
      && r.exmp == (if Expiring(cs, key, now) then cs.exmp - {key} else cs.exmp)
  {
    if cs.lru.Some? {
      GetExpires(cs.lru.value, key, now);
      GetHitPromotes(cs.lru.value, key, now);
    }
  }

  /** del: false before the first add; a held key leaves the LRU (charged
      back without its 24 bytes) and the index and del answers true; a key not
      held changes nothing and del still answers true. */
  lemma DelResults(cs: CacheState, key: Bytes)
    requires Tracked(cs)
    ensures var (r, ok) := CacheDel(cs, key);
      && Tracked(r)
      && (ok <==> cs.lru.Some?)
      && (cs.lru.None? ==> r == cs)
      && (cs.lru.Some? && key in Index(cs.lru.value.list) ==>
            && r.lru.Some?
            && Index(r.lru.value.list) == Index(cs.lru.value.list) - {key}
            && r.lru.value.list == Drop(cs.lru.value.list, {key})
            && r.lru.value.uncharged == cs.lru.value.uncharged + 1
            && r.exmp == cs.exmp - {key})
      && (cs.lru.Some? && key !in Index(cs.lru.value.list) ==> r == cs)
  {
    if cs.lru.Some? && key in Index(cs.lru.value.list) {
      RemoveElementLeavesOverhead(cs.lru.value, key);
    }
  }

  /** The converse of the invariant fails: eviction inside the LRU's Add
      leaves the evicted key in the index. With capacity 30, adding key "a"
      with an expiry and then key "b" without one evicts "a", which stays
      indexed. */
  lemma IndexMayHoldEvictedKey()
    ensures var a: Bytes := [97]; var b: Bytes := [98];
      var c0 := NewCacheState(30);
      && CanAdd(c0, a, [])
      && var c1 := CacheAdd(c0, a, [], Some(100));
      && CanAdd(c1, b, [])
      && var c2 := CacheAdd(c1, b, [], None);
      && Tracked(c2)
      && c2.lru.Some? && a !in Index(c2.lru.value.list) && a in c2.exmp
  {
    var a: Bytes := [97];
    var b: Bytes := [98];
    var c0 := NewCacheState(30);
    var s0 := NewState(30, false);
    assert Evict(s0, 25) == s0;
    var c1 := CacheAdd(c0, a, [], Some(100));
    var s1 := c1.lru.value;
    assert s1.list == [Entry(a, [], Some(100))];
    assert s1.length == 25;
    var s1' := RemoveTail(s1);
    assert s1'.list == [] && s1'.length == 0;
    assert Evict(s1', 25) == s1';
    assert Evict(s1, 25) == s1';
    var c2 := CacheAdd(c1, b, [], None);
    assert c2.lru.value.list == [Entry(b, [], None)];
    assert Index(c2.lru.value.list) == map[b := Entry(b, [], None)];
    AddTracksExpiry(c0, a, [], Some(100));
    AddTracksExpiry(c1, b, [], None);
  }

  /** The sample is in bounds: at least one key and at most l of them. */
  lemma SampleInBounds(l: nat)
    requires l >= 1
    ensures 1 <= SampleSize(l) <= l
  {
  }

  /** Deleting a held key leaves IsEx unchanged for every other key. */
  lemma ExpiringAfterDel(cs: CacheState, k0: Bytes, k: Bytes, now: int)
    requires Tracked(cs) && cs.lru.Some? && k0 in Index(cs.lru.value.list)
    ensures Expiring(CacheDel(cs, k0).0, k, now) <==> k != k0 && Expiring(cs, k, now)
  {
    IndexDrop(cs.lru.value.list, {k0});
  }

  /** A sweep over keys deletes exactly the keys among them for which IsEx
      held at the start, from the LRU and from the index, lists exactly those
      keys, and keeps the invariant; every other key stays as it was. */
  lemma {:induction false} SweepDeletesExpired(cs: CacheState, keys: seq<Bytes>, now: int)
    requires Tracked(cs) && cs.lru.Some?
    ensures var (r, d) := SweepKeys(cs, keys, now); var dead := ExpiredAmong(cs, keys, now);
      && Tracked(r) && r.lru.Some?
      && r.lru.value.list == Drop(cs.lru.value.list, dead)
      && r.lru.value.uncharged == cs.lru.value.uncharged + |d|
      && r.exmp == cs.exmp - dead
      && (forall k :: k in d <==> k in dead)
    decreases |keys|
  {
    if keys == [] {
      assert ExpiredAmong(cs, keys, now) == {};
      DropAbsent(cs.lru.value.list, {});
    } else {
      var k0 := keys[0];
      var rest := keys[1..];
      if Expiring(cs, k0, now) {
        var cs1 := CacheDel(cs, k0).0;
        DelResults(cs, k0);
        SweepDeletesExpired(cs1, rest, now);
        var dead1 := ExpiredAmong(cs1, rest, now);
        forall k ensures k in ExpiredAmong(cs, keys, now) <==> k in {k0} + dead1 {
          ExpiringAfterDel(cs, k0, k, now);
          assert k in keys <==> k == k0 || k in rest;
        }
        assert ExpiredAmong(cs, keys, now) == {k0} + dead1;
        DropDrop(cs.lru.value.list, {k0}, dead1);
      } else {
        SweepDeletesExpired(cs, rest, now);
        forall k ensures k in ExpiredAmong(cs, keys, now) <==> k in ExpiredAmong(cs, rest, now) {
          assert k in keys <==> k == k0 || k in rest;
        }
        assert ExpiredAmong(cs, keys, now) == ExpiredAmong(cs, rest, now);
      }
    }
  }

  /** One CheckEx iteration: nothing happens with an empty index; otherwise
      the LRU exists (so IsEx may be called), the first l/5+1 keys of the
      order are sampled, and exactly the sampled keys for which IsEx holds
      are deleted and reported; unsampled and unexpired keys stay. */
  lemma CheckExDeletesSampledExpired(cs: CacheState, order: seq<Bytes>, now: int)
    requires Tracked(cs) && IsOrdering(order, cs.exmp)
    ensures var (r, exk) := CheckExStep(cs, order, now);
      && Tracked(r)
      && (cs.exmp == {} ==> r == cs && exk == [])
      && (cs.exmp != {} ==>
            && cs.lru.Some?
            && 1 <= SampleSize(|cs.exmp|) <= |order|
            && var dead := ExpiredAmong(cs, order[..SampleSize(|cs.exmp|)], now);
            && r.lru.Some?
            && r.lru.value.list == Drop(cs.lru.value.list, dead)
            && r.exmp == cs.exmp - dead
            && (forall k :: k in exk <==> k in dead))
  {
    if cs.exmp != {} {
      assert |cs.exmp| >= 1;
      SampleInBounds(|cs.exmp|);
      SweepDeletesExpired(cs, order[..SampleSize(|cs.exmp|)], now);
    }
  }

  // ---------------------------------------------------------------------------
  // The wrapper object

  /** Go's cache struct; the mutex is not modelled. */
  class Cache {
    const capacity: int
    var lru: Lru.Cache?
    var exmp: set<Bytes>
    ghost var Repr: set<object>

    ghost function State(): CacheState
      reads this, lru
    {
      CacheState(capacity, if lru == null then None else Some(lru.State()), exmp)
    }

    ghost predicate Valid()
      reads this, Repr
    {
      && this in Repr
      && (lru == null ==> Repr == {this})
      && (lru != null ==> Repr == {this, lru} && lru.Valid())
      && Tracked(State())
    }

    /** newCache(capacity): no LRU yet, an empty index. */
    constructor (capacity: int)
      ensures Valid() && fresh(Repr) && State() == NewCacheState(capacity)
    {
      this.capacity := capacity;
      lru := null;
      exmp := {};
      Repr := {this};
    }

    method Add(key: Bytes, value: Bytes, expire: Option<int>)
      requires Valid() && CanAdd(State(), key, value)
      modifies Repr
      ensures Valid() && fresh(Repr - old(Repr))
      ensures State() == CacheAdd(old(State()), key, value, expire)
    {
      AddTracksExpiry(State(), key, value, expire);
      if lru == null {
        lru := new Lru.Cache(capacity, false);
        Repr := Repr + {lru};
      }
      lru.Add(key, value, expire);
      if expire.None? {
        exmp := exmp - {key};
      } else {
        exmp := exmp + {key};
      }
    }

    method Get(key: Bytes, now: int) returns (value: Bytes, ex: int, ok: bool)
      requires Valid()
      modifies Repr
      ensures Valid() && Repr == old(Repr)
      ensures (State(), Lookup(value, ex, ok)) == CacheGet(old(State()), key, now)
    {
      if lru == null {
        return [], -1, false;
      }
      GetFollowsLru(State(), key, now);
      var v, e, o := lru.Get(key, now);
      if e == -1 && !o {
        exmp := exmp - {key};
      }
      if o {
        return v, e, true;
      }
      return [], -1, false;
    }

    method Del(key: Bytes) returns (r: bool)
      requires Valid()
      modifies Repr
      ensures Valid() && Repr == old(Repr)
      ensures (State(), r) == CacheDel(old(State()), key)
    {
      if lru == null {
        return false;
      }
      DelResults(State(), key);
      if key in lru.hashmap {
        var ele := lru.hashmap[key];
        IndexIn(lru.list, key);
        lru.RemoveElement(ele);
        exmp := exmp - {key};
        return true;
      }
      return true;
    }

    /** One iteration of CheckEx, `order` being the shuffled key slice. */
    method CheckExOnce(order: seq<Bytes>, now: int) returns (exk: seq<Bytes>)
      requires Valid() && IsOrdering(order, exmp)
      modifies Repr
      ensures Valid() && Repr == old(Repr)
      ensures (State(), exk) == CheckExStep(old(State()), order, now)
    {
      var l := |exmp|;
      if l == 0 {
        assert CheckExStep(State(), order, now) == (State(), []);
        return [];
      }
      SampleInBounds(l);
      var cl := order[..l / 5 + 1];
      exk := [];
      var i := 0;
      while i < |cl|
        invariant 0 <= i <= |cl|
        invariant Valid() && Repr == old(Repr) && lru != null
        invariant SweepKeys(State(), cl[i..], now).0 == SweepKeys(old(State()), cl, now).0
        invariant exk + SweepKeys(State(), cl[i..], now).1 == SweepKeys(old(State()), cl, now).1
      {
        var key := cl[i];
        assert cl[i..][0] == key && cl[i..][1..] == cl[i + 1..];
        if lru.IsEx(key, now) {
          var _ := Del(key);
          exk := exk + [key];
        }
        i := i + 1;
      }
      assert cl[i..] == [];
      assert SweepKeys(State(), cl[i..], now) == (State(), []);
      assert CheckExStep(old(State()), order, now) == SweepKeys(old(State()), cl, now);
      assert exk + [] == exk;
      assert exk == SweepKeys(old(State()), cl, now).1;
      assert State() == SweepKeys(old(State()), cl, now).0;
    }
  }
}
