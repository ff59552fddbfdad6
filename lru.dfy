/**
 * The expiring, byte-bounded LRU cache of kcache/lru/lru.go.
 *
 * The doubly linked list is a sequence of entries, front (index 0) the most
 * recently used; Hashmap is a map from key to entry that the class keeps equal
 * to Index(list). The pure functions on LruState below are the reference
 * behaviour of each operation; the class Cache implements them in place.
 * Time is an integer `now`; an expiry of None is Go's zero time.Time.
 */
module Lru {
  import opened Wrappers

  newtype byte = x: int | 0 <= x < 256

  /** A Go string or byte slice; len() of either counts bytes. */
  type Bytes = seq<byte>

  /** Bytes charged per entry on top of key and value (the size of a time.Time). */
  const EntryOverhead: nat := 24

  /** What one list node holds (Go's lru.Value). */
  datatype Entry = Entry(key: Bytes, value: Bytes, expire: Option<int>)

  /** The charge Add makes for an entry: len(key) + len(value) + 24. */
  function Charge(key: Bytes, value: Bytes): nat {
    |key| + |value| + EntryOverhead
  }

  /** Sum of the charges of the entries of s. */
  function TotalCharge(s: seq<Entry>): nat {
    if s == [] then 0 else Charge(s[0].key, s[0].value) + TotalCharge(s[1..])
  }

  /** The entry has an expiry and it lies strictly before now. */
  predicate Expired(e: Entry, now: int) {
    e.expire.Some? && e.expire.value < now
  }

  /** The key -> entry map of a list; an earlier entry wins over a later one. */
  function Index(s: seq<Entry>): map<Bytes, Entry> {
    if s == [] then map[] else Index(s[1..])[s[0].key := s[0]]
  }

  /** No two entries of s carry the same key. */
  predicate DistinctKeys(s: seq<Entry>) {
    s == [] || (s[0].key !in Index(s[1..]) && DistinctKeys(s[1..]))
  }

  /** s without the entries whose key is in ks, in the same order. */
  function Drop(s: seq<Entry>, ks: set<Bytes>): seq<Entry> {
    if s == [] then []
    else (if s[0].key in ks then [] else [s[0]]) + Drop(s[1..], ks)
  }

  function Reverse(s: seq<Entry>): seq<Entry> {
    if s == [] then [] else [s[|s| - 1]] + Reverse(s[..|s| - 1])
  }

  // ---------------------------------------------------------------------------
  // Facts about lists of entries

  lemma {:induction false} TotalChargeAppend(a: seq<Entry>, b: seq<Entry>)
    ensures TotalCharge(a + b) == TotalCharge(a) + TotalCharge(b)
  {
    if a == [] {
      assert a + b == b;
    } else {
      assert (a + b)[1..] == a[1..] + b;
      TotalChargeAppend(a[1..], b);
    }
  }

  lemma {:induction false} IndexDrop(s: seq<Entry>, ks: set<Bytes>)
    ensures Index(Drop(s, ks)) == Index(s) - ks
  {
    if s != [] {
      IndexDrop(s[1..], ks);
      if s[0].key !in ks {
        assert ([s[0]] + Drop(s[1..], ks))[1..] == Drop(s[1..], ks);
      } else {
        assert Drop(s, ks) == Drop(s[1..], ks);
      }
    }
  }

  lemma {:induction false} DropDistinct(s: seq<Entry>, ks: set<Bytes>)
    requires DistinctKeys(s)
    ensures DistinctKeys(Drop(s, ks))
  {
    if s != [] {
      DropDistinct(s[1..], ks);
      IndexDrop(s[1..], ks);
      if s[0].key !in ks {
        assert ([s[0]] + Drop(s[1..], ks))[1..] == Drop(s[1..], ks);
      } else {
        assert Drop(s, ks) == Drop(s[1..], ks);
      }
    }
  }

  lemma {:induction false} DropAbsent(s: seq<Entry>, ks: set<Bytes>)
    requires forall k :: k in ks ==> k !in Index(s)
    ensures Drop(s, ks) == s
  {
    if s != [] {
      assert s[0].key in Index(s);
      DropAbsent(s[1..], ks);
      calc {
        Drop(s, ks);
        [s[0]] + Drop(s[1..], ks);
        [s[0]] + s[1..];
        s;
      }
    }
  }

  /** Every entry is indexed under its key, and with distinct keys by itself. */
  lemma {:induction false} IndexAt(s: seq<Entry>, i: nat)
    requires i < |s|
    ensures s[i].key in Index(s)
    ensures DistinctKeys(s) ==> Index(s)[s[i].key] == s[i]
  {
    if i > 0 {
      IndexAt(s[1..], i - 1);
    }
  }

  /** Whatever the index holds for k is an entry of the list carrying k. */
  lemma {:induction false} IndexIn(s: seq<Entry>, k: Bytes)
    requires k in Index(s)
    ensures Index(s)[k] in s && Index(s)[k].key == k
  {
    if s[0].key != k {
      IndexIn(s[1..], k);
    }
  }

  lemma {:induction false} TotalChargeDropOne(s: seq<Entry>, k: Bytes)
    requires DistinctKeys(s) && k in Index(s)
    ensures TotalCharge(Drop(s, {k})) + Charge(k, Index(s)[k].value) == TotalCharge(s)
  {
    if s[0].key == k {
      DropAbsent(s[1..], {k});
      assert Drop(s, {k}) == Drop(s[1..], {k});
    } else {
      TotalChargeDropOne(s[1..], k);
      assert Drop(s, {k}) == [s[0]] + Drop(s[1..], {k});
      assert ([s[0]] + Drop(s[1..], {k}))[1..] == Drop(s[1..], {k});
    }
  }

  /** With distinct keys, cutting off the tail is dropping the tail's key. */
  lemma {:induction false} LastIsDrop(s: seq<Entry>)
    requires DistinctKeys(s) && s != []
    ensures s[..|s| - 1] == Drop(s, {s[|s| - 1].key})
  {
    var k := s[|s| - 1].key;
    if |s| == 1 {
      assert Drop(s, {k}) == [] + Drop(s[1..], {k});
    } else {
      IndexAt(s[1..], |s| - 2);
      assert s[1..][|s| - 2] == s[|s| - 1];
      LastIsDrop(s[1..]);
      assert s[1..][..|s| - 2] == s[1..|s| - 1];
      assert Drop(s, {k}) == [s[0]] + Drop(s[1..], {k});
      assert s[..|s| - 1] == [s[0]] + s[1..|s| - 1];
    }
  }

  /** Dropping two key sets one after the other is dropping their union. */
  lemma {:induction false} DropDrop(s: seq<Entry>, a: set<Bytes>, b: set<Bytes>)
    ensures Drop(Drop(s, a), b) == Drop(s, a + b)
  {
    if s != [] {
      DropDrop(s[1..], a, b);
      if s[0].key in a {
        assert Drop(s, a) == Drop(s[1..], a);
      } else {
        assert Drop(s, a) == [s[0]] + Drop(s[1..], a);
        assert ([s[0]] + Drop(s[1..], a))[1..] == Drop(s[1..], a);
      }
    }
  }

  /** A prefix of a list with distinct keys indexes its keys as the list does. */
  lemma {:induction false} IndexPrefix(s: seq<Entry>, m: nat, k: Bytes)
    requires DistinctKeys(s) && m <= |s| && k in Index(s[..m])
    ensures k in Index(s) && Index(s)[k] == Index(s[..m])[k]
  {
    assert s[..m][0] == s[0];
    assert s[..m][1..] == s[1..][..m - 1];
    if s[0].key != k {
      IndexPrefix(s[1..], m - 1, k);
    }
  }

  /** Moving an indexed entry to the front keeps the index and the distinctness. */
  lemma MoveToFrontKeepsIndex(s: seq<Entry>, k: Bytes)
    requires DistinctKeys(s) && k in Index(s)
    ensures Index([Index(s)[k]] + Drop(s, {k})) == Index(s)
    ensures DistinctKeys([Index(s)[k]] + Drop(s, {k}))
    ensures TotalCharge([Index(s)[k]] + Drop(s, {k})) == TotalCharge(s)
  {
    var e := Index(s)[k];
    IndexIn(s, k);
    var t := [e] + Drop(s, {k});
    assert t[1..] == Drop(s, {k});
    IndexDrop(s, {k});
    DropDistinct(s, {k});
    TotalChargeDropOne(s, k);
  }

  /** Pushing an entry with a key the list does not hold. */
  lemma PushNewKey(s: seq<Entry>, e: Entry)
    requires DistinctKeys(s) && e.key !in Index(s)
    ensures DistinctKeys([e] + s) && Index([e] + s) == Index(s)[e.key := e]
    ensures TotalCharge([e] + s) == Charge(e.key, e.value) + TotalCharge(s)
  {
    assert ([e] + s)[1..] == s;
  }

  /** Replacing the entry of an indexed key and moving it to the front. */
  lemma ReplaceKey(s: seq<Entry>, e: Entry)
    requires DistinctKeys(s) && e.key in Index(s)
    ensures DistinctKeys([e] + Drop(s, {e.key})) && Index([e] + Drop(s, {e.key})) == Index(s)[e.key := e]
    ensures TotalCharge([e] + Drop(s, {e.key})) == TotalCharge(s) + |e.value| - |Index(s)[e.key].value|
  {
    var t := [e] + Drop(s, {e.key});
    assert t[1..] == Drop(s, {e.key});
    IndexDrop(s, {e.key});
    DropDistinct(s, {e.key});
    TotalChargeDropOne(s, e.key);
  }

  // ---------------------------------------------------------------------------
  // The abstract state and the reference behaviour of each operation

  /** The fields of one Cache; `uncharged` counts RemoveElement calls. */
  datatype LruState = LruState(capacity: int, hasCallback: bool, list: seq<Entry>,
                               length: int, uncharged: nat, evicted: seq<Entry>)

  /** The invariant every operation keeps: distinct keys, and `length` is the
      sum of the live charges plus 24 bytes per entry RemoveElement removed. */
  predicate Consistent(st: LruState) {
    DistinctKeys(st.list) && st.length == TotalCharge(st.list) + EntryOverhead * st.uncharged
  }

  /** What New(maxBytes, callback) builds. */
  function NewState(capacity: int, hasCallback: bool): LruState {
    LruState(capacity, hasCallback, [], 0, 0, [])
  }

  /** Remove: drop the tail entry, uncharge it in full, report it to the callback. */
  function RemoveTail(st: LruState): LruState {
    if st.list == [] then st
    else
      var tail := st.list[|st.list| - 1];
      st.(list := st.list[..|st.list| - 1],
          length := st.length - Charge(tail.key, tail.value),
          evicted := st.evicted + (if st.hasCallback then [tail] else []))
  }

  /** Add's eviction loop ends: there is no bound, or taking every entry off
      would leave room for `need` more bytes. */
  predicate CanFit(st: LruState, need: int) {
    st.capacity == 0 || st.length - TotalCharge(st.list) + need <= st.capacity
  }

  /** Add's eviction loop: Remove while the bound is set and `need` does not fit. */
  function Evict(st: LruState, need: nat): LruState
    requires CanFit(st, need)
    decreases |st.list|
  {
    if st.capacity == 0 || st.length + need <= st.capacity then st
    else
      EvictStep(st, need);
      Evict(RemoveTail(st), need)
  }

  /** One turn of Add's eviction loop: the list is not empty and removing the
      tail keeps the loop able to end. */
  lemma EvictStep(st: LruState, need: nat)
    requires CanFit(st, need) && st.capacity != 0 && st.length + need > st.capacity
    ensures st.list != [] && CanFit(RemoveTail(st), need)
  {
    var n := |st.list|;
    TotalChargeAppend(st.list[..n - 1], [st.list[n - 1]]);
    assert st.list[..n - 1] + [st.list[n - 1]] == st.list;
  }

  /** The eviction loop only takes entries off the tail, keeps the bytes not
      accounted to live entries, and stops with room for `need` (or with no
      bound). */
  lemma {:induction false} EvictShape(st: LruState, need: nat)
    requires CanFit(st, need)
    ensures var r := Evict(st, need);
      && r.capacity == st.capacity && r.hasCallback == st.hasCallback && r.uncharged == st.uncharged
      && |r.list| <= |st.list| && r.list == st.list[..|r.list|]
      && r.length - TotalCharge(r.list) == st.length - TotalCharge(st.list)
      && (r.capacity == 0 || r.length + need <= r.capacity)
    decreases |st.list|
  {
    if !(st.capacity == 0 || st.length + need <= st.capacity) {
      var n := |st.list|;
      var tail := st.list[n - 1];
      EvictStep(st, need);
      var st' := RemoveTail(st);
      TotalChargeAppend(st.list[..n - 1], [tail]);
      assert st.list[..n - 1] + [tail] == st.list;
      assert st'.length - TotalCharge(st'.list) == st.length - TotalCharge(st.list);
      EvictShape(st', need);
      var r := Evict(st', need);
      assert r == Evict(st, need);
      assert r.list == st'.list[..|r.list|] == st.list[..|r.list|];
    }
  }

  /** The eviction loop stops at the first fit: for every longer prefix of
      the list than the one it keeps, keeping that prefix (removing only the
      entries behind it) would still leave no room for `need`. */
  lemma {:induction false} EvictMinimal(st: LruState, need: nat, m: nat)
    requires CanFit(st, need) && st.capacity != 0
    requires |Evict(st, need).list| < m <= |st.list|
    ensures st.length - TotalCharge(st.list[m..]) + need > st.capacity
    decreases |st.list|
  {
    var n := |st.list|;
    if st.length + need > st.capacity {
      if m < n {
        var tail := st.list[n - 1];
        EvictStep(st, need);
        var st' := RemoveTail(st);
        assert Evict(st, need) == Evict(st', need);
        EvictMinimal(st', need, m);
        assert st.list[m..] == st'.list[m..] + [tail];
        TotalChargeAppend(st'.list[m..], [tail]);
      } else {
        assert st.list[m..] == [];
      }
    }
  }

  /** A set callback is called with the evicted entries, tail first. */
  lemma {:induction false} EvictReports(st: LruState, need: nat)
    requires CanFit(st, need)
    ensures var r := Evict(st, need);
      && |r.list| <= |st.list|
      && r.evicted == st.evicted + (if st.hasCallback then Reverse(st.list[|r.list|..]) else [])
    decreases |st.list|
  {
    if st.capacity == 0 || st.length + need <= st.capacity {
      assert st.list[|st.list|..] == [];
    } else {
      EvictStep(st, need);
      EvictReports(RemoveTail(st), need);
      ReportsStep(st, Evict(RemoveTail(st), need));
    }
  }

  /** The callback log after one more Remove in front of an eviction run. */
  lemma ReportsStep(st: LruState, r: LruState)
    requires st.list != []
    requires |r.list| <= |RemoveTail(st).list|
    requires r.evicted == RemoveTail(st).evicted
      + (if st.hasCallback then Reverse(RemoveTail(st).list[|r.list|..]) else [])
    ensures r.evicted == st.evicted + (if st.hasCallback then Reverse(st.list[|r.list|..]) else [])
  {
    var n := |st.list|;
    var tail := st.list[n - 1];
    var m := |r.list|;
    var st' := RemoveTail(st);
    assert st'.list == st.list[..n - 1];
    if st.hasCallback {
      assert st'.evicted == st.evicted + [tail];
      AppendReverseSuffix(st.evicted, st.list, m);
    } else {
      assert st'.evicted == st.evicted;
    }
  }

  /** One more entry logged in front of the reversed rest of a suffix. */
  lemma AppendReverseSuffix(log: seq<Entry>, s: seq<Entry>, m: nat)
    requires m < |s|
    ensures (log + [s[|s| - 1]]) + Reverse(s[..|s| - 1][m..]) == log + Reverse(s[m..])
  {
    ReverseSuffix(s, m);
  }

  lemma ReverseSuffix(s: seq<Entry>, m: nat)
    requires m < |s|
    ensures Reverse(s[m..]) == [s[|s| - 1]] + Reverse(s[..|s| - 1][m..])
  {
    var t := s[m..];
    assert t[|t| - 1] == s[|s| - 1];
    assert t[..|t| - 1] == s[..|s| - 1][m..];
  }

  /** Add after the eviction loop: update the entry in place and move it to
      the front, or push a new entry at the front. */
  function Upsert(st: LruState, key: Bytes, value: Bytes, expire: Option<int>): LruState {
    var e := Entry(key, value, expire);
    if key in Index(st.list) then
      st.(list := [e] + Drop(st.list, {key}),
          length := st.length + |value| - |Index(st.list)[key].value|)
    else
      st.(list := [e] + st.list, length := st.length + Charge(key, value))
  }

  /** Add(key, value, expire). */
  function AddSpec(st: LruState, key: Bytes, value: Bytes, expire: Option<int>): LruState
    requires CanFit(st, Charge(key, value))
  {
    Upsert(Evict(st, Charge(key, value)), key, value, expire)
  }

  /** RemoveElement on the entry of `key`: it uncharges len(key) + len(value) only. */
  function RemoveElementSpec(st: LruState, key: Bytes): LruState
    requires key in Index(st.list)
  {
    var e := Index(st.list)[key];
    st.(list := Drop(st.list, {key}), length := st.length - (|e.key| + |e.value|),
        uncharged := st.uncharged + 1)
  }

  /** IsEx: the key is held and its expiry is set and before now. */
  predicate IsExpiredIn(st: LruState, key: Bytes, now: int) {
    key in Index(st.list) && Expired(Index(st.list)[key], now)
  }

  /** Get's three results. */
  datatype Lookup = Lookup(value: Bytes, ex: int, ok: bool)

  /** Whole seconds left: 0 for no expiry. */
  function Remaining(e: Entry, now: int): int {
    if e.expire.None? then 0 else e.expire.value - now
  }

  /** Get(key): lazy expiry, else promotion to the front. */
  function GetSpec(st: LruState, key: Bytes, now: int): (LruState, Lookup) {
    if key !in Index(st.list) then (st, Lookup([], 0, false))
    else
      var e := Index(st.list)[key];
      if Expired(e, now) then (RemoveElementSpec(st, key), Lookup([], -1, false))
      else (st.(list := [e] + Drop(st.list, {key})), Lookup(e.value, Remaining(e, now), true))
  }

  // ---------------------------------------------------------------------------
  // Properties of the reference behaviour

  /** The index and the list agree: each list entry is indexed under its own
      key and by itself, each indexed key has exactly one entry carrying it. */
  lemma IndexMatchesList(s: seq<Entry>)
    requires DistinctKeys(s)
    ensures forall i :: 0 <= i < |s| ==> s[i].key in Index(s) && Index(s)[s[i].key] == s[i]
    ensures forall k :: k in Index(s) ==> Index(s)[k] in s && Index(s)[k].key == k
  {
    forall i | 0 <= i < |s| ensures s[i].key in Index(s) && Index(s)[s[i].key] == s[i] {
      IndexAt(s, i);
    }
    forall k | k in Index(s) ensures Index(s)[k] in s && Index(s)[k].key == k {
      IndexIn(s, k);
    }
  }

  /** Distinct keys: no key is carried by two list positions. */
  lemma {:induction false} KeysUnique(s: seq<Entry>, i: nat, j: nat)
    requires DistinctKeys(s) && i < j < |s|
    ensures s[i].key != s[j].key
  {
    IndexAt(s[1..], j - 1);
    if i > 0 {
      KeysUnique(s[1..], i - 1, j - 1);
    }
  }

  /** Remove takes exactly the least recently used entry off list and index,
      uncharges its full charge and reports it to a set callback. */
  lemma RemoveTakesTail(st: LruState)
    requires Consistent(st) && st.list != []
    ensures var r := RemoveTail(st); var tail := st.list[|st.list| - 1];
      && Consistent(r)
      && r.list + [tail] == st.list
      && Index(r.list) == Index(st.list) - {tail.key}
      && r.length == st.length - Charge(tail.key, tail.value)
      && r.evicted == st.evicted + (if st.hasCallback then [tail] else [])
  {
    var n := |st.list|;
    var tail := st.list[n - 1];
    LastIsDrop(st.list);
    IndexDrop(st.list, {tail.key});
    DropDistinct(st.list, {tail.key});
    TotalChargeAppend(st.list[..n - 1], [tail]);
    assert st.list[..n - 1] + [tail] == st.list;
  }

  /** Remove on an empty list changes nothing. */
  lemma RemoveOnEmpty(st: LruState)
    requires st.list == []
    ensures RemoveTail(st) == st
  {
  }

  /** The eviction loop keeps the invariant. */
  lemma EvictKeepsConsistent(st: LruState, need: nat)
    requires Consistent(st) && CanFit(st, need)
    ensures Consistent(Evict(st, need))
    decreases |st.list|
  {
    if !(st.capacity == 0 || st.length + need <= st.capacity) {
      RemoveTakesTail(st);
      EvictKeepsConsistent(RemoveTail(st), need);
    }
  }

  /** After any Add the new entry is at the front and indexed, the entry keys
      are those that survived eviction plus the key, and the invariant holds. */
  lemma AddPutsEntryFirst(st: LruState, key: Bytes, value: Bytes, expire: Option<int>)
    requires Consistent(st) && CanFit(st, Charge(key, value))
    ensures var r := AddSpec(st, key, value, expire); var ev := Evict(st, Charge(key, value));
      && Consistent(r)
      && r.list[0] == Entry(key, value, expire)
      && Index(r.list) == Index(ev.list)[key := Entry(key, value, expire)]
      && |r.list| == |ev.list| + (if key in Index(ev.list) then 0 else 1)
  {
    var ev := Evict(st, Charge(key, value));
    EvictKeepsConsistent(st, Charge(key, value));
    var e := Entry(key, value, expire);
    if key in Index(ev.list) {
      ReplaceKey(ev.list, e);
      IndexDrop(ev.list, {key});
      TotalChargeDropOne(ev.list, key);
      DropLengthOne(ev.list, key);
    } else {
      PushNewKey(ev.list, e);
    }
  }

  lemma {:induction false} DropLengthOne(s: seq<Entry>, k: Bytes)
    requires DistinctKeys(s) && k in Index(s)
    ensures |Drop(s, {k})| == |s| - 1
  {
    if s[0].key == k {
      DropAbsent(s[1..], {k});
      assert Drop(s, {k}) == Drop(s[1..], {k});
    } else {
      DropLengthOne(s[1..], k);
      assert Drop(s, {k}) == [s[0]] + Drop(s[1..], {k});
    }
  }

  /** Once an Add with a bound returns, the recorded length is within it. */
  lemma AddRespectsCapacity(st: LruState, key: Bytes, value: Bytes, expire: Option<int>)
    requires Consistent(st) && CanFit(st, Charge(key, value)) && st.capacity != 0
    ensures AddSpec(st, key, value, expire).length <= st.capacity
  {
    EvictShape(st, Charge(key, value));
  }

  /** With no bound (capacity 0) Add never evicts: every key stays, nothing
      goes to the callback. */
  lemma UnboundedAddKeepsAll(st: LruState, key: Bytes, value: Bytes, expire: Option<int>)
    requires Consistent(st) && st.capacity == 0
    ensures var r := AddSpec(st, key, value, expire);
      && Index(r.list) == Index(st.list)[key := Entry(key, value, expire)]
      && r.evicted == st.evicted
  {
    AddPutsEntryFirst(st, key, value, expire);
  }

  /** Add of a key not held, when it fits without eviction, pushes the entry
      at the front and adds exactly len(key) + len(value) + 24 to length. */
  lemma AddNewKeyCharges(st: LruState, key: Bytes, value: Bytes, expire: Option<int>)
    requires Consistent(st) && key !in Index(st.list)
    requires st.capacity == 0 || st.length + Charge(key, value) <= st.capacity
    ensures var r := AddSpec(st, key, value, expire);
      && r.list == [Entry(key, value, expire)] + st.list
      && Index(r.list) == Index(st.list)[key := Entry(key, value, expire)]
      && r.length == st.length + |key| + |value| + 24
  {
    PushNewKey(st.list, Entry(key, value, expire));
  }

  /** Re-adding a held key when nothing is evicted: value and expiry are both
      overwritten (expire None clears the expiry), length moves by the
      difference of the value lengths only, and the entry goes to the front. */
  lemma AddExistingKeyOverwrites(st: LruState, key: Bytes, value: Bytes, expire: Option<int>)
    requires Consistent(st) && key in Index(st.list)
    requires st.capacity == 0 || st.length + Charge(key, value) <= st.capacity
    ensures var r := AddSpec(st, key, value, expire);
      && r.list == [Entry(key, value, expire)] + Drop(st.list, {key})
      && Index(r.list) == Index(st.list)[key := Entry(key, value, expire)]
      && r.length == st.length + |value| - |Index(st.list)[key].value|
      && |r.list| == |st.list|
  {
    AddPutsEntryFirst(st, key, value, expire);
  }

  /** Add in general, eviction included. The loop makes room for the full
      charge of the entry even when its key is already held, so an update can
      evict other entries first. The survivors are a prefix of the list, the
      length loses exactly the charges of the evicted suffix, and then moves by
      the value delta if the key survived or by the full charge if it did not. */
  lemma AddAccounting(st: LruState, key: Bytes, value: Bytes, expire: Option<int>)
    requires Consistent(st) && CanFit(st, Charge(key, value))
    ensures var ev := Evict(st, Charge(key, value)); var r := AddSpec(st, key, value, expire);
      && |ev.list| <= |st.list| && ev.list == st.list[..|ev.list|]
      && ev.length == st.length - TotalCharge(st.list[|ev.list|..])
      && (key in Index(ev.list) ==>
            key in Index(st.list) && r.length == ev.length + |value| - |Index(st.list)[key].value|)
      && (key !in Index(ev.list) ==> r.length == ev.length + Charge(key, value))
  {
    var need := Charge(key, value);
    var ev := Evict(st, need);
    EvictShape(st, need);
    var m := |ev.list|;
    TotalChargeAppend(st.list[..m], st.list[m..]);
    assert st.list[..m] + st.list[m..] == st.list;
    if key in Index(ev.list) {
      IndexPrefix(st.list, m, key);
    }
  }

  /** An update that needs one more byte still evicts: with capacity 55 and
      two 26-byte entries K (front) and J (tail), re-adding K with a 2-byte
      value would fit in place (52 + 1 <= 55), but the loop checks
      52 + 27 > 55 and removes J; length drops to 27. */
  lemma UpdateEvictsOther()
    ensures var k: Bytes := [1]; var j: Bytes := [2];
      var st := LruState(55, false, [Entry(k, [0], None), Entry(j, [0], None)], 52, 0, []);
      var r := AddSpec(st, k, [0, 0], None);
      && Consistent(st) && k in Index(st.list)
      && st.length + 2 - 1 <= st.capacity
      && r.list == [Entry(k, [0, 0], None)]
      && r.length == 27
  {
    var k: Bytes := [1];
    var j: Bytes := [2];
    var st := LruState(55, false, [Entry(k, [0], None), Entry(j, [0], None)], 52, 0, []);
    assert st.list[1..] == [Entry(j, [0], None)] && st.list[1..][1..] == [];
    assert Index(st.list[1..]) == map[j := Entry(j, [0], None)];
    assert Index(st.list) == map[j := Entry(j, [0], None), k := Entry(k, [0], None)];
    assert DistinctKeys(st.list[1..]) && DistinctKeys(st.list);
    assert TotalCharge(st.list[1..]) == 26 && TotalCharge(st.list) == 52;
    assert Consistent(st);
    var st1 := RemoveTail(st);
    assert st1.list == [Entry(k, [0], None)] && st1.length == 26;
    assert Evict(st1, 27) == st1;
    assert Evict(st, 27) == st1;
    assert Index(st1.list) == map[k := Entry(k, [0], None)];
    assert Drop(st1.list, {k}) == [];
    var r := Upsert(st1, k, [0, 0], None);
    assert r.list == [Entry(k, [0, 0], None)] && r.length == 27;
    assert AddSpec(st, k, [0, 0], None) == r;
  }

  /** IsEx and Get agree: Get reports lazy expiry (ex -1, not ok) exactly when
      IsEx holds, and then the entry is gone and only len(key) + len(value)
      is uncharged; 24 bytes stay in length. */
  lemma GetExpires(st: LruState, key: Bytes, now: int)
    requires Consistent(st)
    ensures var (r, l) := GetSpec(st, key, now);
      && ((l.ex == -1 && !l.ok) <==> IsExpiredIn(st, key, now))
      && Consistent(r)
      && (IsExpiredIn(st, key, now) ==>
            && l.value == []
            && Index(r.list) == Index(st.list) - {key}
            && r.length == st.length - |key| - |Index(st.list)[key].value|
            && r.length - TotalCharge(r.list) == st.length - TotalCharge(st.list) + 24)
  {
    if IsExpiredIn(st, key, now) {
      IndexDrop(st.list, {key});
      DropDistinct(st.list, {key});
      TotalChargeDropOne(st.list, key);
      IndexIn(st.list, key);
    } else if key in Index(st.list) {
      MoveToFrontKeepsIndex(st.list, key);
    }
  }

  /** A hit (held and not expired) returns the value and the whole seconds
      left (0 for no expiry), and moves the entry to the front without
      changing the index or length; a key not held changes nothing. */
  lemma GetHitPromotes(st: LruState, key: Bytes, now: int)
    requires Consistent(st)
    ensures var (r, l) := GetSpec(st, key, now);
      && (l.ok <==> key in Index(st.list) && !Expired(Index(st.list)[key], now))
      && (key !in Index(st.list) ==> r == st && l == Lookup([], 0, false))
      && (l.ok ==>
            && l.value == Index(st.list)[key].value
            && r.list[0] == Index(st.list)[key]
            && Index(r.list) == Index(st.list)
            && r.length == st.length
            && (Index(st.list)[key].expire.None? ==> l.ex == 0)
            && (Index(st.list)[key].expire.Some? ==> 0 <= l.ex && now + l.ex == Index(st.list)[key].expire.value))
  {
    if key in Index(st.list) && !Expired(Index(st.list)[key], now) {
      MoveToFrontKeepsIndex(st.list, key);
    }
  }

  /** RemoveElement keeps the invariant, takes the key off list and index,
      and leaves 24 more bytes in length than the live entries account for. */
  lemma RemoveElementLeavesOverhead(st: LruState, key: Bytes)
    requires Consistent(st) && key in Index(st.list)
    ensures var r := RemoveElementSpec(st, key);
      && Consistent(r)
      && Index(r.list) == Index(st.list) - {key}
      && |r.list| == |st.list| - 1
      && r.length - TotalCharge(r.list) == st.length - TotalCharge(st.list) + 24
  {
    IndexDrop(st.list, {key});
    DropDistinct(st.list, {key});
    TotalChargeDropOne(st.list, key);
    DropLengthOne(st.list, key);
    IndexIn(st.list, key);
  }

  /** The 24 bytes RemoveElement leaves behind can make a later Add loop
      forever: with capacity 30, adding a 1-byte key and value, deleting it
      and adding it again finds an empty list whose length is still 24, and
      24 + 26 > 30 does not fit. */
  lemma DeleteThenReAddCannotFit()
    ensures var k: Bytes := [97]; var v: Bytes := [1];
      var s1 := AddSpec(NewState(30, false), k, v, None);
      var s2 := RemoveElementSpec(s1, k);
      && s2.list == [] && s2.length == 24
      && CanFit(NewState(30, false), Charge(k, v))
      && !CanFit(s2, Charge(k, v))
  {
    var k: Bytes := [97];
    var v: Bytes := [1];
    var s0 := NewState(30, false);
    assert Evict(s0, Charge(k, v)) == s0;
    var s1 := AddSpec(s0, k, v, None);
    assert s1.list == [Entry(k, v, None)];
    assert s1.length == 26;
    assert Index(s1.list) == map[k := Entry(k, v, None)];
    var s2 := RemoveElementSpec(s1, k);
    assert s2.list == Drop([Entry(k, v, None)], {k}) == [];
  }

  // ---------------------------------------------------------------------------
  // The cache object

  /** Go's lru.Cache; the callback is represented by whether it is set and by
      the sequence of entries it has been called with. */
  class Cache {
    const capacity: int
    const hasCallback: bool
    var length: int
    var hashmap: map<Bytes, Entry>
    var list: seq<Entry>
    var evicted: seq<Entry>
    ghost var uncharged: nat

    ghost function State(): LruState
      reads this
    {
      LruState(capacity, hasCallback, list, length, uncharged, evicted)
    }

    ghost predicate Valid()
      reads this
    {
      Consistent(State()) && hashmap == Index(list)
    }

    /** New(maxBytes, callback); maxBytes 0 means no bound. */
    constructor (maxBytes: int, withCallback: bool)
      ensures Valid() && State() == NewState(maxBytes, withCallback)
    {
      capacity := maxBytes;
      hasCallback := withCallback;
      length := 0;
      hashmap := map[];
      list := [];
      evicted := [];
      uncharged := 0;
    }

    /** IsEx: some list entry carries the key, has an expiry and it is before
        now. Reads only. */
    function IsEx(key: Bytes, now: int): (r: bool)
      reads this
      requires Valid()
      ensures r <==> exists i :: 0 <= i < |list| && list[i].key == key && Expired(list[i], now)
      ensures r == IsExpiredIn(State(), key, now)
    {
      IndexMatchesList(list);
      if key in hashmap then
        Expired(hashmap[key], now)
      else false
    }

    method Get(key: Bytes, now: int) returns (value: Bytes, ex: int, ok: bool)
      requires Valid()
      modifies this
      ensures Valid()
      ensures (State(), Lookup(value, ex, ok)) == GetSpec(old(State()), key, now)
    {
      if key in hashmap {
        var entry := hashmap[key];
        IndexIn(list, key);
        if Expired(entry, now) {
          RemoveElement(entry);
          return [], -1, false;
        }
        MoveToFrontKeepsIndex(list, key);
        list := [entry] + Drop(list, {key});
        if entry.expire.None? {
          return entry.value, 0, true;
        }
        return entry.value, entry.expire.value - now, true;
      }
      return [], 0, false;
    }

    method Add(key: Bytes, value: Bytes, expire: Option<int>)
      requires Valid() && CanFit(State(), Charge(key, value))
      modifies this
      ensures Valid()
      ensures State() == AddSpec(old(State()), key, value, expire)
    {
      var kvSize := |key| + |value| + EntryOverhead;
      while capacity != 0 && length + kvSize > capacity
        invariant Valid() && CanFit(State(), kvSize)
        invariant Evict(State(), kvSize) == Evict(old(State()), kvSize)
        decreases |list|
      {
        EvictStep(State(), kvSize);
        Remove();
      }
      ghost var ev := State();
      assert ev == Evict(old(State()), kvSize);
      assert AddSpec(old(State()), key, value, expire) == Upsert(ev, key, value, expire);
      if key in hashmap {
        // the node is shared by list and map: both see the new value and expiry
        var oldEntry := hashmap[key];
        var e := Entry(key, value, expire);
        ReplaceKey(list, e);
        list := [e] + Drop(list, {key});
        length := length + |value| - |oldEntry.value|;
        hashmap := hashmap[key := e];
        assert State() == Upsert(ev, key, value, expire);
      } else {
        var e := Entry(key, value, expire);
        PushNewKey(list, e);
        list := [e] + list;
        hashmap := hashmap[key := e];
        length := length + kvSize;
        assert State() == Upsert(ev, key, value, expire);
      }
    }

    /** Remove: evict the least recently used entry, if any. */
    method Remove()
      requires Valid()
      modifies this
      ensures Valid()
      ensures State() == RemoveTail(old(State()))
    {
      if |list| > 0 {
        RemoveTakesTail(State());
        var tail := list[|list| - 1];
        hashmap := hashmap - {tail.key};
        list := list[..|list| - 1];
        length := length - (|tail.key| + |tail.value| + EntryOverhead);
        if hasCallback {
          evicted := evicted + [tail];
        }
      }
    }

    /** RemoveElement(e) for an element of this cache's list, found through Hashmap. */
    method RemoveElement(e: Entry)
      requires Valid() && e.key in hashmap && hashmap[e.key] == e
      modifies this
      ensures Valid()
      ensures State() == RemoveElementSpec(old(State()), e.key)
    {
      RemoveElementLeavesOverhead(State(), e.key);
      IndexIn(list, e.key);
      list := Drop(list, {e.key});
      hashmap := hashmap - {e.key};
      length := length - (|e.key| + |e.value|);
      uncharged := uncharged + 1;
    }
  }
}
