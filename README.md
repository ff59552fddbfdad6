# kcache core in Dafny

This project models the single-node caching logic of kcache, a distributed
key/value cache written in Go, and proves properties of that model.

- **`lru.dfy`, module `Lru`** models `kcache/lru/lru.go`. It is an LRU cache
  bounded by bytes, with expiring entries. The doubly linked list is a
  sequence of entries, front first. `Hashmap` is a map that the class keeps
  equal to `Index(list)`, the key-to-entry map of the list. `Add` charges
  `len(key) + len(value) + 24` bytes and removes tail entries until the entry
  fits. `Get` removes an expired entry lazily, moves a live one to the front
  and reports the seconds left. `Remove` evicts the tail. `RemoveElement`
  deletes one entry but gives back only `len(key) + len(value)` bytes. A
  ghost counter `uncharged` counts those calls, and the invariant is
  `length == TotalCharge(list) + 24 * uncharged`.
- **`cache.dfy`, module `LocalCache`** models `kcache/cache.go`. This wrapper
  creates the LRU on its first `add`. It also keeps `exmp`, the set of keys it
  has added with an expiry, through `add`, `get` and `del`. `CheckExOnce` is
  one turn of the active-expiry loop: it samples `l/5 + 1` keys in a given
  shuffled order and deletes the ones that have expired.
- **`kcache.dfy`, module `KCache`** models the `Group` of `kcache/kcache.go`.
  - The read path checks the primary cache, then the hot cache, then the
    picked peer, then the retriever.
  - The write path sends the value to the peer, or else stores it in the
    primary cache.
  - The process-wide `groups` table is a `Registry` object.
- **`mylru.dfy`, module `MyLru`** models the toy integer LRU of
  `kcache/lru/mylru.go`. Its map is never written, and the `MyLruTest`
  sequence is a method whose final list contents are proved.
- **`wrappers.dfy`** holds `Option`.

Each stateful component has two layers:

- a value state (`LruState`, `CacheState`, `GroupState`) with one function
  per operation, which is the reference behaviour;
- a class whose methods update fields in place and promise
  `State() == Op(old(State()))`.

The properties are proved as lemmas about the reference functions.

Keys and values are byte sequences, because Go's `len` of a string counts
bytes. `ByteView` is its byte slice, and its `Len()` is the slice's length;
`byteview.go` is not part of this model. Time is an integer `now` in
seconds. An expiry is `Option<int>`, where `None` is Go's zero `time.Time`.

`Add`'s eviction loop only ends when removing every entry would leave room.
`Remove` on an empty list does nothing, so if the entry cannot fit, the
source loops forever. `Lru.CanFit` states the condition under which the
loop ends, and `Add` and its callers require it. Because `RemoveElement`
leaves 24 bytes in `length`, deletes and lazy expiries can stop a later `Add`
from ever ending, even on an empty cache. `Lru.DeleteThenReAddCannotFit`
exhibits this.

Two more consequences of the source as written are proved about the model:

- The eviction loop of `Add` (`kcache/lru/lru.go:88-90`) makes room for the
  full charge `len(key) + len(value) + 24` even when the key is already held
  and the update would only change `length` by the value delta. An update can
  therefore evict other entries that would have fitted. `Lru.AddAccounting`
  states the general accounting and `Lru.UpdateEvictsOther` gives an instance.
- `NewGroup` gives the hot cache `maxBytes / 10` bytes
  (`kcache/kcache.go:84`). For `maxBytes` from 10 to 249 that is 1 to 24
  bytes, below the smallest charge of 25 for a non-empty key. Every add of a
  peer's value to the hot cache (`kcache/kcache.go:166-170`) then loops
  forever. `KCache.SmallHotCacheNeverFits` proves that no such add can end.

## Model

| member | source | states |
|---|---|---|
| Lru.IndexMatchesList | kcache/lru/lru.go:102-103 | every list entry is indexed under its own key and by itself; every indexed key maps to a list entry carrying that key |
| Lru.KeysUnique | kcache/lru/lru.go:92-105 | no two list positions carry the same key |
| Lru.RemoveTakesTail | kcache/lru/lru.go:110-123 | Remove takes exactly the tail entry off list and index, subtracts its key, value and 24 bytes, reports it to a set callback, and keeps the invariant |
| Lru.RemoveOnEmpty | kcache/lru/lru.go:111-112 | Remove on an empty list changes nothing |
| Lru.EvictShape | kcache/lru/lru.go:88-90 | the eviction loop only cuts entries off the tail and keeps the other fields; it stops with length + kvSize within a non-zero capacity |
| Lru.EvictMinimal | kcache/lru/lru.go:88-90 | the eviction loop stops at the first fit: keeping any longer prefix of the list than the one it keeps would still leave length + kvSize above the non-zero capacity |
| Lru.EvictReports | kcache/lru/lru.go:88-90 | a set callback receives the evicted entries, tail first |
| Lru.EvictKeepsConsistent | kcache/lru/lru.go:88-90 | the eviction loop keeps distinct keys and the length accounting |
| Lru.AddPutsEntryFirst | kcache/lru/lru.go:85-107 | after any Add the new entry is at the front; the index is the survivors' index plus the key; the invariant holds |
| Lru.AddRespectsCapacity | kcache/lru/lru.go:88-105 | with a non-zero capacity, length is within it after Add |
| Lru.UnboundedAddKeepsAll | kcache/lru/lru.go:88 | with capacity 0, Add keeps every key and calls no callback |
| Lru.AddNewKeyCharges | kcache/lru/lru.go:86 | when the eviction loop removes nothing, for a new key Add pushes the entry at the front, indexes it, and adds len(key)+len(value)+24 to length |
| Lru.AddExistingKeyOverwrites | kcache/lru/lru.go:92-99 | when the eviction loop removes nothing, re-adding a held key overwrites value and expiry (a zero expiry clears it), moves the entry to the front, and changes length by the difference of the value lengths only |
| Lru.AddAccounting | kcache/lru/lru.go:85-105 | for any Add, eviction included: the survivors are a prefix of the list and length loses exactly the evicted suffix's charges; then length moves by the value delta if the key survived, by the full charge otherwise |
| Lru.UpdateEvictsOther | kcache/lru/lru.go:88-99 | with capacity 55 and two 26-byte entries, re-adding the front key with one more value byte evicts the other entry, though the update alone would fit |
| Lru.GetExpires | kcache/lru/lru.go:65-73 | Get answers (nil, -1, false) exactly when IsEx holds; the entry is then gone and only len(key)+len(value) is uncharged |
| Lru.GetHitPromotes | kcache/lru/lru.go:65-83 | an absent key answers (nil, 0, false) and changes nothing; a live entry answers its value and 0 or the seconds left, and moves to the front without changing index or length |
| Lru.RemoveElementLeavesOverhead | kcache/lru/lru.go:125-130 | RemoveElement takes the key off list and index and leaves 24 bytes more in length than the live entries account for |
| Lru.DeleteThenReAddCannotFit | kcache/lru/lru.go:88-90 | with capacity 30, adding, deleting and re-adding a 1-byte key and value cannot end, though the first add could |
| Lru.Cache.constructor | kcache/lru/lru.go:43-50 | New builds an empty, consistent cache with the given capacity and callback |
| Lru.Cache.IsEx | kcache/lru/lru.go:52-61 | true iff a list entry carries the key with a non-zero expiry before now; it reads only |
| Lru.Cache.Get | kcache/lru/lru.go:65-83 | the new state and the three results are those of the reference Get |
| Lru.Cache.Add | kcache/lru/lru.go:85-107 | the new state is the reference Add (eviction loop, then update or push), keeping the invariant |
| Lru.Cache.Remove | kcache/lru/lru.go:110-123 | the new state is the reference Remove |
| Lru.Cache.RemoveElement | kcache/lru/lru.go:125-130 | the new state is the reference RemoveElement |
| LocalCache.NoLruBeforeAdd | kcache/cache.go:19-43 | before the first add there is no LRU and exmp is empty; get answers (empty, -1, false); del answers false; add creates the LRU with the wrapper's capacity and no callback |
| LocalCache.AddTracksExpiry | kcache/cache.go:23-38 | after add the key is in exmp iff the expiry is non-zero; other keys are untouched; the entry is at the LRU's front; the invariant holds |
| LocalCache.AddThenGetHits | kcache/cache.go:23-59 | a get right after an add, before the expiry, answers the added value and its seconds left |
| LocalCache.GetFollowsLru | kcache/cache.go:40-59 | a found key answers the LRU's value and ttl; any miss answers (empty, -1, false); the key leaves exmp exactly on the LRU's lazy expiry |
| LocalCache.DelResults | kcache/cache.go:61-76 | del answers false before any add; a held key is removed from LRU and exmp with true; an absent key answers true and changes nothing |
| LocalCache.IndexMayHoldEvictedKey | kcache/cache.go:27-36 | capacity eviction inside lru.Add leaves an evicted key in exmp, so exmp can hold keys the LRU does not |
| LocalCache.SampleInBounds | kcache/cache.go:97-99 | for l >= 1 the sample size l/5+1 is between 1 and l, so keys[:ll] is in bounds |
| LocalCache.ExpiringAfterDel | kcache/cache.go:69-72 | deleting one key leaves IsEx of every other key unchanged |
| LocalCache.SweepDeletesExpired | kcache/cache.go:101-107 | the delete loop removes from LRU and exmp exactly the listed keys whose IsEx held, lists exactly those in exk, and keeps the invariant |
| LocalCache.CheckExDeletesSampledExpired | kcache/cache.go:82-108 | a sweep step does nothing on an empty exmp; otherwise the LRU exists and exactly the sampled expired keys go; unsampled and unexpired keys stay |
| LocalCache.Cache.constructor | kcache/cache.go:19-21 | newCache has no LRU and an empty exmp |
| LocalCache.Cache.Add | kcache/cache.go:23-38 | the new state is the reference add, creating the LRU on first use |
| LocalCache.Cache.Get | kcache/cache.go:40-59 | the new state and the results are those of the reference get |
| LocalCache.Cache.Del | kcache/cache.go:61-76 | the new state and the result are those of the reference del |
| LocalCache.Cache.CheckExOnce | kcache/cache.go:78-115 | one loop turn, after the sleep and the shuffle, yields the reference sweep step's state and key list |
| KCache.ExpiryRule | kcache/kcache.go:166-170 | the TTL rule gives the zero expiry exactly for ttl 0, and otherwise now + ttl |
| KCache.HotCapacityTruncates | kcache/kcache.go:84 | the hot cache's capacity is maxBytes/10, truncated toward zero |
| KCache.EmptyKeyRejected | kcache/kcache.go:141-143 | Get("") answers (empty, -1, "key required") and changes no cache |
| KCache.PrimaryHitShortCircuits | kcache/kcache.go:144-147 | a primary hit answers that value and ttl; it leaves the hot cache alone; it does not depend on picker, peer or retriever |
| KCache.HotHitAfterPrimaryMiss | kcache/kcache.go:148-151 | after a primary miss, a hot hit answers the hot value and does not depend on picker, peer or retriever |
| KCache.PeerValueFillsHotCache | kcache/kcache.go:159-172 | after both miss, a peer's value goes to the hot cache only, under the TTL rule, and is answered with its ttl |
| KCache.FallsThroughToLocalGet | kcache/kcache.go:159-179 | with no server, a local pick or a failed peer fetch, the closure is LocalGet and the hot cache is not written |
| KCache.LocalGetResults | kcache/kcache.go:188-204 | a retriever error answers (empty, -1, err) and changes nothing; success stores the value in the primary cache under the TTL rule and answers value and ttl; an immediate get hits it for a TTL >= 0 and misses it with (empty, -1, false) for a negative TTL |
| KCache.SmallHotCacheNeverFits | kcache/kcache.go:84 | for maxBytes from 10 to 249 the hot cache holds 1 to 24 bytes, and no add of a non-empty key to a new hot cache can end its eviction loop |
| KCache.RemoteGetErrorShape | kcache/kcache.go:181-184 | RemoteGet answers any error as (empty, -1, err), and otherwise the closure's answer |
| KCache.GetKeepsInvariant | kcache/kcache.go:138-156 | every read keeps both caches' exmp invariant |
| KCache.SetResults | kcache/kcache.go:206-252 | a write the peer accepts leaves both caches alone; otherwise the primary cache gets the value under the TTL rule and Redis's answer is returned; the hot cache is never written |
| KCache.Group.constructor | kcache/kcache.go:81-90 | the Group literal has a primary cache of maxBytes and a hot cache of maxBytes/10, both empty |
| KCache.Group.Get | kcache/kcache.go:138-156 | the new state and answer are those of the reference Get |
| KCache.Group.RemoteGet | kcache/kcache.go:159-185 | the new state and answer are those of the reference RemoteGet |
| KCache.Group.LocalGet | kcache/kcache.go:188-204 | the new state and answer are those of the reference LocalGet |
| KCache.Group.Set | kcache/kcache.go:206-210 | Set is RemoteSet |
| KCache.Group.RemoteSet | kcache/kcache.go:213-231 | the new state and error are those of the reference write path |
| KCache.Group.LocalSet | kcache/kcache.go:233-252 | the cache part of LocalSet: the primary cache gets the value under the TTL rule |
| KCache.Registry.constructor | kcache/kcache.go:14-17 | the groups table starts empty |
| KCache.Registry.GetGroup | kcache/kcache.go:120-125 | GetGroup answers the registered group, and nil (None) for an unknown name |
| KCache.Registry.NewGroup | kcache/kcache.go:68-94 | NewGroup stores a fresh group under the name (replacing any there), with hot capacity maxBytes/10; other names are unchanged |
| KCache.Registry.DestroyGroup | kcache/kcache.go:127-135 | DestroyGroup removes the name, after which GetGroup answers None; other names are unchanged |
| MyLru.LruCache.constructor | kcache/lru/mylru.go:50 | the struct literal holds an empty list, the cap and the given map |
| MyLru.LruCache.Get | kcache/lru/mylru.go:32-39 | true iff the key is in mp; that node moves to the front when it is on the list; mp is not written |
| MyLru.LruCache.Add | kcache/lru/mylru.go:19-30 | a key Get finds has its node's val overwritten and the length stays; otherwise one fresh node (k, v) is pushed in front of the old nodes, which stay on the list, and the back node is removed if the list exceeds ca; length <= ca is kept; mp is not written |
| MyLru.MyLruTest | kcache/lru/mylru.go:49-57 | the test sequence leaves (4,4), (1,2), (3,3), front first |
| MyLru.ReAddDuplicates | kcache/lru/mylru.go:19-27 | with the empty map, re-adding a key pushes a second node for it |

## Left out

- Mutexes, `sync.RWMutex` and the unsynchronised reads in `CheckEx`: the model is sequential.
- Singleflight (`Fly`, `SetFly`): the closure is called directly. Request coalescing is concurrency, and the three-result `Fly` and `SetFly` that the caller uses are not defined in `kcache/singleflight/singleflight.go`.
- `time.Now()` and the float `Seconds()` conversion: time is an integer parameter `now`, and the seconds left are `expire - now`. Sub-second truncation is not modelled, and each Group call uses one `now` for all its cache steps.
- `CheckEx`'s endless loop, its `time.Sleep` and the key-collection loop plus `rand.Shuffle`: one turn is modelled, and the shuffled key slice is the input `order`.
- Logging, `fmt.Print` and `MyLru`'s `Print`.
- The Redis client and write in `LocalSet`: what the write answers is the input `storeErr`.
- The picker, `GetFromPeer` and `SetFromPeer` are not modelled. What they answer on a call is an input: `pick`, `peer` and `peerErr`.
- The retriever (`usergetter`) is not modelled either; what it answers is the input `retrieved`. `cloneBytes` is a value copy.
- The setter and deleter handlers and the `handle` adapters are not modelled; they only forward to user functions.
- `NewGroup`'s nil-getter panic, `NewServer` with its `log.Fatal`, the goroutines that start the server and `CheckEx`, and the sleep are not modelled. `RegisterSvr` is not modelled either. The Server of `kcache/server.go` is not part of this model, so it is only a flag `hasServer`.
- `DestroyGroup`'s `svr.Stop()`: only the table update is modelled.
- `KCache.Registry.DestroyGroup` requires a registered group to have a server, because Go's type assertion `g.server.(*Server)` panics otherwise.
- int64 overflow: integers are unbounded. This leaves out the overflow of `length`, and the one in `time.Duration(ex)*time.Second` (`kcache/kcache.go:166-170`, `kcache/kcache.go:240-244`), which counts nanoseconds and wraps for a TTL past about 9.2e9 seconds. `now + ttl` in seconds is not where the source overflows.
- The callback function is not modelled. `Lru.Cache` records whether a callback is set and the sequence of entries it was called with (`evicted`).
- `Lru.Cache.Add` requires `CanFit`, because the source's eviction loop never ends otherwise. `LocalCache.Cache.Add` (`CanAdd`), `KCache.Group.Get` (`GetFits`), `KCache.Group.RemoteGet` (`RemoteFits`), `KCache.Group.LocalGet` (`LocalGetFits`), `KCache.Group.Set` and `KCache.Group.RemoteSet` (`SetFits`), and `KCache.Group.LocalSet` require the same of the add they may reach.
- In `Lru`, an entry is a value and not a shared node. Updating an entry in place is modelled as replacing it in both the list and the map. The model keeps them equal, so aliasing between the two is not represented.
- `MyLru` treats a list element and the node it holds as the same object.
