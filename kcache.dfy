/**
 * The Group of kcache/kcache.go: the read path primary cache -> hot cache ->
 * picked peer -> retriever, the write path, and the process-wide table of
 * groups by name.
 *
 * What the picker, the peer, the retriever and the Redis write answer on one
 * call is given as an input; the singleflight wrapper is a direct call of its
 * closure. GroupState and the functions on it are the reference behaviour;
 * the class Group implements them on two LocalCache.Cache objects.
 */
module KCache {
  import opened Wrappers
  import opened Lru
  import LocalCache

  /** What the picker answers for a key: this node, or a remote peer. */
  datatype Pick = Local | Remote

  /** What a peer fetch or the retriever answers: bytes and a TTL in seconds,
      or an error. */
  datatype Fetched = Fetched(value: Bytes, ex: int) | FetchFailed(msg: string)

  /** The three results of a Group read. */
  datatype Answer = Answer(value: Bytes, ex: int, err: Option<string>)

  /** The parts of a Group the read and write paths look at: whether a server
      (picker) is set, the primary cache and the hot cache. */
  datatype GroupState = GroupState(hasServer: bool, cache: LocalCache.CacheState, hot: LocalCache.CacheState)

  /** The TTL rule: 0 means no expiry (the zero time), otherwise now + ttl. */
  function ExpiryAfter(now: int, ttl: int): Option<int> {
    if ttl == 0 then None else Some(now + ttl)
  }

  /** Go's int64 maxBytes / 10, which truncates toward zero. */
  function HotCapacity(maxBytes: int): int {
    if maxBytes >= 0 then maxBytes / 10 else -((-maxBytes) / 10)
  }

  /** What NewGroup builds: a server, the primary cache with maxBytes and the
      hot cache with a tenth of it. */
  function NewGroupState(maxBytes: int): GroupState {
    GroupState(true, LocalCache.NewCacheState(maxBytes), LocalCache.NewCacheState(HotCapacity(maxBytes)))
  }

  /** Both caches keep the wrapper invariant. */
  predicate GroupInvariant(g: GroupState) {
    LocalCache.Tracked(g.cache) && LocalCache.Tracked(g.hot)
  }

  /** The remote branch is taken: a server is set, it picks a peer and the
      peer answers. */
  predicate UsePeer(g: GroupState, pick: Pick, peer: Fetched) {
    g.hasServer && pick == Remote && peer.Fetched?
  }

  // ---------------------------------------------------------------------------
  // The read path

  /** LocalGet can return: the retriever failed, or its value fits. */
  predicate LocalGetFits(g: GroupState, key: Bytes, retrieved: Fetched) {
    retrieved.FetchFailed? || LocalCache.CanAdd(g.cache, key, retrieved.value)
  }

  /** LocalGet: ask the retriever; on success store a copy in the primary
      cache under the TTL rule and answer the value and TTL. */
  function GroupLocalGet(g: GroupState, key: Bytes, now: int, retrieved: Fetched): (GroupState, Answer)
    requires LocalGetFits(g, key, retrieved)
  {
    match retrieved
    case FetchFailed(msg) => (g, Answer([], -1, Some(msg)))
    case Fetched(value, ex) =>
      (g.(cache := LocalCache.CacheAdd(g.cache, key, value, ExpiryAfter(now, ex))), Answer(value, ex, None))
  }

  /** The remote step can return: whichever cache it fills has room. */
  predicate RemoteFits(g: GroupState, key: Bytes, pick: Pick, peer: Fetched, retrieved: Fetched) {
    if UsePeer(g, pick, peer) then LocalCache.CanAdd(g.hot, key, peer.value)
    else LocalGetFits(g, key, retrieved)
  }

  /** The closure RemoteGet runs: a peer's value goes to the hot cache under
      the TTL rule; otherwise LocalGet. */
  function RemoteFetch(g: GroupState, key: Bytes, now: int, pick: Pick, peer: Fetched, retrieved: Fetched): (GroupState, Answer)
    requires RemoteFits(g, key, pick, peer, retrieved)
  {
    if UsePeer(g, pick, peer) then
      (g.(hot := LocalCache.CacheAdd(g.hot, key, peer.value, ExpiryAfter(now, peer.ex))),
       Answer(peer.value, peer.ex, None))
    else GroupLocalGet(g, key, now, retrieved)
  }

  /** RemoteGet: the closure's answer, any error turned into (empty, -1, err). */
  function GroupRemoteGet(g: GroupState, key: Bytes, now: int, pick: Pick, peer: Fetched, retrieved: Fetched): (GroupState, Answer)
    requires RemoteFits(g, key, pick, peer, retrieved)
  {
    var (r, a) := RemoteFetch(g, key, now, pick, peer, retrieved);
    (r, if a.err.None? then a else Answer([], -1, a.err))
  }

  /** The state after both cache lookups of a non-empty key. */
  function AfterLookups(g: GroupState, key: Bytes, now: int): GroupState {
    g.(cache := LocalCache.CacheGet(g.cache, key, now).0, hot := LocalCache.CacheGet(g.hot, key, now).0)
  }

  /** Get can return: the key is empty, one of the caches hits, or the remote
      step can return. */
  predicate GetFits(g: GroupState, key: Bytes, now: int, pick: Pick, peer: Fetched, retrieved: Fetched) {
    || key == []
    || LocalCache.CacheGet(g.cache, key, now).1.ok
    || LocalCache.CacheGet(g.hot, key, now).1.ok
    || RemoteFits(AfterLookups(g, key, now), key, pick, peer, retrieved)
  }

  /** Get: reject the empty key, then the primary cache, the hot cache and
      the remote step, each only when the one before it missed. */
  function GroupGet(g: GroupState, key: Bytes, now: int, pick: Pick, peer: Fetched, retrieved: Fetched): (GroupState, Answer)
    requires GetFits(g, key, now, pick, peer, retrieved)
  {
    if key == [] then (g, Answer([], -1, Some("key required")))
    else
      var (c1, l1) := LocalCache.CacheGet(g.cache, key, now);
      if l1.ok then (g.(cache := c1), Answer(l1.value, l1.ex, None))
      else
        var (h1, l2) := LocalCache.CacheGet(g.hot, key, now);
        if l2.ok then (g.(cache := c1, hot := h1), Answer(l2.value, l2.ex, None))
        else GroupRemoteGet(g.(cache := c1, hot := h1), key, now, pick, peer, retrieved)
  }

  // ---------------------------------------------------------------------------
  // The write path

  /** The remote write is taken and the peer accepts it. */
  predicate PeerAccepts(g: GroupState, pick: Pick, peerErr: Option<string>) {
    g.hasServer && pick == Remote && peerErr.None?
  }

  /** RemoteSet can return: the peer accepts or the value fits locally. */
  predicate SetFits(g: GroupState, key: Bytes, val: Bytes, pick: Pick, peerErr: Option<string>) {
    PeerAccepts(g, pick, peerErr) || LocalCache.CanAdd(g.cache, key, val)
  }

  /** LocalSet: store in the primary cache under the TTL rule; the answer is
      that of the Redis write. */
  function GroupLocalSet(g: GroupState, key: Bytes, val: Bytes, nx: int, now: int, storeErr: Option<string>): (GroupState, Option<string>)
    requires LocalCache.CanAdd(g.cache, key, val)
  {
    (g.(cache := LocalCache.CacheAdd(g.cache, key, val, ExpiryAfter(now, nx))), storeErr)
  }

  /** Set and RemoteSet: a write the picked peer accepts; otherwise LocalSet. */
  function GroupSet(g: GroupState, key: Bytes, val: Bytes, nx: int, now: int, pick: Pick,
                    peerErr: Option<string>, storeErr: Option<string>): (GroupState, Option<string>)
    requires SetFits(g, key, val, pick, peerErr)
  {
    if PeerAccepts(g, pick, peerErr) then (g, None)
    else GroupLocalSet(g, key, val, nx, now, storeErr)
  }

  // ---------------------------------------------------------------------------
  // Properties

  /** The TTL rule gives the zero expiry exactly for TTL 0. */
  lemma ExpiryRule(now: int, ttl: int)
    ensures ExpiryAfter(now, ttl).None? <==> ttl == 0
    ensures ExpiryAfter(now, ttl).Some? ==> ExpiryAfter(now, ttl).value - now == ttl
  {
  }

  /** The hot cache gets a tenth of maxBytes, rounded toward zero. */
  lemma HotCapacityTruncates(maxBytes: int)
    ensures maxBytes >= 0 ==> 0 <= maxBytes - 10 * HotCapacity(maxBytes) < 10
    ensures maxBytes < 0 ==> -10 < maxBytes - 10 * HotCapacity(maxBytes) <= 0
  {
  }

  /** Get("") answers (empty, -1, "key required") and touches no cache,
      whatever the picker, the peer and the retriever would answer. */
  lemma EmptyKeyRejected(g: GroupState, now: int, pick: Pick, peer: Fetched, retrieved: Fetched)
    ensures GroupGet(g, [], now, pick, peer, retrieved) == (g, Answer([], -1, Some("key required")))
  {
  }

  /** A primary hit answers that value and TTL, leaves the hot cache as it
      was, and does not depend on the picker, the peer or the retriever. */
  lemma PrimaryHitShortCircuits(g: GroupState, key: Bytes, now: int,
                                pick: Pick, peer: Fetched, retrieved: Fetched,
                                pick': Pick, peer': Fetched, retrieved': Fetched)
    requires key != [] && LocalCache.CacheGet(g.cache, key, now).1.ok
    ensures var (r, a) := GroupGet(g, key, now, pick, peer, retrieved);
      var l := LocalCache.CacheGet(g.cache, key, now).1;
      && a == Answer(l.value, l.ex, None)
      && r.hot == g.hot
      && r.cache == LocalCache.CacheGet(g.cache, key, now).0
      && GroupGet(g, key, now, pick', peer', retrieved') == (r, a)
  {
  }

  /** A hot hit after a primary miss answers the hot value and does not depend
      on the picker, the peer or the retriever. */
  lemma HotHitAfterPrimaryMiss(g: GroupState, key: Bytes, now: int,
                               pick: Pick, peer: Fetched, retrieved: Fetched,
                               pick': Pick, peer': Fetched, retrieved': Fetched)
    requires key != [] && !LocalCache.CacheGet(g.cache, key, now).1.ok
    requires LocalCache.CacheGet(g.hot, key, now).1.ok
    ensures var (r, a) := GroupGet(g, key, now, pick, peer, retrieved);
      var l := LocalCache.CacheGet(g.hot, key, now).1;
      && a == Answer(l.value, l.ex, None)
      && r == AfterLookups(g, key, now)
      && GroupGet(g, key, now, pick', peer', retrieved') == (r, a)
  {
  }

  /** After both caches miss, a peer's value goes to the hot cache only, under
      the TTL rule, and Get answers it with its TTL; the key is then in the
      hot cache's expiry index exactly when the TTL is not 0. */
  lemma PeerValueFillsHotCache(g: GroupState, key: Bytes, now: int, pick: Pick, peer: Fetched, retrieved: Fetched)
    requires GroupInvariant(g) && key != []
    requires !LocalCache.CacheGet(g.cache, key, now).1.ok && !LocalCache.CacheGet(g.hot, key, now).1.ok
    requires UsePeer(g, pick, peer)
    requires LocalCache.CanAdd(AfterLookups(g, key, now).hot, key, peer.value)
    ensures var (r, a) := GroupGet(g, key, now, pick, peer, retrieved); var m := AfterLookups(g, key, now);
      && a == Answer(peer.value, peer.ex, None)
      && r.cache == m.cache
      && r.hot == LocalCache.CacheAdd(m.hot, key, peer.value, ExpiryAfter(now, peer.ex))
      && (key in r.hot.exmp <==> peer.ex != 0)
      && GroupInvariant(r)
  {
    var m := AfterLookups(g, key, now);
    LocalCache.GetFollowsLru(g.cache, key, now);
    LocalCache.GetFollowsLru(g.hot, key, now);
    LocalCache.AddTracksExpiry(m.hot, key, peer.value, ExpiryAfter(now, peer.ex));
  }

  /** With no server, a local pick or a failed peer fetch, the remote step is
      LocalGet, and the hot cache is not written. */
  lemma FallsThroughToLocalGet(g: GroupState, key: Bytes, now: int, pick: Pick, peer: Fetched, retrieved: Fetched)
    requires !UsePeer(g, pick, peer) && LocalGetFits(g, key, retrieved)
    ensures RemoteFetch(g, key, now, pick, peer, retrieved) == GroupLocalGet(g, key, now, retrieved)
    ensures RemoteFetch(g, key, now, pick, peer, retrieved).0.hot == g.hot
  {
  }

  /** LocalGet: a retriever error answers (empty, -1, err) with the primary
      cache unchanged; success stores the value in the primary cache under
      the TTL rule, answers it with its TTL, and a primary get at the same
      time then hits it, unless the TTL is negative. */
  lemma LocalGetResults(g: GroupState, key: Bytes, now: int, retrieved: Fetched)
    requires GroupInvariant(g) && LocalGetFits(g, key, retrieved)
    ensures var (r, a) := GroupLocalGet(g, key, now, retrieved);
      && GroupInvariant(r)
      && r.hot == g.hot
      && (retrieved.FetchFailed? ==> r == g && a == Answer([], -1, Some(retrieved.msg)))
      && (retrieved.Fetched? ==>
            && a == Answer(retrieved.value, retrieved.ex, None)
            && r.cache == LocalCache.CacheAdd(g.cache, key, retrieved.value, ExpiryAfter(now, retrieved.ex))
            && (key in r.cache.exmp <==> retrieved.ex != 0)
            && (retrieved.ex >= 0 ==>
                  LocalCache.CacheGet(r.cache, key, now).1 == Lookup(retrieved.value, retrieved.ex, true))
            && (retrieved.ex < 0 ==>
                  LocalCache.CacheGet(r.cache, key, now).1 == Lookup([], -1, false)))
  {
    if retrieved.Fetched? {
      var e := ExpiryAfter(now, retrieved.ex);
      LocalCache.AddTracksExpiry(g.cache, key, retrieved.value, e);
      if retrieved.ex >= 0 {
        LocalCache.AddThenGetHits(g.cache, key, retrieved.value, e, now);
      } else {
        var c := LocalCache.CacheAdd(g.cache, key, retrieved.value, e);
        AddPutsEntryFirst(LocalCache.LruOf(g.cache), key, retrieved.value, e);
        LocalCache.GetFollowsLru(c, key, now);
      }
    }
  }

  /** A hot cache of 1 to 24 bytes, which NewGroup builds for maxBytes from 10
      to 249, has room for no entry with a non-empty key: every charge is at
      least 25 bytes, so the eviction loop of a remote hit's add cannot end. */
  lemma SmallHotCacheNeverFits(maxBytes: int, key: Bytes, value: Bytes)
    requires 10 <= maxBytes < 250 && key != []
    ensures 1 <= NewGroupState(maxBytes).hot.capacity <= 24
    ensures !LocalCache.CanAdd(NewGroupState(maxBytes).hot, key, value)
  {
  }

  /** RemoteGet answers an error only as (empty, -1, err), and otherwise what
      the closure answered. */
  lemma RemoteGetErrorShape(g: GroupState, key: Bytes, now: int, pick: Pick, peer: Fetched, retrieved: Fetched)
    requires RemoteFits(g, key, pick, peer, retrieved)
    ensures var (r, a) := GroupRemoteGet(g, key, now, pick, peer, retrieved);
      var (r', a') := RemoteFetch(g, key, now, pick, peer, retrieved);
      && r == r'
      && (a.err.Some? <==> a'.err.Some?)
      && (a.err.Some? ==> a == Answer([], -1, a'.err))
      && (a.err.None? ==> a == a')
  {
  }

  /** Every read keeps both caches' invariant. */
  lemma GetKeepsInvariant(g: GroupState, key: Bytes, now: int, pick: Pick, peer: Fetched, retrieved: Fetched)
    requires GroupInvariant(g) && GetFits(g, key, now, pick, peer, retrieved)
    ensures GroupInvariant(GroupGet(g, key, now, pick, peer, retrieved).0)
  {
    if key != [] {
      LocalCache.GetFollowsLru(g.cache, key, now);
      LocalCache.GetFollowsLru(g.hot, key, now);
      var m := AfterLookups(g, key, now);
      if LocalCache.CacheGet(g.cache, key, now).1.ok || LocalCache.CacheGet(g.hot, key, now).1.ok {
      } else if UsePeer(m, pick, peer) {
        LocalCache.AddTracksExpiry(m.hot, key, peer.value, ExpiryAfter(now, peer.ex));
      } else if retrieved.Fetched? {
        LocalCache.AddTracksExpiry(m.cache, key, retrieved.value, ExpiryAfter(now, retrieved.ex));
      }
    }
  }

  /** Set: a write the peer accepts answers no error and leaves both caches
      unchanged; otherwise the value goes to the primary cache under the TTL
      rule, the answer is the Redis write's, and the hot cache is never
      touched. */
  lemma SetResults(g: GroupState, key: Bytes, val: Bytes, nx: int, now: int, pick: Pick,
                   peerErr: Option<string>, storeErr: Option<string>)
    requires GroupInvariant(g) && SetFits(g, key, val, pick, peerErr)
    ensures var (r, err) := GroupSet(g, key, val, nx, now, pick, peerErr, storeErr);
      && GroupInvariant(r)
      && r.hot == g.hot
      && (PeerAccepts(g, pick, peerErr) ==> r == g && err.None?)
      && (!PeerAccepts(g, pick, peerErr) ==>
            && err == storeErr
            && r.cache == LocalCache.CacheAdd(g.cache, key, val, ExpiryAfter(now, nx))
            && (key in r.cache.exmp <==> nx != 0))
  {
    if !PeerAccepts(g, pick, peerErr) {
      LocalCache.AddTracksExpiry(g.cache, key, val, ExpiryAfter(now, nx));
    }
  }

  // ---------------------------------------------------------------------------
  // The group object

  /** Go's Group: the name, the two caches and whether a server is set; the
      flight, the user getter, setter and deller are not fields here. */
  class Group {
    const name: string
    const cache: LocalCache.Cache
    const hotcache: LocalCache.Cache
    const hasServer: bool
    ghost var Repr: set<object>

    ghost function State(): GroupState
      reads this, cache, hotcache, cache.lru, hotcache.lru
    {
      GroupState(hasServer, cache.State(), hotcache.State())
    }

    ghost predicate Valid()
      reads this, Repr
    {
      && this in Repr && cache in Repr && hotcache in Repr
      && cache.Repr <= Repr && hotcache.Repr <= Repr
      && Repr == {this} + cache.Repr + hotcache.Repr
      && this !in cache.Repr && this !in hotcache.Repr
      && cache.Repr !! hotcache.Repr
      && cache.Valid() && hotcache.Valid()
    }

    /** The Group literal NewGroup builds. */
    constructor (name: string, maxBytes: int, hasServer: bool)
      ensures Valid() && fresh(Repr)
      ensures this.name == name && State() == NewGroupState(maxBytes).(hasServer := hasServer)
    {
      this.name := name;
      this.hasServer := hasServer;
      cache := new LocalCache.Cache(maxBytes);
      hotcache := new LocalCache.Cache(HotCapacity(maxBytes));
      new;
      Repr := {this} + cache.Repr + hotcache.Repr;
    }

    method Get(key: Bytes, now: int, pick: Pick, peer: Fetched, retrieved: Fetched)
      returns (value: Bytes, ex: int, err: Option<string>)
      requires Valid() && GetFits(State(), key, now, pick, peer, retrieved)
      modifies Repr
      ensures Valid() && fresh(Repr - old(Repr))
      ensures (State(), Answer(value, ex, err)) == GroupGet(old(State()), key, now, pick, peer, retrieved)
    {
      if key == [] {
        return [], -1, Some("key required");
      }
      var v, e, ok := cache.Get(key, now);
      if ok {
        return v, e, None;
      }
      v, e, ok := hotcache.Get(key, now);
      if ok {
        return v, e, None;
      }
      value, ex, err := RemoteGet(key, now, pick, peer, retrieved);
    }

    method RemoteGet(key: Bytes, now: int, pick: Pick, peer: Fetched, retrieved: Fetched)
      returns (value: Bytes, ex: int, err: Option<string>)
      requires Valid() && RemoteFits(State(), key, pick, peer, retrieved)
      modifies Repr
      ensures Valid() && fresh(Repr - old(Repr))
      ensures (State(), Answer(value, ex, err)) == GroupRemoteGet(old(State()), key, now, pick, peer, retrieved)
    {
      var v: Bytes, e: int, er: Option<string>;
      var fetched := false;
      if hasServer {
        if pick == Remote {
          if peer.Fetched? {
            if peer.ex == 0 {
              hotcache.Add(key, peer.value, None);
              v, e, er := peer.value, 0, None;
            } else {
              hotcache.Add(key, peer.value, Some(now + peer.ex));
              v, e, er := peer.value, peer.ex, None;
            }
            Repr := {this} + cache.Repr + hotcache.Repr;
            fetched := true;
          }
        }
      }
      if !fetched {
        v, e, er := LocalGet(key, now, retrieved);
      }
      if er.None? {
        return v, e, er;
      }
      return [], -1, er;
    }

    method LocalGet(key: Bytes, now: int, retrieved: Fetched)
      returns (value: Bytes, ex: int, err: Option<string>)
      requires Valid() && LocalGetFits(State(), key, retrieved)
      modifies Repr
      ensures Valid() && fresh(Repr - old(Repr))
      ensures (State(), Answer(value, ex, err)) == GroupLocalGet(old(State()), key, now, retrieved)
    {
      if retrieved.FetchFailed? {
        return [], -1, Some(retrieved.msg);
      }
      value := retrieved.value;
      if retrieved.ex == 0 {
        cache.Add(key, value, None);
        Repr := {this} + cache.Repr + hotcache.Repr;
        return value, 0, None;
      }
      cache.Add(key, value, Some(now + retrieved.ex));
      Repr := {this} + cache.Repr + hotcache.Repr;
      return value, retrieved.ex, None;
    }

    method Set(key: Bytes, val: Bytes, nx: int, now: int, pick: Pick,
               peerErr: Option<string>, storeErr: Option<string>) returns (err: Option<string>)
      requires Valid() && SetFits(State(), key, val, pick, peerErr)
      modifies Repr
      ensures Valid() && fresh(Repr - old(Repr))
      ensures (State(), err) == GroupSet(old(State()), key, val, nx, now, pick, peerErr, storeErr)
    {
      err := RemoteSet(key, val, nx, now, pick, peerErr, storeErr);
    }

    method RemoteSet(key: Bytes, val: Bytes, nx: int, now: int, pick: Pick,
                     peerErr: Option<string>, storeErr: Option<string>) returns (err: Option<string>)
      requires Valid() && SetFits(State(), key, val, pick, peerErr)
      modifies Repr
      ensures Valid() && fresh(Repr - old(Repr))
      ensures (State(), err) == GroupSet(old(State()), key, val, nx, now, pick, peerErr, storeErr)
    {
      if hasServer {
        if pick == Remote {
          if peerErr.None? {
            return None;
          }
        }
      }
      err := LocalSet(key, val, nx, now, storeErr);
    }

    /** LocalSet's cache part; storeErr is what the Redis write answers. */
    method LocalSet(key: Bytes, val: Bytes, nx: int, now: int, storeErr: Option<string>) returns (err: Option<string>)
      requires Valid() && LocalCache.CanAdd(cache.State(), key, val)
      modifies Repr
      ensures Valid() && fresh(Repr - old(Repr))
      ensures (State(), err) == GroupLocalSet(old(State()), key, val, nx, now, storeErr)
    {
      if nx == 0 {
        cache.Add(key, val, None);
        Repr := {this} + cache.Repr + hotcache.Repr;
        return storeErr;
      }
      cache.Add(key, val, Some(now + nx));
      Repr := {this} + cache.Repr + hotcache.Repr;
      return storeErr;
    }
  }

  // ---------------------------------------------------------------------------
  // The groups table

  /** The process-wide name -> group table; the lock is not modelled. */
  class Registry {
    var groups: map<string, Group>

    constructor ()
      ensures groups == map[]
    {
      groups := map[];
    }

    /** GetGroup: the group registered under the name, None (nil) for an
        unknown name. */
    function GetGroup(name: string): (r: Option<Group>)
      reads this
      ensures r.None? <==> name !in groups
      ensures r.Some? ==> r.value == groups[name]
    {
      if name in groups then Some(groups[name]) else None
    }

    /** NewGroup's construction and registration: a fresh group with a server,
        the primary cache of maxBytes and the hot cache of maxBytes / 10,
        stored under the name, replacing any group there. */
    method NewGroup(name: string, maxBytes: int) returns (g: Group)
      modifies this
      ensures fresh(g) && fresh(g.Repr) && g.Valid()
      ensures g.name == name && g.State() == NewGroupState(maxBytes)
      ensures groups == old(groups)[name := g]
      ensures GetGroup(name) == Some(g)
      ensures forall n :: n != name ==> GetGroup(n) == old(GetGroup(n))
    {
      g := new Group(name, maxBytes, true);
      groups := groups[name := g];
    }

    /** DestroyGroup: a registered group, whose server is stopped, is removed;
        then GetGroup answers None. A registered group must have its server set: Go's type
        assertion on it would panic otherwise. */
    method DestroyGroup(name: string)
      requires name in groups ==> groups[name].hasServer
      modifies this
      ensures groups == old(groups) - {name}
      ensures GetGroup(name) == None
      ensures forall n :: n != name ==> GetGroup(n) == old(GetGroup(n))
    {
      var g := GetGroup(name);
      if g.Some? {
        groups := groups - {name};
      }
    }
  }
}
