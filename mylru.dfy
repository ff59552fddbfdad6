/**
 * The toy integer LRU of kcache/lru/mylru.go: a list of nodes, front first,
 * a map from key to list element and a cap on the number of nodes.
 *
 * A list element is identified with the node it holds. The map is the one
 * the cache was built with: no operation ever writes it, so with the empty
 * map of MyLruTest every Get misses and every Add pushes a new node.
 */
module MyLru {

  class Node {
    var key: int
    var val: int

    constructor (key: int, val: int)
      ensures this.key == key && this.val == val
    {
      this.key := key;
      this.val := val;
    }
  }

  /** s without the node n, in the same order. */
  function Without(s: seq<Node>, n: Node): seq<Node> {
    if s == [] then [] else (if s[0] == n then [] else [s[0]]) + Without(s[1..], n)
  }

  /** container/list's MoveToFront: a node of the list goes to the front,
      anything else leaves the list as it is. */
  function MoveToFront(s: seq<Node>, n: Node): seq<Node> {
    if n in s then [n] + Without(s, n) else s
  }

  /** A list after PushFront: when it holds more than ca nodes, its back is
      removed. */
  function Cap<T>(s: seq<T>, ca: int): seq<T> {
    if |s| > ca && s != [] then s[..|s| - 1] else s
  }

  predicate DistinctNodes(s: seq<Node>) {
    forall i, j :: 0 <= i < j < |s| ==> s[i] != s[j]
  }

  /** The (key, val) pairs of the nodes, front first, as Print shows them. */
  ghost function Pairs(s: seq<Node>): (r: seq<(int, int)>)
    reads s
    ensures |r| == |s|
  {
    if s == [] then [] else [(s[0].key, s[0].val)] + Pairs(s[1..])
  }

  lemma {:induction false} WithoutAbsent(s: seq<Node>, n: Node)
    requires n !in s
    ensures Without(s, n) == s
  {
    if s != [] {
      WithoutAbsent(s[1..], n);
      assert s == [s[0]] + s[1..];
    }
  }

  /** Moving a node of a list with distinct nodes to the front keeps the
      nodes, each once, and the length. */
  lemma {:induction false} WithoutOne(s: seq<Node>, n: Node)
    requires DistinctNodes(s) && n in s
    ensures |Without(s, n)| == |s| - 1
    ensures forall m :: m in Without(s, n) <==> m in s && m != n
    ensures DistinctNodes(Without(s, n))
  {
    if s[0] == n {
      assert n !in s[1..] by {
        forall j | 0 <= j < |s[1..]| ensures s[1..][j] != n {
          assert s[1..][j] == s[j + 1];
        }
      }
      WithoutAbsent(s[1..], n);
      assert DistinctNodes(s[1..]) by {
        forall i, j | 0 <= i < j < |s[1..]| ensures s[1..][i] != s[1..][j] {
          assert s[1..][i] == s[i + 1] && s[1..][j] == s[j + 1];
        }
      }
    } else {
      assert DistinctNodes(s[1..]) by {
        forall i, j | 0 <= i < j < |s[1..]| ensures s[1..][i] != s[1..][j] {
          assert s[1..][i] == s[i + 1] && s[1..][j] == s[j + 1];
        }
      }
      assert n in s[1..] by {
        var i :| 0 <= i < |s| && s[i] == n;
        assert s[1..][i - 1] == n;
      }
      WithoutOne(s[1..], n);
      var t := Without(s[1..], n);
      assert Without(s, n) == [s[0]] + t;
      assert s[0] !in t by {
        forall j | 0 <= j < |s[1..]| ensures s[1..][j] != s[0] {
          assert s[1..][j] == s[j + 1];
        }
      }
      forall i, j | 0 <= i < j < |[s[0]] + t| ensures ([s[0]] + t)[i] != ([s[0]] + t)[j] {
        if i == 0 {
          assert ([s[0]] + t)[j] == t[j - 1];
        } else {
          assert ([s[0]] + t)[i] == t[i - 1] && ([s[0]] + t)[j] == t[j - 1];
        }
      }
    }
  }

  /** Pairs of a prefix make a prefix of the pairs. */
  lemma {:induction false} PairsPrefix(s: seq<Node>, m: nat)
    requires m <= |s|
    ensures Pairs(s[..m]) == Pairs(s)[..m]
  {
    if m > 0 {
      assert s[..m][1..] == s[1..][..m - 1];
      PairsPrefix(s[1..], m - 1);
    }
  }

  /** Go's LruCache. */
  class LruCache {
    const ca: int
    var ll: seq<Node>
    var mp: map<int, Node>

    ghost predicate Valid()
      reads this
    {
      DistinctNodes(ll)
    }

    /** The list's (key, val) pairs, front first. */
    ghost function Contents(): seq<(int, int)>
      reads this, ll
    {
      Pairs(ll)
    }

    /** The struct literal LruCache{ca, list.New(), mp}. */
    constructor (ca: int, mp: map<int, Node>)
      ensures Valid() && this.ca == ca && ll == [] && this.mp == mp
    {
      this.ca := ca;
      ll := [];
      this.mp := mp;
    }

    /** Get: true exactly for a key of the map, whose node then moves to the
        front of the list if it is on it; the map is not written. */
    method Get(k: int) returns (ok: bool)
      requires Valid()
      modifies this
      ensures Valid() && mp == old(mp)
      ensures ok <==> k in mp
      ensures ll == if k in mp then MoveToFront(old(ll), mp[k]) else old(ll)
    {
      if k in mp {
        var el := mp[k];
        if el in ll {
          WithoutOne(ll, el);
        }
        ll := MoveToFront(ll, el);
        return true;
      }
      return false;
    }

    /** Add: a key Get finds gets its node's val overwritten in place, after
        the move, and the length stays; otherwise a new node is pushed at the
        front of the old nodes and, if the list then holds more than ca
        nodes, the back node is removed. The map is not written. */
    method Add(k: int, v: int)
      requires Valid()
      modifies this, if k in mp then {mp[k]} else {}
      ensures Valid() && mp == old(mp)
      ensures k in mp ==>
        && ll == MoveToFront(old(ll), mp[k])
        && |ll| == |old(ll)|
        && mp[k].val == v && mp[k].key == old(mp[k].key)
      ensures k !in mp ==>
        && Contents() == Cap([(k, v)] + old(Contents()), ca)
        && (ll != [] ==> fresh(ll[0]) && ll == Cap([ll[0]] + old(ll), ca))
        && (ll == [] ==> old(ll) == [] && ca < 1)
      ensures |old(ll)| <= ca ==> |ll| <= ca
    {
      var ok := Get(k);
      if ok {
        mp[k].val := v;
        if mp[k] in old(ll) {
          WithoutOne(old(ll), mp[k]);
        }
      } else {
        var nd := new Node(k, v);
        assert Pairs([nd] + ll) == [(k, v)] + Pairs(ll) by {
          assert ([nd] + ll)[1..] == ll;
        }
        ll := [nd] + ll;
        assert DistinctNodes(ll) by {
          forall i, j | 0 <= i < j < |ll| ensures ll[i] != ll[j] {
            if i > 0 {
              assert ll[i] == old(ll)[i - 1] && ll[j] == old(ll)[j - 1];
            }
          }
        }
        if |ll| > ca {
          PairsPrefix(ll, |ll| - 1);
          ll := ll[..|ll| - 1];
        }
      }
    }
  }

  /** MyLruTest's sequence: with the empty map every Add pushes a node, the
      re-add of key 1 pushes a second node for it, and the cap of three
      removes the back nodes (1,1) and then (2,2). */
  method MyLruTest() returns (c: LruCache)
    ensures c.Contents() == [(4, 4), (1, 2), (3, 3)]
  {
    c := new LruCache(3, map[]);
    c.Add(1, 1);
    c.Add(2, 2);
    c.Add(3, 3);
    c.Add(1, 2);
    c.Add(4, 4);
  }

  /** Re-adding a key the map does not hold pushes a duplicate node. */
  method ReAddDuplicates() returns (c: LruCache)
    ensures c.Contents() == [(1, 2), (1, 1)]
  {
    c := new LruCache(3, map[]);
    c.Add(1, 1);
    c.Add(1, 2);
  }
}
