/**
 The hash part of a table: a chained scatter table with Brent's variation. Nodes
 refer to each other by index, and which index a key hashes to is left open.
 */
module TableChain {
  import opened LuaValue

  datatype Option<T> = None | Some(value: T)

  /** A key is never unset until the next rehash; the collector marks the key of an
      emptied entry as dead. */
  datatype NodeKey = Free | Live(k: Key) | Dead(k: Key)

  /** `next` is an index, or -1. */
  datatype Node<V> = Node(key: NodeKey, val: Option<V>, next: int)

  /** Any hash function: the node of a key in a vector of a given size. */
  type Hash = (Key, nat) -> nat

  function MainPosition(hash: Hash, k: Key, size: nat): (r: nat)
    requires size > 0
    ensures r < size
  {
    hash(k, size) % size
  }

  // ---------------------------------------------------------------- chains

  /** `j` is at most `n` links behind `i`. */
  ghost predicate Reach<V>(nodes: seq<Node<V>>, i: int, j: int, n: nat)
    decreases n
  {
    i == j || (n > 0 && 0 <= i < |nodes| && Reach(nodes, nodes[i].next, j, n - 1))
  }

  ghost predicate OnChain<V>(nodes: seq<Node<V>>, i: int, j: int) {
    exists n: nat :: Reach(nodes, i, j, n)
  }

  /** Links stay in range and lead to nodes in use, upwards in some rank, so that
      no chain is a cycle; and at most one link leads to a node. */
  ghost predicate Linked<V>(nodes: seq<Node<V>>, rank: seq<real>) {
    && |rank| == |nodes|
    && (forall i | 0 <= i < |nodes| :: -1 <= nodes[i].next < |nodes|)
    && (forall i | 0 <= i < |nodes| && nodes[i].next >= 0 :: rank[i] < rank[nodes[i].next] && !nodes[nodes[i].next].key.Free?)
    && (forall i, j | 0 <= i < |nodes| && 0 <= j < |nodes| && i != j :: nodes[i].next == nodes[j].next ==> nodes[i].next == -1)
    && (forall i | 0 <= i < |nodes| && nodes[i].key.Free? :: nodes[i].next == -1)
  }

  /** Node `m` holds a key whose main position it is. */
  ghost predicate AtHome<V>(hash: Hash, nodes: seq<Node<V>>, m: int)
    requires |nodes| > 0
  {
    0 <= m < |nodes| && !nodes[m].key.Free? && MainPosition(hash, nodes[m].key.k, |nodes|) == m
  }

  /** The main position of each key in use holds a key that is at home there, and
      starts a chain that leads to the key. */
  ghost predicate Homed<V>(hash: Hash, nodes: seq<Node<V>>) {
    forall i | 0 <= i < |nodes| && !nodes[i].key.Free? ::
      var m := MainPosition(hash, nodes[i].key.k, |nodes|);
      AtHome(hash, nodes, m) && OnChain(nodes, m, i)
  }

  /** Live keys are distinct, only they have values, and a live key comes before any
      dead one that is the same pointer. */
  ghost predicate Keyed<V>(nodes: seq<Node<V>>, rank: seq<real>)
    requires |rank| == |nodes|
  {
    && (forall i, j | 0 <= i < j < |nodes| && nodes[i].key.Live? && nodes[j].key.Live? :: nodes[i].key.k != nodes[j].key.k)
    && (forall i | 0 <= i < |nodes| && !nodes[i].key.Live? :: nodes[i].val.None?)
    && (forall i, j | 0 <= i < |nodes| && 0 <= j < |nodes| && nodes[i].key.Live? && nodes[j].key.Dead? ::
          nodes[i].key.k == nodes[j].key.k ==> rank[i] < rank[j])
  }

  ghost predicate Chained<V>(hash: Hash, nodes: seq<Node<V>>, rank: seq<real>) {
    Linked(nodes, rank) && Homed(hash, nodes) && Keyed(nodes, rank)
  }

  lemma {:induction false} ReachRank<V>(nodes: seq<Node<V>>, rank: seq<real>, i: int, j: int, n: nat)
    requires Linked(nodes, rank) && 0 <= i < |nodes| && 0 <= j < |nodes| && Reach(nodes, i, j, n)
    ensures rank[i] <= rank[j] && (i != j ==> rank[i] < rank[j])
    decreases n
  {
    if i != j {
      ReachRank(nodes, rank, nodes[i].next, j, n - 1);
    }
  }

  /** No chain comes back. */
  lemma ChainRises<V>(nodes: seq<Node<V>>, rank: seq<real>, i: int, j: int)
    requires Linked(nodes, rank) && 0 <= i < |nodes| && 0 <= j < |nodes| && OnChain(nodes, i, j)
    ensures i != j ==> rank[i] < rank[j] && !OnChain(nodes, j, i)
  {
    var n: nat :| Reach(nodes, i, j, n);
    ReachRank(nodes, rank, i, j, n);
    if OnChain(nodes, j, i) {
      var m: nat :| Reach(nodes, j, i, m);
      ReachRank(nodes, rank, j, i, m);
    }
  }

  lemma ChainStep<V>(nodes: seq<Node<V>>, i: int, j: int)
    requires 0 <= i < |nodes| && i != j && OnChain(nodes, i, j)
    ensures OnChain(nodes, nodes[i].next, j)
  {
    var n: nat :| Reach(nodes, i, j, n);
    assert Reach(nodes, nodes[i].next, j, n - 1);
  }

  lemma {:induction false} ReachFromNull<V>(nodes: seq<Node<V>>, j: int, n: nat)
    requires Reach(nodes, -1, j, n)
    ensures j == -1
  {
  }

  // ---------------------------------------------------------------- the links after an edit

  /** Only keys and values differ. */
  ghost predicate SameLinks<V>(s: seq<Node<V>>, t: seq<Node<V>>) {
    |s| == |t| && forall i | 0 <= i < |s| :: s[i].next == t[i].next
  }

  lemma {:induction false} ReachSame<V>(s: seq<Node<V>>, t: seq<Node<V>>, i: int, j: int, n: nat)
    requires SameLinks(s, t) && Reach(s, i, j, n)
    ensures Reach(t, i, j, n)
    decreases n
  {
    if i != j {
      ReachSame(s, t, s[i].next, j, n - 1);
    }
  }

  lemma OnChainSame<V>(s: seq<Node<V>>, t: seq<Node<V>>, i: int, j: int)
    requires SameLinks(s, t) && OnChain(s, i, j)
    ensures OnChain(t, i, j)
  {
    var n: nat :| Reach(s, i, j, n);
    ReachSame(s, t, i, j, n);
  }

  /** Node `n`, which no link led to, now follows `mp`. */
  ghost predicate LinkInserted<V>(s: seq<Node<V>>, t: seq<Node<V>>, mp: int, n: int) {
    && |s| == |t| && 0 <= mp < |s| && 0 <= n < |s| && mp != n
    && t[n].next == s[mp].next && t[mp].next == n
    && forall i | 0 <= i < |s| && i != mp && i != n :: t[i].next == s[i].next
  }

  lemma {:induction false} ReachInserted<V>(s: seq<Node<V>>, t: seq<Node<V>>, mp: int, n: int, i: int, j: int, c: nat)
    requires LinkInserted(s, t, mp, n) && Reach(s, i, j, c)
    requires i != n && forall k | 0 <= k < |s| :: s[k].next != n
    ensures Reach(t, i, j, 2 * c)
    decreases c
  {
    if i != j {
      ReachInserted(s, t, mp, n, s[i].next, j, c - 1);
      if i == mp {
        assert Reach(t, n, j, 2 * c - 1);
      } else {
        ReachMore(t, s[i].next, j, 2 * c - 2);
      }
    }
  }

  lemma {:induction false} ReachMore<V>(s: seq<Node<V>>, i: int, j: int, n: nat)
    requires Reach(s, i, j, n)
    ensures Reach(s, i, j, n + 1)
    decreases n
  {
    if i != j {
      ReachMore(s, s[i].next, j, n - 1);
    }
  }

  lemma OnChainInserted<V>(s: seq<Node<V>>, t: seq<Node<V>>, mp: int, n: int, i: int, j: int)
    requires LinkInserted(s, t, mp, n) && OnChain(s, i, j)
    requires i != n && forall k | 0 <= k < |s| :: s[k].next != n
    ensures OnChain(t, i, j)
  {
    var c: nat :| Reach(s, i, j, c);
    ReachInserted(s, t, mp, n, i, j, c);
  }

  /** Nodes `mp` and `n` have changed places. */
  function Swapped(mp: int, n: int, i: int): int {
    if i == mp then n else if i == n then mp else i
  }

  ghost predicate LinkSwapped<V>(s: seq<Node<V>>, t: seq<Node<V>>, mp: int, n: int) {
    && |s| == |t| && 0 <= mp < |s| && 0 <= n < |s| && mp != n
    && forall i | 0 <= i < |s| :: t[Swapped(mp, n, i)].next == Swapped(mp, n, s[i].next)
  }

  lemma {:induction false} ReachSwapped<V>(s: seq<Node<V>>, t: seq<Node<V>>, mp: int, n: int, i: int, j: int, c: nat)
    requires LinkSwapped(s, t, mp, n) && Reach(s, i, j, c)
    ensures Reach(t, Swapped(mp, n, i), Swapped(mp, n, j), c)
    decreases c
  {
    if i != j {
      ReachSwapped(s, t, mp, n, s[i].next, j, c - 1);
    }
  }

  lemma OnChainSwapped<V>(s: seq<Node<V>>, t: seq<Node<V>>, mp: int, n: int, i: int, j: int)
    requires LinkSwapped(s, t, mp, n) && OnChain(s, i, j)
    ensures OnChain(t, Swapped(mp, n, i), Swapped(mp, n, j))
  {
    var c: nat :| Reach(s, i, j, c);
    ReachSwapped(s, t, mp, n, i, j, c);
  }

  // ---------------------------------------------------------------- what newkey does

  ghost predicate NotLive<V>(nodes: seq<Node<V>>, k: Key) {
    forall i | 0 <= i < |nodes| :: nodes[i].key != Live(k)
  }

  /** The main position has no value: the key takes it, and the chain through it
      stays as it is. */
  function TakeHome<V>(nodes: seq<Node<V>>, mp: nat, k: Key): seq<Node<V>>
    requires mp < |nodes|
  {
    nodes[mp := nodes[mp].(key := Live(k))]
  }

  /** The key at the main position is at home: the new key goes to the free node
      `n`, linked behind it. */
  function TakeFree<V>(nodes: seq<Node<V>>, mp: nat, n: nat, k: Key): seq<Node<V>>
    requires mp < |nodes| && n < |nodes|
  {
    nodes[n := Node(Live(k), nodes[n].val, nodes[mp].next)][mp := nodes[mp].(next := n)]
  }

  /** The key at the main position is a guest: it moves to the free node `n`, where
      its predecessor `p` finds it, and the new key takes its place. */
  function Evict<V>(nodes: seq<Node<V>>, mp: nat, p: nat, n: nat, k: Key): seq<Node<V>>
    requires mp < |nodes| && p < |nodes| && n < |nodes|
  {
    nodes[p := nodes[p].(next := n)][n := nodes[mp]][mp := Node(Live(k), None, -1)]
  }

  lemma HomeTaken<V>(hash: Hash, nodes: seq<Node<V>>, rank: seq<real>, mp: nat, k: Key)
    requires Chained(hash, nodes, rank) && NotLive(nodes, k)
    requires mp < |nodes| && MainPosition(hash, k, |nodes|) == mp && nodes[mp].val.None?
    ensures Chained(hash, TakeHome(nodes, mp, k), rank)
  {
    hide Homed, Keyed, OnChain, AtHome, MainPosition;
    var t := TakeHome(nodes, mp, k);
    HomeTakenHomed(hash, nodes, rank, mp, k);
    HomeTakenKeyed(hash, nodes, rank, mp, k);
  }

  lemma HomeTakenHomed<V>(hash: Hash, nodes: seq<Node<V>>, rank: seq<real>, mp: nat, k: Key)
    requires |nodes| == |rank| && Homed(hash, nodes)
    requires mp < |nodes| && MainPosition(hash, k, |nodes|) == mp
    ensures Homed(hash, TakeHome(nodes, mp, k))
  {
    hide OnChain, MainPosition;
    var t := TakeHome(nodes, mp, k);
    forall i | 0 <= i < |t| && !t[i].key.Free?
      ensures var m := MainPosition(hash, t[i].key.k, |t|); AtHome(hash, t, m) && OnChain(t, m, i)
    {
      if i == mp {
        OnOwnChain(t, mp);
      } else {
        OnChainSame(nodes, t, MainPosition(hash, nodes[i].key.k, |nodes|), i);
      }
    }
  }

  lemma OnOwnChain<V>(nodes: seq<Node<V>>, i: int)
    ensures OnChain(nodes, i, i)
  {
    assert Reach(nodes, i, i, 0);
  }

  lemma HomeTakenKeyed<V>(hash: Hash, nodes: seq<Node<V>>, rank: seq<real>, mp: nat, k: Key)
    requires Chained(hash, nodes, rank) && NotLive(nodes, k) && |rank| == |nodes|
    requires mp < |nodes| && MainPosition(hash, k, |nodes|) == mp
    ensures Keyed(TakeHome(nodes, mp, k), rank)
  {
    hide OnChain, MainPosition, Linked;
    var t := TakeHome(nodes, mp, k);
    forall j | 0 <= j < |t| && t[j].key == Dead(k) ensures rank[mp] < rank[j] {
      ChainRises(nodes, rank, mp, j);
    }
  }

  function Between(rank: seq<real>, lo: nat, hi: int): real
    requires lo < |rank| && -1 <= hi < |rank|
  {
    if hi < 0 then rank[lo] + 1.0 else (rank[lo] + rank[hi]) / 2.0
  }

  lemma FreeTaken<V>(hash: Hash, nodes: seq<Node<V>>, rank: seq<real>, mp: nat, n: nat, k: Key)
    requires Chained(hash, nodes, rank) && NotLive(nodes, k)
    requires mp < |nodes| && MainPosition(hash, k, |nodes|) == mp && AtHome(hash, nodes, mp) && nodes[mp].key.Live?
    requires n < |nodes| && nodes[n].key.Free?
    ensures Chained(hash, TakeFree(nodes, mp, n, k), rank[n := Between(rank, mp, nodes[mp].next)])
  {
    hide Linked, Homed, Keyed, OnChain, AtHome, MainPosition, TakeFree;
    FreeTakenLinked(nodes, rank, mp, n, k);
    FreeTakenHomed(hash, nodes, rank, mp, n, k);
    FreeTakenKeyed(hash, nodes, rank, mp, n, k);
  }

  lemma FreeTakenLinked<V>(nodes: seq<Node<V>>, rank: seq<real>, mp: nat, n: nat, k: Key)
    requires Linked(nodes, rank) && mp < |nodes| && n < |nodes| && nodes[n].key.Free? && !nodes[mp].key.Free?
    ensures Linked(TakeFree(nodes, mp, n, k), rank[n := Between(rank, mp, nodes[mp].next)])
  {
  }

  lemma FreeTakenHomed<V>(hash: Hash, nodes: seq<Node<V>>, rank: seq<real>, mp: nat, n: nat, k: Key)
    requires Linked(nodes, rank) && Homed(hash, nodes)
    requires mp < |nodes| && MainPosition(hash, k, |nodes|) == mp && AtHome(hash, nodes, mp)
    requires n < |nodes| && nodes[n].key.Free?
    ensures Homed(hash, TakeFree(nodes, mp, n, k))
  {
    hide OnChain, MainPosition;
    var t := TakeFree(nodes, mp, n, k);
    assert LinkInserted(nodes, t, mp, n);
    NoLinkToFree(nodes, rank, n);
    hide Linked;
    forall i | 0 <= i < |t| && !t[i].key.Free?
      ensures var m := MainPosition(hash, t[i].key.k, |t|); AtHome(hash, t, m) && OnChain(t, m, i)
    {
      if i == n {
        OnNextChain(t, mp);
      } else {
        OnChainInserted(nodes, t, mp, n, MainPosition(hash, nodes[i].key.k, |nodes|), i);
      }
    }
  }

  lemma NoLinkToFree<V>(nodes: seq<Node<V>>, rank: seq<real>, n: nat)
    requires Linked(nodes, rank) && n < |nodes| && nodes[n].key.Free?
    ensures forall k | 0 <= k < |nodes| :: nodes[k].next != n
  {
  }

  lemma OnNextChain<V>(nodes: seq<Node<V>>, i: nat)
    requires i < |nodes|
    ensures OnChain(nodes, i, nodes[i].next)
  {
    assert Reach(nodes, nodes[i].next, nodes[i].next, 0);
    assert Reach(nodes, i, nodes[i].next, 1);
  }

  lemma FreeTakenKeyed<V>(hash: Hash, nodes: seq<Node<V>>, rank: seq<real>, mp: nat, n: nat, k: Key)
    requires Chained(hash, nodes, rank) && NotLive(nodes, k)
    requires mp < |nodes| && MainPosition(hash, k, |nodes|) == mp && AtHome(hash, nodes, mp) && nodes[mp].key.Live?
    requires n < |nodes| && nodes[n].key.Free?
    ensures Keyed(TakeFree(nodes, mp, n, k), rank[n := Between(rank, mp, nodes[mp].next)])
  {
    var next := nodes[mp].next;
    LinkRises(nodes, rank, mp);
    hide OnChain, MainPosition, Linked;
    var t := TakeFree(nodes, mp, n, k);
    var r := rank[n := Between(rank, mp, next)];
    forall j | 0 <= j < |t| && t[j].key == Dead(k) ensures j != n && r[n] < r[j] {
      ChainStep(nodes, mp, j);
      DeadBehind(nodes, rank, mp, j);
    }
  }

  lemma LinkRises<V>(nodes: seq<Node<V>>, rank: seq<real>, i: nat)
    requires Linked(nodes, rank) && i < |nodes|
    ensures -1 <= nodes[i].next < |nodes| && (nodes[i].next >= 0 ==> rank[i] < rank[nodes[i].next])
  {
  }

  lemma DeadBehind<V>(nodes: seq<Node<V>>, rank: seq<real>, mp: nat, j: nat)
    requires Linked(nodes, rank) && mp < |nodes| && j < |nodes| && OnChain(nodes, nodes[mp].next, j)
    ensures nodes[mp].next >= 0 && rank[nodes[mp].next] <= rank[j]
  {
    var c: nat :| Reach(nodes, nodes[mp].next, j, c);
    if nodes[mp].next < 0 {
      ReachFromNull(nodes, j, c);
    } else {
      ReachRank(nodes, rank, nodes[mp].next, j, c);
    }
  }

  lemma Evicted<V>(hash: Hash, nodes: seq<Node<V>>, rank: seq<real>, mp: nat, p: nat, n: nat, k: Key)
    requires Chained(hash, nodes, rank) && NotLive(nodes, k)
    requires mp < |nodes| && MainPosition(hash, k, |nodes|) == mp && !nodes[mp].key.Free? && !AtHome(hash, nodes, mp)
    requires p < |nodes| && nodes[p].next == mp
    requires n < |nodes| && nodes[n].key.Free?
    ensures Chained(hash, Evict(nodes, mp, p, n, k), rank[n := rank[mp]])
  {
    EvictedLinked(nodes, rank, mp, p, n, k);
    EvictedHomed(hash, nodes, rank, mp, p, n, k);
    EvictedKeyed(hash, nodes, rank, mp, p, n, k);
  }

  lemma EvictedLinked<V>(nodes: seq<Node<V>>, rank: seq<real>, mp: nat, p: nat, n: nat, k: Key)
    requires Linked(nodes, rank) && mp < |nodes| && !nodes[mp].key.Free? && n < |nodes| && nodes[n].key.Free?
    requires p < |nodes| && nodes[p].next == mp
    ensures Linked(Evict(nodes, mp, p, n, k), rank[n := rank[mp]])
    ensures |rank| == |nodes| && p != mp
  {
    EvictedSwaps(nodes, rank, mp, p, n, k);
    OneLinkSwapped(nodes, Evict(nodes, mp, p, n, k), rank, mp, n);
  }

  lemma EvictedSwaps<V>(nodes: seq<Node<V>>, rank: seq<real>, mp: nat, p: nat, n: nat, k: Key)
    requires Linked(nodes, rank) && mp < |nodes| && !nodes[mp].key.Free? && n < |nodes| && nodes[n].key.Free?
    requires p < |nodes| && nodes[p].next == mp
    ensures LinkSwapped(nodes, Evict(nodes, mp, p, n, k), mp, n)
  {
  }

  lemma OneLinkSwapped<V>(s: seq<Node<V>>, t: seq<Node<V>>, rank: seq<real>, mp: int, n: int)
    requires Linked(s, rank) && LinkSwapped(s, t, mp, n)
    ensures forall i, j | 0 <= i < |t| && 0 <= j < |t| && i != j :: t[i].next == t[j].next ==> t[i].next == -1
  {
    forall i, j | 0 <= i < |t| && 0 <= j < |t| && i != j
      ensures t[i].next == t[j].next ==> t[i].next == -1
    {
      var i0, j0 := Swapped(mp, n, i), Swapped(mp, n, j);
      assert t[Swapped(mp, n, i0)].next == Swapped(mp, n, s[i0].next);
      assert t[Swapped(mp, n, j0)].next == Swapped(mp, n, s[j0].next);
    }
  }

  lemma EvictedHomed<V>(hash: Hash, nodes: seq<Node<V>>, rank: seq<real>, mp: nat, p: nat, n: nat, k: Key)
    requires Linked(nodes, rank) && Homed(hash, nodes)
    requires mp < |nodes| && MainPosition(hash, k, |nodes|) == mp && !nodes[mp].key.Free? && !AtHome(hash, nodes, mp)
    requires p < |nodes| && nodes[p].next == mp
    requires n < |nodes| && nodes[n].key.Free?
    ensures Homed(hash, Evict(nodes, mp, p, n, k))
  {
    EvictedSwaps(nodes, rank, mp, p, n, k);
    hide OnChain, MainPosition, Linked, LinkSwapped;
    var t := Evict(nodes, mp, p, n, k);
    forall i | 0 <= i < |t| && !t[i].key.Free?
      ensures var m := MainPosition(hash, t[i].key.k, |t|); AtHome(hash, t, m) && OnChain(t, m, i)
    {
      if i == mp {
        OnOwnChain(t, mp);
      } else {
        var i0 := Swapped(mp, n, i);
        assert t[i].key == nodes[i0].key;
        OnChainSwapped(nodes, t, mp, n, MainPosition(hash, nodes[i0].key.k, |nodes|), i0);
      }
    }
  }

  lemma EvictedKeyed<V>(hash: Hash, nodes: seq<Node<V>>, rank: seq<real>, mp: nat, p: nat, n: nat, k: Key)
    requires |nodes| == |rank| && Homed(hash, nodes) && Keyed(nodes, rank) && NotLive(nodes, k)
    requires mp < |nodes| && MainPosition(hash, k, |nodes|) == mp && !nodes[mp].key.Free? && !AtHome(hash, nodes, mp)
    requires p < |nodes| && p != mp && n < |nodes| && n != mp && nodes[n].key.Free?
    ensures Keyed(Evict(nodes, mp, p, n, k), rank[n := rank[mp]])
  {
    hide OnChain, MainPosition;
    NoGuestDead(hash, nodes, mp, k);
  }

  /** A key whose main position holds a guest is nowhere in the table. */
  lemma NoGuestDead<V>(hash: Hash, nodes: seq<Node<V>>, mp: nat, k: Key)
    requires Homed(hash, nodes)
    requires mp < |nodes| && MainPosition(hash, k, |nodes|) == mp && !AtHome(hash, nodes, mp)
    ensures forall i | 0 <= i < |nodes| :: nodes[i].key != Dead(k)
  {
    hide OnChain, MainPosition;
  }
}
