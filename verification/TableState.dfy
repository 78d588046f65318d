/**
 What holds of a table between operations, and that each way to place a new key
 keeps it.
 */
module TableState {
  import opened Numbers
  import opened LuaValue
  import opened TableChain
  import opened TableSizes
  import opened TableMap
  import opened TableCount

  ghost predicate NoNaN<V>(nodes: seq<Node<V>>) {
    forall i | 0 <= i < |nodes| && nodes[i].key.Live? :: !NaNKey(nodes[i].key.k)
  }

  /** Nodes from `from` on have all been used. */
  ghost predicate UsedFrom<V>(nodes: seq<Node<V>>, from: int) {
    forall i | 0 <= i < |nodes| && from <= i :: !nodes[i].key.Free?
  }

  ghost function Used<V>(nodes: seq<Node<V>>): set<int> {
    set i | 0 <= i < |nodes| && !nodes[i].key.Free?
  }

  /** An empty hash part is one shared node that is never written. */
  ghost predicate Dummy<V>(nodes: seq<Node<V>>) {
    |nodes| == 1 && nodes[0].key.Free?
  }

  ghost predicate Sound<V>(hash: Hash, arr: seq<Option<V>>, nodes: seq<Node<V>>, rank: seq<real>, lsizenode: nat) {
    && |arr| <= MAXASIZE && lsizenode <= MAXBITS && |nodes| == Pow2(lsizenode)
    && Chained(hash, nodes, rank) && Apart(arr, nodes) && NoNaN(nodes)
  }

  /** The hash part changed from `s` to `t` by one new key `k`, at node `i`. */
  ghost predicate KeyAdded<V>(s: seq<Node<V>>, t: seq<Node<V>>, k: Key, i: nat) {
    && |t| == |s| && SameMap(s, t) && |Used(t)| <= |Used(s)| + 1
    && i < |t| && t[i].key == Live(k) && t[i].val.None?
  }

  lemma UsedMore<V>(s: seq<Node<V>>, t: seq<Node<V>>, n: nat)
    requires |s| == |t| && n < |s|
    requires forall i | 0 <= i < |s| && i != n :: s[i].key.Free? ==> t[i].key.Free?
    ensures |Used(t)| <= |Used(s)| + 1
  {
    SubsetSize(Used(t), Used(s) + {n});
  }

  lemma {:induction false} AllUsed<V>(nodes: seq<Node<V>>)
    requires UsedFrom(nodes, 0)
    ensures |Used(nodes)| == |nodes|
  {
    if nodes == [] {
      assert Used(nodes) == {};
    } else {
      var n := |nodes| - 1;
      AllUsed(nodes[..n]);
      assert Used(nodes) == Used(nodes[..n]) + {n};
    }
  }

  /** Only so many nodes are used as keys have been put into an empty vector. */
  lemma NoneUsed<V>(nodes: seq<Node<V>>)
    requires forall i | 0 <= i < |nodes| :: nodes[i].key.Free?
    ensures |Used(nodes)| == 0
  {
    assert Used(nodes) == {};
  }

  lemma PlacedHome<V>(hash: Hash, arr: seq<Option<V>>, nodes: seq<Node<V>>, rank: seq<real>, lsize: nat, mp: nat, k: Key)
    requires Sound(hash, arr, nodes, rank, lsize) && NotLive(nodes, k) && !NaNKey(k) && !InArray(k, |arr|)
    requires mp < |nodes| && MainPosition(hash, k, |nodes|) == mp && nodes[mp].val.None?
    ensures var t := TakeHome(nodes, mp, k);
            Sound(hash, arr, t, rank, lsize) && KeyAdded(nodes, t, k, mp)
            && forall from :: UsedFrom(nodes, from) ==> UsedFrom(t, from)
  {
    hide Linked, Homed, Keyed, MainPosition, SameMap, Used, Apart, NoNaN, UsedFrom, TakeHome;
    RankSize(nodes, rank);
    HomeTaken(hash, nodes, rank, mp, k);
    HomeTakenMap(nodes, rank, mp, k);
    HomeRest(arr, nodes, mp, k);
  }

  lemma HomeRest<V>(arr: seq<Option<V>>, nodes: seq<Node<V>>, mp: nat, k: Key)
    requires Apart(arr, nodes) && NoNaN(nodes) && !NaNKey(k) && !InArray(k, |arr|)
    requires mp < |nodes| && nodes[mp].val.None?
    ensures var t := TakeHome(nodes, mp, k);
            |t| == |nodes| && Apart(arr, t) && NoNaN(t) && |Used(t)| <= |Used(nodes)| + 1
            && t[mp].key == Live(k) && t[mp].val.None? && forall from :: UsedFrom(nodes, from) ==> UsedFrom(t, from)
  {
    UsedMore(nodes, TakeHome(nodes, mp, k), mp);
    hide Used;
  }

  lemma PlacedFree<V>(hash: Hash, arr: seq<Option<V>>, nodes: seq<Node<V>>, rank: seq<real>, lsize: nat, mp: nat, n: nat, k: Key)
    requires Sound(hash, arr, nodes, rank, lsize) && NotLive(nodes, k) && !NaNKey(k) && !InArray(k, |arr|)
    requires mp < |nodes| && MainPosition(hash, k, |nodes|) == mp && AtHome(hash, nodes, mp) && nodes[mp].val.Some?
    requires n < |nodes| && nodes[n].key.Free?
    ensures -1 <= nodes[mp].next < |nodes| && |rank| == |nodes|
    ensures var t, r := TakeFree(nodes, mp, n, k), rank[n := Between(rank, mp, nodes[mp].next)];
            Sound(hash, arr, t, r, lsize) && KeyAdded(nodes, t, k, n) && (UsedFrom(nodes, n + 1) ==> UsedFrom(t, n))
  {
    hide Linked, Homed, Keyed, MainPosition, SameMap, Used, AtHome, Apart, NoNaN, UsedFrom, TakeFree, OnChain;
    RankSize(nodes, rank);
    ValueIsLive(nodes, rank, mp, n);
    LinkRises(nodes, rank, mp);
    FreeTaken(hash, nodes, rank, mp, n, k);
    FreeTakenMap(nodes, rank, rank[n := Between(rank, mp, nodes[mp].next)], mp, n, k);
    FreeRest(arr, nodes, mp, n, k);
  }

  lemma FreeRest<V>(arr: seq<Option<V>>, nodes: seq<Node<V>>, mp: nat, n: nat, k: Key)
    requires Apart(arr, nodes) && NoNaN(nodes) && !NaNKey(k) && !InArray(k, |arr|)
    requires mp < |nodes| && n < |nodes| && n != mp && nodes[n].val.None? && !nodes[mp].key.Free?
    ensures var t := TakeFree(nodes, mp, n, k);
            |t| == |nodes| && Apart(arr, t) && NoNaN(t) && |Used(t)| <= |Used(nodes)| + 1
            && t[n].key == Live(k) && t[n].val.None? && (UsedFrom(nodes, n + 1) ==> UsedFrom(t, n))
  {
    UsedMore(nodes, TakeFree(nodes, mp, n, k), n);
    hide Used;
  }

  lemma RankSize<V>(nodes: seq<Node<V>>, rank: seq<real>)
    requires Linked(nodes, rank)
    ensures |rank| == |nodes|
  {
  }

  lemma ValueIsLive<V>(nodes: seq<Node<V>>, rank: seq<real>, mp: nat, n: nat)
    requires |rank| == |nodes| && Keyed(nodes, rank) && mp < |nodes| && nodes[mp].val.Some?
    requires n < |nodes| && nodes[n].key.Free?
    ensures nodes[mp].key.Live? && n != mp && nodes[n].val.None?
  {
  }

  lemma PlacedEvicting<V>(hash: Hash, arr: seq<Option<V>>, nodes: seq<Node<V>>, rank: seq<real>, lsize: nat, mp: nat, p: nat, n: nat, k: Key)
    requires Sound(hash, arr, nodes, rank, lsize) && NotLive(nodes, k) && !NaNKey(k) && !InArray(k, |arr|)
    requires mp < |nodes| && MainPosition(hash, k, |nodes|) == mp && !AtHome(hash, nodes, mp) && nodes[mp].val.Some?
    requires p < |nodes| && nodes[p].next == mp
    requires n < |nodes| && nodes[n].key.Free?
    ensures |rank| == |nodes| && p != n && p != mp && n != mp
    ensures var t, r := Evict(nodes, mp, p, n, k), rank[n := rank[mp]];
            Sound(hash, arr, t, r, lsize) && KeyAdded(nodes, t, k, mp) && (UsedFrom(nodes, n + 1) ==> UsedFrom(t, n))
  {
    hide Linked, Homed, Keyed, MainPosition, SameMap, Used, AtHome, Apart, NoNaN, UsedFrom, Evict, OnChain;
    RankSize(nodes, rank);
    ValueIsLive(nodes, rank, mp, n);
    EvictedLinked(nodes, rank, mp, p, n, k);
    LinksFromUsed(nodes, rank, p, n);
    Evicted(hash, nodes, rank, mp, p, n, k);
    EvictedMap(nodes, rank, rank[n := rank[mp]], mp, p, n, k);
    EvictRest(arr, nodes, mp, p, n, k);
  }

  lemma LinksFromUsed<V>(nodes: seq<Node<V>>, rank: seq<real>, p: nat, n: nat)
    requires Linked(nodes, rank) && p < |nodes| && n < |nodes| && nodes[n].key.Free? && nodes[p].next >= 0
    ensures p != n && |rank| == |nodes|
  {
  }

  lemma EvictRest<V>(arr: seq<Option<V>>, nodes: seq<Node<V>>, mp: nat, p: nat, n: nat, k: Key)
    requires Apart(arr, nodes) && NoNaN(nodes) && !NaNKey(k) && !InArray(k, |arr|)
    requires mp < |nodes| && n < |nodes| && n != mp && p < |nodes| && p != n && p != mp && nodes[mp].key.Live?
    ensures var t := Evict(nodes, mp, p, n, k);
            |t| == |nodes| && Apart(arr, t) && NoNaN(t) && |Used(t)| <= |Used(nodes)| + 1
            && t[mp].key == Live(k) && t[mp].val.None? && (UsedFrom(nodes, n + 1) ==> UsedFrom(t, n))
  {
    UsedMore(nodes, Evict(nodes, mp, p, n, k), n);
    hide Used;
  }

  // ---------------------------------------------------------------- new sizes

  /** The node vector that `setnodevector` makes. */
  function EmptyNodes<V>(size: nat): seq<Node<V>> {
    seq(size, _ => Node(Free, None, -1))
  }

  lemma EmptySound<V>(hash: Hash, arr: seq<Option<V>>, lsize: nat)
    requires |arr| <= MAXASIZE && lsize <= MAXBITS
    ensures Sound(hash, arr, EmptyNodes<V>(Pow2(lsize)), seq(Pow2(lsize), _ => 0.0), lsize)
    ensures |Used(EmptyNodes<V>(Pow2(lsize)))| == 0
  {
    NoneUsed(EmptyNodes<V>(Pow2(lsize)));
  }

  ghost function Part<V>(m: map<Key, V>, keys: set<Key>): map<Key, V> {
    map k | k in m && k in keys :: m[k]
  }

  /** After growing or cutting the array part, with the hash part still empty. */
  lemma PartOfArray<V>(old_: seq<Option<V>>, nold: seq<Node<V>>, arr: seq<Option<V>>, empty: seq<Node<V>>)
    requires forall i | 0 <= i < |empty| :: empty[i].key.Free?
    requires forall i | 0 <= i < |arr| :: arr[i] == if i < |old_| then old_[i] else None
    ensures MapOf(arr, empty) == Part(MapOf(old_, nold), ArrayKeys(arr))
    ensures ArrayKeys(arr) <= MapOf(old_, nold).Keys
    ensures forall k | k in MapOf(old_, nold) :: k in ArrayKeys(arr) <==> InArray(k, |arr|) && InArray(k, |old_|)
  {
    forall k ensures k in MapOf(arr, empty) <==> k in ArrayKeys(arr)
      ensures k in ArrayKeys(arr) ==> k in MapOf(old_, nold) && MapOf(old_, nold)[k] == MapOf(arr, empty)[k]
      ensures k in MapOf(old_, nold) ==> (k in ArrayKeys(arr) <==> InArray(k, |arr|) && InArray(k, |old_|))
    {
      MapAt(arr, empty, k);
      MapAt(old_, nold, k);
      InArrayKeys(arr, k);
    }
  }

  lemma InArrayKeys<V>(arr: seq<Option<V>>, k: Key)
    ensures k in ArrayKeys(arr) <==> InArray(k, |arr|) && arr[k.n.i - 1].Some?
  {
    if InArray(k, |arr|) && arr[k.n.i - 1].Some? {
      assert k == At(k.n.i - 1 + 1);
    }
  }

  lemma PartMore<V>(m: map<Key, V>, keys: set<Key>, k: Key)
    requires k in m && k !in keys
    ensures Part(m, keys)[k := m[k]] == Part(m, keys + {k})
    ensures k !in Part(m, keys)
  {
  }

  lemma PartAll<V>(m: map<Key, V>, keys: set<Key>)
    requires m.Keys <= keys
    ensures Part(m, keys) == m
  {
  }

  /** While keys are missing, so are nodes in use. */
  lemma RoomFor(done: set<Key>, all: set<Key>, k: Key, n: nat)
    requires done <= all && k in all && k !in done
    ensures !InArray(k, n) ==> |Outside(done, n)| < |Outside(all, n)|
    ensures |Outside(done + {k}, n)| == |Outside(done, n)| + if InArray(k, n) then 0 else 1
  {
    if InArray(k, n) {
      assert Outside(done + {k}, n) == Outside(done, n);
    } else {
      assert Outside(done + {k}, n) == Outside(done, n) + {k};
      SubsetSize(Outside(done, n) + {k}, Outside(all, n));
    }
  }
}
