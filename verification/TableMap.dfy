/**
 The finite map that the array part and the hash part of a table stand for, and
 that moving keys around leaves it as it is.
 */
module TableMap {
  import opened Numbers
  import opened LuaValue
  import opened TableChain

  predicate InArray(k: Key, n: nat) {
    k.NumKey? && k.n.Int? && 1 <= k.n.i <= n
  }

  predicate NaNKey(k: Key) {
    k.NumKey? && k.n.Frac? && IsNaN(k.n.bits)
  }

  /** The node of a live key, or -1. */
  ghost function NodeOf<V>(nodes: seq<Node<V>>, k: Key): (r: int)
    ensures -1 <= r < |nodes| && (r >= 0 ==> nodes[r].key == Live(k))
    ensures r == -1 ==> NotLive(nodes, k)
  {
    if i: nat :| i < |nodes| && nodes[i].key == Live(k) then i else -1
  }

  ghost function HashAt<V>(nodes: seq<Node<V>>, k: Key): Option<V> {
    if NodeOf(nodes, k) >= 0 then nodes[NodeOf(nodes, k)].val else None
  }

  ghost function Lookup<V>(arr: seq<Option<V>>, nodes: seq<Node<V>>, k: Key): Option<V> {
    if InArray(k, |arr|) then arr[k.n.i - 1] else HashAt(nodes, k)
  }

  ghost function ArrayKeys<V>(arr: seq<Option<V>>): set<Key> {
    set i | 0 <= i < |arr| && arr[i].Some? :: At(i + 1)
  }

  ghost function HashKeys<V>(nodes: seq<Node<V>>): set<Key> {
    set i | 0 <= i < |nodes| && nodes[i].key.Live? && nodes[i].val.Some? :: nodes[i].key.k
  }

  ghost function MapOf<V>(arr: seq<Option<V>>, nodes: seq<Node<V>>): map<Key, V> {
    map k | k in ArrayKeys(arr) + HashKeys(nodes) && Lookup(arr, nodes, k).Some? :: Lookup(arr, nodes, k).value
  }

  lemma MapAt<V>(arr: seq<Option<V>>, nodes: seq<Node<V>>, k: Key)
    ensures k in MapOf(arr, nodes) <==> Lookup(arr, nodes, k).Some?
    ensures k in MapOf(arr, nodes) ==> MapOf(arr, nodes)[k] == Lookup(arr, nodes, k).value
  {
    if InArray(k, |arr|) && arr[k.n.i - 1].Some? {
      assert k == At(k.n.i - 1 + 1);
    }
  }

  /** No key that belongs to the array part lies in the hash part. */
  ghost predicate Apart<V>(arr: seq<Option<V>>, nodes: seq<Node<V>>) {
    forall i | 0 <= i < |nodes| && nodes[i].key.Live? :: !InArray(nodes[i].key.k, |arr|)
  }

  lemma MapKeys<V>(arr: seq<Option<V>>, nodes: seq<Node<V>>, rank: seq<real>)
    requires |rank| == |nodes| && Keyed(nodes, rank) && Apart(arr, nodes)
    ensures MapOf(arr, nodes).Keys == ArrayKeys(arr) + HashKeys(nodes)
    ensures ArrayKeys(arr) !! HashKeys(nodes)
  {
    forall k | k in HashKeys(nodes) ensures Lookup(arr, nodes, k).Some? {
      var i :| 0 <= i < |nodes| && nodes[i].key == Live(k) && nodes[i].val.Some?;
      NodeIs(nodes, rank, i);
    }
  }

  lemma NodeIs<V>(nodes: seq<Node<V>>, rank: seq<real>, i: nat)
    requires |rank| == |nodes| && Keyed(nodes, rank) && i < |nodes| && nodes[i].key.Live?
    ensures NodeOf(nodes, nodes[i].key.k) == i
  {
  }

  ghost predicate SameMap<V>(s: seq<Node<V>>, t: seq<Node<V>>) {
    forall k :: HashAt(s, k) == HashAt(t, k)
  }

  lemma SameMapOf<V>(arr: seq<Option<V>>, s: seq<Node<V>>, t: seq<Node<V>>)
    requires SameMap(s, t)
    ensures MapOf(arr, s) == MapOf(arr, t)
  {
    forall k ensures k in MapOf(arr, s) <==> k in MapOf(arr, t)
      ensures k in MapOf(arr, s) ==> MapOf(arr, s)[k] == MapOf(arr, t)[k]
    {
      assert HashAt(s, k) == HashAt(t, k);
      MapAt(arr, s, k);
      MapAt(arr, t, k);
    }
  }

  /** The live keys of two node vectors correspond, with the same values, save for
      keys that have none. */
  lemma MovedSameMap<V>(s: seq<Node<V>>, t: seq<Node<V>>, rank: seq<real>, r: seq<real>)
    requires |rank| == |s| && Keyed(s, rank) && |r| == |t| && Keyed(t, r)
    requires forall i | 0 <= i < |s| && s[i].key.Live? && s[i].val.Some? ::
               exists j :: 0 <= j < |t| && t[j].key == s[i].key && t[j].val == s[i].val
    requires forall j | 0 <= j < |t| && t[j].key.Live? && t[j].val.Some? ::
               exists i :: 0 <= i < |s| && s[i].key == t[j].key && s[i].val == t[j].val
    ensures SameMap(s, t)
  {
    forall k ensures HashAt(s, k) == HashAt(t, k) {
      if HashAt(s, k).Some? {
        var i := NodeOf(s, k);
        var j :| 0 <= j < |t| && t[j].key == s[i].key && t[j].val == s[i].val;
        NodeIs(t, r, j);
      }
      if HashAt(t, k).Some? {
        var j := NodeOf(t, k);
        var i :| 0 <= i < |s| && s[i].key == t[j].key && s[i].val == t[j].val;
        NodeIs(s, rank, i);
      }
    }
  }

  lemma HomeTakenMap<V>(nodes: seq<Node<V>>, rank: seq<real>, mp: nat, k: Key)
    requires |rank| == |nodes| && Keyed(nodes, rank) && mp < |nodes| && nodes[mp].val.None?
    requires Keyed(TakeHome(nodes, mp, k), rank)
    ensures SameMap(nodes, TakeHome(nodes, mp, k))
  {
    var t := TakeHome(nodes, mp, k);
    forall i | 0 <= i < |nodes| && i != mp ensures t[i] == nodes[i] {
    }
    MovedSameMap(nodes, t, rank, rank);
  }

  lemma FreeTakenMap<V>(nodes: seq<Node<V>>, rank: seq<real>, r: seq<real>, mp: nat, n: nat, k: Key)
    requires |rank| == |nodes| == |r| && Keyed(nodes, rank) && mp < |nodes| && n < |nodes| && n != mp && nodes[n].key.Free?
    requires Keyed(TakeFree(nodes, mp, n, k), r)
    ensures SameMap(nodes, TakeFree(nodes, mp, n, k))
  {
    var t := TakeFree(nodes, mp, n, k);
    forall i | 0 <= i < |nodes| && i != n ensures t[i].key == nodes[i].key && t[i].val == nodes[i].val {
    }
    assert t[n].val.None? && nodes[n].val.None?;
    MovedSameMap(nodes, t, rank, r);
  }

  lemma EvictedMap<V>(nodes: seq<Node<V>>, rank: seq<real>, r: seq<real>, mp: nat, p: nat, n: nat, k: Key)
    requires |rank| == |nodes| == |r| && Keyed(nodes, rank) && mp < |nodes| && n < |nodes| && nodes[n].key.Free?
    requires p < |nodes| && n != mp && p != mp
    requires Keyed(Evict(nodes, mp, p, n, k), r)
    ensures SameMap(nodes, Evict(nodes, mp, p, n, k))
  {
    var t := Evict(nodes, mp, p, n, k);
    forall i | 0 <= i < |nodes| && i != n && i != mp ensures t[i].key == nodes[i].key && t[i].val == nodes[i].val {
    }
    assert t[n].key == nodes[mp].key && t[n].val == nodes[mp].val && t[mp].val.None? && nodes[n].val.None?;
    MovedSameMap(nodes, t, rank, r);
  }

  // ---------------------------------------------------------------- assignment

  /** Assignment of a value, where nil removes. */
  function Assign<V>(m: map<Key, V>, k: Key, v: Option<V>): map<Key, V> {
    if v.Some? then m[k := v.value] else m - {k}
  }

  lemma WriteArrayMap<V>(arr: seq<Option<V>>, nodes: seq<Node<V>>, i: nat, v: Option<V>)
    requires i < |arr|
    ensures MapOf(arr[i := v], nodes) == Assign(MapOf(arr, nodes), At(i + 1), v)
  {
    var t := arr[i := v];
    forall k ensures k in MapOf(t, nodes) <==> k in Assign(MapOf(arr, nodes), At(i + 1), v)
      ensures k in MapOf(t, nodes) ==> MapOf(t, nodes)[k] == Assign(MapOf(arr, nodes), At(i + 1), v)[k]
    {
      MapAt(arr, nodes, k);
      MapAt(t, nodes, k);
    }
  }

  function SetValue<V>(nodes: seq<Node<V>>, i: nat, v: Option<V>): seq<Node<V>>
    requires i < |nodes|
  {
    nodes[i := nodes[i].(val := v)]
  }

  lemma SetValueChained<V>(hash: Hash, nodes: seq<Node<V>>, rank: seq<real>, i: nat, v: Option<V>)
    requires Chained(hash, nodes, rank) && i < |nodes| && nodes[i].key.Live?
    ensures Chained(hash, SetValue(nodes, i, v), rank)
  {
    var t := SetValue(nodes, i, v);
    SameLinksHomed(hash, nodes, t);
    hide OnChain, MainPosition, Homed;
    assert Linked(t, rank) && Keyed(t, rank);
  }

  /** Homes depend on links and keys only. */
  lemma SameLinksHomed<V>(hash: Hash, s: seq<Node<V>>, t: seq<Node<V>>)
    requires Homed(hash, s) && SameLinks(s, t)
    requires forall i | 0 <= i < |s| :: s[i].key.Free? == t[i].key.Free? && (!s[i].key.Free? ==> s[i].key.k == t[i].key.k)
    ensures Homed(hash, t)
  {
    hide OnChain, MainPosition;
    forall i | 0 <= i < |t| && !t[i].key.Free?
      ensures var m := MainPosition(hash, t[i].key.k, |t|); AtHome(hash, t, m) && OnChain(t, m, i)
    {
      OnChainSame(s, t, MainPosition(hash, s[i].key.k, |s|), i);
    }
  }

  lemma WriteNodeMap<V>(arr: seq<Option<V>>, nodes: seq<Node<V>>, rank: seq<real>, i: nat, v: Option<V>)
    requires |rank| == |nodes| && Keyed(nodes, rank) && Apart(arr, nodes) && i < |nodes| && nodes[i].key.Live?
    ensures MapOf(arr, SetValue(nodes, i, v)) == Assign(MapOf(arr, nodes), nodes[i].key.k, v)
  {
    var t := SetValue(nodes, i, v);
    assert Keyed(t, rank);
    NodeIs(nodes, rank, i);
    NodeIs(t, rank, i);
    forall k ensures k in MapOf(arr, t) <==> k in Assign(MapOf(arr, nodes), nodes[i].key.k, v)
      ensures k in MapOf(arr, t) ==> MapOf(arr, t)[k] == Assign(MapOf(arr, nodes), nodes[i].key.k, v)[k]
    {
      MapAt(arr, nodes, k);
      MapAt(arr, t, k);
      OtherNode(nodes, t, rank, i, k);
    }
  }

  lemma OtherNode<V>(nodes: seq<Node<V>>, t: seq<Node<V>>, rank: seq<real>, i: nat, k: Key)
    requires |rank| == |nodes| == |t| && Keyed(nodes, rank) && Keyed(t, rank) && i < |nodes| && nodes[i].key.Live?
    requires forall j | 0 <= j < |t| :: t[j].key == nodes[j].key && (j != i ==> t[j] == nodes[j])
    ensures k != nodes[i].key.k ==> HashAt(t, k) == HashAt(nodes, k)
  {
    if NodeOf(nodes, k) >= 0 {
      NodeIs(t, rank, NodeOf(nodes, k));
    } else if NodeOf(t, k) >= 0 {
      NodeIs(nodes, rank, NodeOf(t, k));
    }
  }

  // ---------------------------------------------------------------- empty entries

  function IsCollectable(k: Key): bool {
    k.StrKey? || k.TableKey?
  }

  /** `removeentry`, over the whole hash part. */
  function Cleared<V>(node: Node<V>): Node<V> {
    if node.val.None? && node.key.Live? && IsCollectable(node.key.k) then node.(key := Dead(node.key.k)) else node
  }

  lemma ClearedChained<V>(hash: Hash, nodes: seq<Node<V>>, rank: seq<real>, i: nat)
    requires Chained(hash, nodes, rank) && i < |nodes|
    ensures Chained(hash, nodes[i := Cleared(nodes[i])], rank)
    ensures SameMap(nodes, nodes[i := Cleared(nodes[i])])
  {
    var t := nodes[i := Cleared(nodes[i])];
    SameLinksHomed(hash, nodes, t);
    hide OnChain, MainPosition, Homed;
    assert Linked(t, rank);
    ClearedKeyed(nodes, rank, i);
    forall j | 0 <= j < |nodes| && j != i ensures t[j] == nodes[j] {
    }
    MovedSameMap(nodes, t, rank, rank);
  }

  lemma ClearedKeyed<V>(nodes: seq<Node<V>>, rank: seq<real>, i: nat)
    requires |rank| == |nodes| && Keyed(nodes, rank) && i < |nodes|
    ensures Keyed(nodes[i := Cleared(nodes[i])], rank)
  {
  }
}
