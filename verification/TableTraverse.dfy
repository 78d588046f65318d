/**
 The order of a traversal, and the border of a table, on the two parts.
 */
module TableTraverse {
  import opened Numbers
  import opened LuaValue
  import opened TableChain
  import opened TableSizes
  import opened TableMap

  /** The entry at a traversal index: the array part comes first. */
  ghost function EntryAt<V>(arr: seq<Option<V>>, nodes: seq<Node<V>>, i: int): seq<(Key, V)> {
    if 0 <= i < |arr| then
      if arr[i].Some? then [(At(i + 1), arr[i].value)] else []
    else if |arr| <= i < |arr| + |nodes| && nodes[i - |arr|].key.Live? && nodes[i - |arr|].val.Some? then
      [(nodes[i - |arr|].key.k, nodes[i - |arr|].val.value)]
    else []
  }

  ghost function EntriesFrom<V>(arr: seq<Option<V>>, nodes: seq<Node<V>>, i: nat): seq<(Key, V)>
    decreases |arr| + |nodes| - i
  {
    if i >= |arr| + |nodes| then [] else EntryAt(arr, nodes, i) + EntriesFrom(arr, nodes, i + 1)
  }

  /** The traversal index of an entry. */
  ghost predicate StandsAt<V>(arr: seq<Option<V>>, nodes: seq<Node<V>>, i: int, k: Key) {
    if InArray(k, |arr|) then i == k.n.i - 1
    else |arr| <= i < |arr| + |nodes| && nodes[i - |arr|].key == Live(k)
  }

  ghost predicate DistinctEntries<V>(es: seq<(Key, V)>) {
    forall a, b | 0 <= a < b < |es| :: es[a].0 != es[b].0
  }

  /** The entry belongs to the map and stands at index `i` or later. */
  ghost predicate Belongs<V>(arr: seq<Option<V>>, nodes: seq<Node<V>>, e: (Key, V), i: int) {
    && e.0 in MapOf(arr, nodes) && MapOf(arr, nodes)[e.0] == e.1
    && exists p :: i <= p && StandsAt(arr, nodes, p, e.0)
  }

  lemma {:induction false} EntriesAre<V>(arr: seq<Option<V>>, nodes: seq<Node<V>>, rank: seq<real>, i: nat)
    requires |rank| == |nodes| && Keyed(nodes, rank) && Apart(arr, nodes)
    ensures forall e | e in EntriesFrom(arr, nodes, i) :: Belongs(arr, nodes, e, i)
    ensures DistinctEntries(EntriesFrom(arr, nodes, i))
    decreases |arr| + |nodes| - i
  {
    if i < |arr| + |nodes| {
      EntriesAre(arr, nodes, rank, i + 1);
      EntryIs(arr, nodes, rank, i);
      hide MapOf, Keyed, Apart, EntryAt;
      var rest, e := EntriesFrom(arr, nodes, i + 1), EntryAt(arr, nodes, i);
      assert EntriesFrom(arr, nodes, i) == e + rest;
      forall x | x in rest ensures Belongs(arr, nodes, x, i) && (|e| > 0 ==> x.0 != e[0].0) {
        var p :| i + 1 <= p && StandsAt(arr, nodes, p, x.0);
        if |e| > 0 && x.0 == e[0].0 {
          OnePlace(arr, nodes, rank, x.0, i, p);
        }
      }
    }
  }

  lemma EntryIs<V>(arr: seq<Option<V>>, nodes: seq<Node<V>>, rank: seq<real>, i: nat)
    requires |rank| == |nodes| && Keyed(nodes, rank) && Apart(arr, nodes) && i < |arr| + |nodes|
    ensures var e := EntryAt(arr, nodes, i);
            |e| <= 1 && (|e| == 1 ==>
              Belongs(arr, nodes, e[0], i) && StandsAt(arr, nodes, i, e[0].0))
  {
    var e := EntryAt(arr, nodes, i);
    if |e| == 1 {
      MapAt(arr, nodes, e[0].0);
      if i >= |arr| {
        NodeIs(nodes, rank, i - |arr|);
      }
      assert StandsAt(arr, nodes, i, e[0].0);
    }
  }

  lemma OnePlace<V>(arr: seq<Option<V>>, nodes: seq<Node<V>>, rank: seq<real>, k: Key, i: int, p: int)
    requires |rank| == |nodes| && Keyed(nodes, rank)
    requires StandsAt(arr, nodes, i, k) && StandsAt(arr, nodes, p, k)
    ensures i == p
  {
  }

  /** Every entry of the map is met. */
  lemma {:induction false} EntriesMeet<V>(arr: seq<Option<V>>, nodes: seq<Node<V>>, i: nat, p: nat, k: Key)
    requires i <= p && StandsAt(arr, nodes, p, k) && |EntryAt(arr, nodes, p)| == 1
    ensures exists j :: 0 <= j < |EntriesFrom(arr, nodes, i)| && EntriesFrom(arr, nodes, i)[j].0 == k
    decreases p - i
  {
    var es := EntriesFrom(arr, nodes, i);
    if i == p {
      AtPlace(arr, nodes, p, k);
      assert es[0].0 == k;
    } else {
      EntriesMeet(arr, nodes, i + 1, p, k);
      var rest := EntriesFrom(arr, nodes, i + 1);
      var j :| 0 <= j < |rest| && rest[j].0 == k;
      assert es[|EntryAt(arr, nodes, i)| + j] == rest[j];
    }
  }

  lemma AtPlace<V>(arr: seq<Option<V>>, nodes: seq<Node<V>>, p: nat, k: Key)
    requires StandsAt(arr, nodes, p, k) && |EntryAt(arr, nodes, p)| == 1
    ensures EntryAt(arr, nodes, p)[0].0 == k && p < |arr| + |nodes|
  {
    if InArray(k, |arr|) {
      assert k == NumKey(k.n) && k.n == Int(k.n.i);
    }
  }

  ghost function KeysOf<V>(es: seq<(Key, V)>): set<Key> {
    set j | 0 <= j < |es| :: es[j].0
  }

  /** A traversal meets each key of the map once, with its value. */
  lemma EntriesMap<V>(arr: seq<Option<V>>, nodes: seq<Node<V>>, rank: seq<real>)
    requires |rank| == |nodes| && Keyed(nodes, rank) && Apart(arr, nodes)
    ensures var es := EntriesFrom(arr, nodes, 0);
            && DistinctEntries(es) && KeysOf(es) == MapOf(arr, nodes).Keys
            && (forall e | e in es :: e.0 in MapOf(arr, nodes) && MapOf(arr, nodes)[e.0] == e.1)
            && |es| == |MapOf(arr, nodes)|
  {
    var es, m := EntriesFrom(arr, nodes, 0), MapOf(arr, nodes);
    EntriesAre(arr, nodes, rank, 0);
    forall k | k in m ensures k in KeysOf(es) {
      MapAt(arr, nodes, k);
      var p := if InArray(k, |arr|) then k.n.i - 1 else |arr| + NodeOf(nodes, k);
      EntriesMeet(arr, nodes, 0, p, k);
    }
    hide MapOf, EntriesFrom, Keyed, Apart;
    forall k | k in KeysOf(es) ensures k in m {
      var j :| 0 <= j < |es| && es[j].0 == k;
      assert es[j] in es;
    }
    assert KeysOf(es) == m.Keys;
    KeysSize(es);
  }

  lemma {:induction false} KeysSize<V>(es: seq<(Key, V)>)
    requires DistinctEntries(es)
    ensures |KeysOf(es)| == |es|
  {
    if es != [] {
      var n := |es| - 1;
      KeysSize(es[..n]);
      assert KeysOf(es) == KeysOf(es[..n]) + {es[n].0};
    }
  }

  // ---------------------------------------------------------------- while entries are cleared

  /** Values may have gone, and keys died with them; nothing else changed. */
  ghost predicate Thinned<V>(s: seq<Node<V>>, t: seq<Node<V>>) {
    && |s| == |t|
    && forall i | 0 <= i < |s| ::
         && s[i].next == t[i].next && s[i].key.Free? == t[i].key.Free? && (!s[i].key.Free? ==> s[i].key.k == t[i].key.k)
         && (t[i].key.Live? ==> s[i].key.Live?)
         && (s[i].key.Live? && t[i].key.Dead? ==> IsCollectable(s[i].key.k))
         && (t[i].val == s[i].val || t[i].val.None?) && (t[i].val.Some? ==> t[i].key == s[i].key)
  }

  predicate Matches<V>(node: Node<V>, k: Key) {
    node.key == Live(k) || (node.key == Dead(k) && IsCollectable(k))
  }

  /** The key that was live at `n` is still found there, even if it died since and an
      older dead key is the same pointer. */
  lemma StillFound<V>(s: seq<Node<V>>, t: seq<Node<V>>, rank: seq<real>, n: nat, m: nat, k: Key)
    requires |rank| == |s| == |t| && Keyed(s, rank) && Thinned(s, t)
    requires n < |s| && s[n].key == Live(k) && m < |t| && Matches(t[m], k)
    requires rank[m] <= rank[n]
    ensures m == n
  {
  }

  lemma ThinnedMore<V>(s: seq<Node<V>>, t: seq<Node<V>>, i: nat)
    requires Thinned(s, t) && i < |t|
    ensures t[i].key.Live? ==> Thinned(s, SetValue(t, i, None))
    ensures Thinned(s, t[i := Cleared(t[i])])
  {
  }

  /** From index `from` on, the entries are the same. */
  ghost predicate SameEntries<V>(arr0: seq<Option<V>>, s: seq<Node<V>>, arr: seq<Option<V>>, t: seq<Node<V>>, from: int) {
    |arr| == |arr0| && |s| == |t| && forall i | from <= i :: EntryAt(arr, t, i) == EntryAt(arr0, s, i)
  }

  lemma {:induction false} SkipEmpty<V>(arr: seq<Option<V>>, nodes: seq<Node<V>>, i: nat, j: nat)
    requires i <= j <= |arr| + |nodes| && forall p | i <= p < j :: EntryAt(arr, nodes, p) == []
    ensures EntriesFrom(arr, nodes, i) == EntriesFrom(arr, nodes, j)
    ensures j < |arr| + |nodes| ==> EntriesFrom(arr, nodes, j) == EntryAt(arr, nodes, j) + EntriesFrom(arr, nodes, j + 1)
    decreases j - i
  {
    if i < j {
      SkipEmpty(arr, nodes, i + 1, j);
    }
  }

  // ---------------------------------------------------------------- borders

  ghost predicate HasIndex<V>(m: map<Key, V>, i: int) { At(i) in m }

  /** `t[n]` is present or `n` is 0, and `t[n + 1]` is absent. */
  ghost predicate Border<V>(m: map<Key, V>, n: nat) {
    (n == 0 || HasIndex(m, n)) && !HasIndex(m, n + 1)
  }

  ghost function FirstIndices(n: nat): set<Key> {
    set i | 1 <= i <= n :: At(i)
  }

  lemma {:induction false} FirstIndicesSize(n: nat)
    ensures |FirstIndices(n)| == n
  {
    if n > 0 {
      FirstIndicesSize(n - 1);
      assert FirstIndices(n) == FirstIndices(n - 1) + {At(n)};
    }
  }

  /** A linear search ends: there are as many keys as indices passed. */
  lemma PassedIndices<V>(m: map<Key, V>, n: nat)
    requires forall i | 1 <= i <= n :: HasIndex(m, i)
    ensures n <= |m|
  {
    FirstIndicesSize(n);
    forall k | k in FirstIndices(n) ensures k in m {
      var i :| 1 <= i <= n && k == At(i);
      assert HasIndex(m, i);
    }
    SubsetSize(FirstIndices(n), m.Keys);
  }

  /** No table has more keys than slots. */
  lemma MapSize<V>(arr: seq<Option<V>>, nodes: seq<Node<V>>, rank: seq<real>)
    requires |rank| == |nodes| && Keyed(nodes, rank) && Apart(arr, nodes) && |arr| <= MAXASIZE
    ensures |MapOf(arr, nodes)| <= |arr| + |nodes|
  {
    EntriesMap(arr, nodes, rank);
    EntriesSize(arr, nodes, 0);
  }

  lemma {:induction false} EntriesSize<V>(arr: seq<Option<V>>, nodes: seq<Node<V>>, i: nat)
    requires i <= |arr| + |nodes|
    ensures |EntriesFrom(arr, nodes, i)| <= |arr| + |nodes| - i
    decreases |arr| + |nodes| - i
  {
    if i < |arr| + |nodes| {
      EntriesSize(arr, nodes, i + 1);
    }
  }
}
