/**
 What the codec assumes of a table's entries and border is what a traversal and the
 length operator yield.
 */
module TableValue {
  import opened LuaValue
  import opened Numbers
  import opened TableSizes
  import opened TableCount
  import opened TableChain
  import opened TableMap
  import opened TableTraverse
  import opened LuaTable
  import Losses

  /** `countTableLength`: a loop over `next` counts the keys of the table. */
  method CountTableLength<V>(t: Table<V>) returns (n: nat)
    requires t.Valid()
    ensures n == |t.Contents()|
  {
    hide MapOf, EntryAt, EntriesFrom, Thinned, StandsAt, Table.Traversing, Table.Valid;
    ghost var arr, nodes := t.arr, t.nodes;
    ghost var pos: nat := 0;
    var key: Option<Key> := None;
    n := 0;
    StartTraversal(t, _ => false);
    while true
      invariant t.Traversing(arr, nodes, pos, key) && pos <= |arr| + |nodes|
      invariant n + |EntriesFrom(arr, nodes, pos)| == |EntriesFrom(arr, nodes, 0)|
      decreases |arr| + |nodes| - pos
    {
      TraversalValid(t, arr, nodes, pos, key);
      var ok, e, i, j := t.Next(key);
      NextStands(t, arr, nodes, pos, key, ok, i, j);
      SkipEmpty(arr, nodes, pos, j);
      if e.None? {
        AllCounted(t, arr, nodes, j);
        return;
      }
      NextEntry(t, arr, nodes, pos, key, j, e.value);
      n := n + 1;
      key, pos := Some(e.value.0), j + 1;
    }
  }

  lemma AllCounted<V>(t: Table<V>, arr: seq<Option<V>>, nodes: seq<Node<V>>, j: nat)
    requires t.Valid() && arr == t.arr && nodes == t.nodes && j == |arr| + |nodes|
    ensures EntriesFrom(arr, nodes, j) == [] && |EntriesFrom(arr, nodes, 0)| == |t.Contents()|
  {
    SoundParts(t.hash, arr, nodes, t.rank, t.lsizenode);
    EntriesMap(arr, nodes, t.rank);
  }

  /** A table gives distinct keys in traversal order, and its length is a border
      among them. */
  lemma TableIsLTable(t: Table<LValue>, n: nat)
    requires t.Valid() && Border(t.Contents(), n)
    ensures DistinctKeys(t.Entries()) && IsBorder(t.Entries(), n)
    ensures |t.Entries()| == |t.Contents()| && forall k :: Has(t.Entries(), k) <==> k in t.Contents()
  {
    SoundParts(t.hash, t.arr, t.nodes, t.rank, t.lsizenode);
    EntriesMap(t.arr, t.nodes, t.rank);
    hide MapOf, EntriesFrom;
    forall k ensures Has(t.Entries(), k) <==> k in t.Contents() {
      assert k in t.Contents() <==> k in KeysOf(t.Entries());
    }
    assert HasIndex(t.Contents(), n) <==> Has(t.Entries(), At(n));
    assert HasIndex(t.Contents(), n + 1) <==> Has(t.Entries(), At(n + 1));
  }

  /** With no holes in the positive integer keys, the entries of a map with the same
      keys are as many as its border exactly if the keys are 1..n. */
  lemma CountIsBorder(es: seq<(Key, LValue)>, m: map<Key, LValue>, n: nat, h: nat)
    requires DistinctKeys(es) && IsBorder(es, n)
    requires forall k :: Has(es, k) <==> k in m
    requires forall i: int | i > 0 :: HasIndex(m, i) <==> i <= h
    ensures n == h
    ensures |es| == n <==> m.Keys == Losses.Indices(n)
  {
    forall i: int | i > 0 ensures Has(es, At(i)) <==> i <= h {
      assert HasIndex(m, i) <==> i <= h;
    }
    Losses.ArrayDetection(es, n, h);
    assert Losses.KeySet(es, |es|) == m.Keys by {
      forall k ensures k in Losses.KeySet(es, |es|) <==> k in m { assert Has(es, k) <==> k in m; }
    }
  }

  /** With no holes in the positive integer keys, the count that the writer takes
      equals the length exactly if the keys are 1..n. */
  lemma CountIsLength(t: Table<LValue>, n: nat, h: nat)
    requires t.Valid() && Border(t.Contents(), n)
    requires forall i: int | i > 0 :: HasIndex(t.Contents(), i) <==> i <= h
    ensures n == h
    ensures |t.Entries()| == n <==> t.Contents().Keys == Losses.Indices(n)
  {
    TableIsLTable(t, n);
    CountIsBorder(t.Entries(), t.Contents(), n, h);
  }

  // ---------------------------------------------------------------- the sizes that a rehash finds

  /** A power of two that is more than half filled, when there are no more keys than
      that, is the best size. */
  lemma BestSize(keys: set<int>, e: nat)
    requires MoreThanHalf(keys, Pow2(e)) && |keys| <= Pow2(e)
    ensures Optimal(keys, Pow2(e))
  {
    forall d: nat | MoreThanHalf(keys, Pow2(d)) ensures Pow2(d) <= Pow2(e) {
      SubsetSize(UpTo(keys, Pow2(d)), keys);
      if d > e {
        PowMonotone(e, d);
      } else {
        PowMonotone(d, e);
      }
    }
  }

  /** The keys 1, 2, 4 and 8. */
  lemma Powers(keys: set<Key>, ints: set<int>, e: nat)
    requires ints == IntKeys(keys) && forall k | k in ints :: 1 <= k <= 8
    requires |UpTo(ints, Pow2(e))| > Pow2(e) / 2 && |ints| <= Pow2(e)
    ensures forall n: nat | Optimal(IntKeys(keys), n) :: n == Pow2(e)
  {
    BestSize(ints, e);
    forall n: nat | Optimal(ints, n) ensures n == Pow2(e) {
      OptimalUnique(ints, n, Pow2(e));
    }
  }

  lemma FirstPowers()
    ensures Pow2(0) == 1 && Pow2(1) == 2 && Pow2(2) == 4
    ensures forall n: nat | Optimal(IntKeys({At(1)}), n) :: n == 1
    ensures forall n: nat | Optimal(IntKeys({At(1), At(2)}), n) :: n == 2
    ensures forall n: nat | Optimal(IntKeys({At(1), At(2), At(4)}), n) :: n == 4
    ensures forall n: nat | Optimal(IntKeys({At(1), At(2), At(4), At(8)}), n) :: n == 4
  {
    assert Pow2(0) == 1 && Pow2(1) == 2 && Pow2(2) == 4;
    hide Optimal, Pow2;
    Four({At(1)}, {1});
    Four({At(1), At(2)}, {1, 2});
    Four({At(1), At(2), At(4)}, {1, 2, 4});
    Four({At(1), At(2), At(4), At(8)}, {1, 2, 4, 8});
    assert UpTo({1}, 1) == {1} && UpTo({1, 2}, 2) == {1, 2};
    assert UpTo({1, 2, 4}, 4) == {1, 2, 4} && UpTo({1, 2, 4, 8}, 4) == {1, 2, 4};
    Powers({At(1)}, {1}, 0);
    Powers({At(1), At(2)}, {1, 2}, 1);
    Powers({At(1), At(2), At(4)}, {1, 2, 4}, 2);
    Powers({At(1), At(2), At(4), At(8)}, {1, 2, 4, 8}, 2);
  }

  lemma Four(keys: set<Key>, ints: set<int>)
    requires ints <= {1, 2, 4, 8} && forall k :: k in keys <==> k.NumKey? && k.n.Int? && k.n.i in ints
    ensures IntKeys(keys) == ints
  {
    forall i ensures i in IntKeys(keys) <==> i in ints {
      assert i in ints ==> At(i) in keys && InArray(At(i), MAXASIZE);
    }
  }

  /** A key that is new to a table without hash part forces a rehash. */
  method Grow<V>(t: Table<V>, i: nat, v: V, ghost keys: set<Key>)
    requires t.Valid() && t.dummy && |t.arr| < i <= 8 && t.Contents().Keys == keys && |keys| < 4
    modifies t
    ensures t.Valid() && t.Contents().Keys == keys + {At(i)}
    ensures BestSizes(keys + {At(i)}, |t.arr|, |t.nodes|, t.dummy)
  {
    hide Table.Valid, MapOf, Table.Fits, BestSizes;
    ghost var asize := |t.arr|;
    var error := t.RawSet(Some(At(i)), Some(v));
    if error != "" {
      FewKeys(keys + {At(i)});
    }
    IndexIn(t, i);
  }

  lemma FewKeys(keys: set<Key>)
    requires |keys| <= MAXASIZE
    ensures !TooMany(keys)
  {
    forall n: nat ensures !TooManyFor(keys, n) {
      SubsetSize(Outside(keys, n), keys);
    }
  }

  /** Of the keys 1, 2, 4 and 8, in this order, the first three are in the array part,
      and the length is 4, not 8. */
  method PowersOfTwo<V>(hash: Hash, v: V) returns (t: Table<V>, n: nat)
    ensures t.Contents().Keys == {At(1), At(2), At(4), At(8)}
    ensures |t.arr| == 4 && n == 4
  {
    hide Table.Valid, MapOf, Optimal, IntKeys, Border, Table.Contents;
    t := new Table(hash, 0, 0);
    FirstPowers();
    Grow(t, 1, v, {});
    OutsideNone({At(1)}, 1);
    Grow(t, 2, v, {At(1)});
    assert {At(1)} + {At(2)} == {At(1), At(2)};
    OutsideNone({At(1), At(2)}, 2);
    Grow(t, 4, v, {At(1), At(2)});
    assert {At(1), At(2)} + {At(4)} == {At(1), At(2), At(4)};
    OutsideNone({At(1), At(2), At(4)}, 4);
    Grow(t, 8, v, {At(1), At(2), At(4)});
    assert {At(1), At(2), At(4)} + {At(8)} == {At(1), At(2), At(4), At(8)};
    n := t.GetN();
    IndexIn(t, 4);
    IndexIn(t, 5);
  }

  lemma OutsideNone(keys: set<Key>, n: nat)
    requires forall k | k in keys :: InArray(k, n)
    ensures Outside(keys, n) == {}
  {
  }
}
