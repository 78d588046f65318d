/**
 How much the tables hold that the serializer makes for itself: the table of string
 indices, the list of keys, and a table made for as many pairs as a size field claims.
 */
module TableLimits {
  import opened Numbers
  import opened Bytes
  import opened LuaValue
  import opened TableSizes
  import opened TableChain
  import opened TableCount
  import opened TableMap
  import opened TableState
  import opened LuaTable
  import opened Format
  import Losses

  // ---------------------------------------------------------------- string keys

  lemma StringsTooMany(keys: set<Key>)
    requires TooMany(keys) && forall k | k in keys :: k.StrKey?
    ensures |keys| > MAXASIZE
  {
    var n: nat :| TooManyFor(keys, n);
    assert IntKeys(keys) == {};
    assert UpTo(IntKeys(keys), n) == {};
    assert Outside(keys, n) == keys;
  }

  /** A table of strings has them all in its hash part. */
  lemma StringsFull<V>(t: Table<V>)
    requires t.Valid() && forall k | k in t.Contents() :: k.StrKey?
    ensures |t.Contents()| <= MAXASIZE
  {
    HashFits(t, |t.arr|);
    assert Outside(t.Contents().Keys, |t.arr|) == t.Contents().Keys;
  }

  ghost function StringKeys(pool: Pool): set<Key> { set s | s in pool :: StrKey(s) }

  lemma StringKeysMore(pool: Pool, s: seq<byte>)
    requires s !in pool
    ensures StringKeys(pool + [s]) == StringKeys(pool) + {StrKey(s)} && StrKey(s) !in StringKeys(pool)
    ensures |StringKeys(pool + [s])| == |StringKeys(pool)| + 1
  {
    assert StringKeys(pool + [s]) == StringKeys(pool) + {StrKey(s)};
  }

  /** One more string. */
  method AddString(t: Table<nat>, s: seq<byte>, i: nat, ghost keys: set<Key>) returns (ok: bool)
    requires t.Valid() && t.Contents().Keys == keys && StrKey(s) !in keys && forall k | k in keys :: k.StrKey?
    modifies t
    ensures ok <==> |keys| < MAXNODES
    ensures ok ==> t.Valid() && t.Contents().Keys == keys + {StrKey(s)}
  {
    hide Table.Valid, MapOf, TooMany, Table.Fits, Table.Resized;
    var error := t.RawSet(Some(StrKey(s)), Some(i));
    if error != "" {
      StringsTooMany(keys + {StrKey(s)});
      return false;
    }
    assert t.Contents().Keys == keys + {StrKey(s)};
    StringsFull(t);
    return true;
  }

  /** The table of string indices takes as many strings as a hash part has nodes, and
      overflows at the next one. */
  method IndexStrings(hash: Hash, pool: Pool) returns (n: nat, t: Table<nat>)
    requires UniquePool(pool)
    ensures n == if |pool| <= MAXNODES then |pool| else MAXNODES
  {
    hide *;
    t := new Table(hash, 0, 0);
    n := 0;
    NoStrings(pool);
    ghost var keys: set<Key> := {};
    while n < |pool|
      invariant n <= |pool| && n <= MAXNODES && t.Valid() && fresh(t)
      invariant t.Contents().Keys == keys == StringKeys(pool[..n]) && |keys| == n
    {
      StringKeysNext(pool, n);
      var ok := AddString(t, pool[n], n + 1, keys);
      if !ok {
        return;
      }
      keys := keys + {StrKey(pool[n])};
      n := n + 1;
    }
  }

  lemma StringKeysNext(pool: Pool, n: nat)
    requires n < |pool| && UniquePool(pool)
    ensures StringKeys(pool[..n + 1]) == StringKeys(pool[..n]) + {StrKey(pool[n])} && StrKey(pool[n]) !in StringKeys(pool[..n])
    ensures |StringKeys(pool[..n + 1])| == |StringKeys(pool[..n])| + 1
    ensures forall k | k in StringKeys(pool[..n]) :: k.StrKey?
  {
    assert pool[..n + 1] == pool[..n] + [pool[n]];
    StringKeysMore(pool[..n], pool[n]);
    OnlyStrings(pool[..n]);
  }

  lemma NoStrings(pool: Pool)
    ensures StringKeys(pool[..0]) == {}
  {
  }

  lemma OnlyStrings(pool: Pool)
    ensures forall k | k in StringKeys(pool) :: k.StrKey?
  {
  }

  // ---------------------------------------------------------------- lists

  function Range(n: nat): set<int> {
    if n == 0 then {} else Range(n - 1) + {n}
  }

  lemma {:induction false} RangeIs(n: nat)
    ensures |Range(n)| == n && forall i :: i in Range(n) <==> 1 <= i <= n
  {
    if n > 0 {
      RangeIs(n - 1);
    }
  }

  /** The best array part for the keys 1..m has as many elements as it may, and leaves
      the rest to the hash part. */
  lemma ListFits(m: nat)
    requires m <= MAXLIST
    ensures !TooMany(Losses.Indices(m))
  {
    var keys := Losses.Indices(m);
    Losses.IndicesSize(m);
    forall n: nat ensures !TooManyFor(keys, n) {
      if TooManyFor(keys, n) {
        OutsideCount(keys, n);
        if m > MAXASIZE {
          LongList(m, n);
        }
      }
    }
  }

  lemma LongList(m: nat, n: nat)
    requires m > MAXASIZE >= n && Optimal(IntKeys(Losses.Indices(m)), n)
    ensures |UpTo(IntKeys(Losses.Indices(m)), n)| == MAXASIZE
  {
    hide Range, Pow2, IntKeys, UpTo;
    ListInts(m);
    MaxSize();
    assert MoreThanHalf(IntKeys(Losses.Indices(m)), Pow2(MAXBITS));
  }

  /** All of 1..2^26 are keys. */
  lemma ListInts(m: nat)
    requires m > MAXASIZE
    ensures |UpTo(IntKeys(Losses.Indices(m)), MAXASIZE)| == MAXASIZE
  {
    hide Range;
    RangeIs(MAXASIZE);
    var keys := IntKeys(Losses.Indices(m));
    forall i ensures i in keys <==> i in Range(MAXASIZE) {
      if i in Range(MAXASIZE) {
        assert At(i) in Losses.Indices(m);
      }
    }
    assert UpTo(keys, MAXASIZE) == Range(MAXASIZE);
  }

  lemma NoIndices()
    ensures Losses.Indices(0) == {}
  {
  }

  lemma MoreIndices(n: nat)
    ensures Losses.Indices(n + 1) == Losses.Indices(n) + {At(n + 1)}
  {
  }

  lemma ListFull<V>(t: Table<V>, n: nat)
    requires t.Valid() && t.Contents().Keys == Losses.Indices(n)
    ensures n <= MAXLIST
  {
    SlotBounds(t);
    HashFits(t, |t.arr|);
    Losses.IndicesSize(n);
    assert |t.Contents()| == |t.Contents().Keys|;
  }

  /** One more element of a list. */
  method AddElement<V>(t: Table<V>, n: nat, v: V) returns (ok: bool)
    requires t.Valid() && t.Contents().Keys == Losses.Indices(n)
    modifies t
    ensures ok <==> n < MAXLIST
    ensures ok ==> t.Valid() && t.Contents().Keys == Losses.Indices(n + 1)
  {
    hide Table.Valid, MapOf, TooMany, Losses.Indices, Table.Fits, Table.Resized;
    MoreIndices(n);
    var error := t.RawSet(Some(At(n + 1)), Some(v));
    if error != "" {
      if n < MAXLIST {
        ListFits(n + 1);
      }
      return false;
    }
    assert t.Contents().Keys == Losses.Indices(n) + {At(n + 1)};
    ListFull(t, n + 1);
    return true;
  }

  /** A list that grows one by one takes 2^26 elements in its array part and as many in
      its hash part, and overflows at the next one. */
  method MakeList<V>(hash: Hash, s: seq<V>) returns (n: nat, t: Table<V>)
    ensures n == if |s| <= MAXLIST then |s| else MAXLIST
  {
    hide Table.Valid, MapOf, Losses.Indices, Table.Contents, NodesFor, Used;
    t := new Table(hash, 0, 0);
    n := 0;
    NoIndices();
    while n < |s|
      invariant n <= |s| && n <= MAXLIST && t.Valid() && t.Contents().Keys == Losses.Indices(n) && fresh(t)
    {
      var ok := AddElement(t, n, s[n]);
      if !ok {
        return;
      }
      n := n + 1;
    }
  }

  // ---------------------------------------------------------------- presized tables

  /** Assignments to a table that was made for as many of them never overflow. */
  method FillPresized<V>(hash: Hash, size: nat, ops: seq<Op<V>>) returns (t: Table<V>)
    requires |ops| <= size <= MAXNODES && forall i | 0 <= i < |ops| :: ops[i].Store? && Plain(ops[i])
    ensures t.Valid() && t.Contents() == Replay(map[], ops, |ops|)
  {
    hide Table.Valid, MapOf, Used, Table.Resized;
    t := new Table(hash, 0, size);
    for n := 0 to |ops|
      invariant t.Valid() && fresh(t) && t.Contents() == Replay(map[], ops, n)
      invariant |t.nodes| >= size && |Used(t.nodes)| <= n && t.dummy == (size == 0)
    {
      assert Plain(ops[n]);
      var error := t.RawSet(ops[n].k, ops[n].v);
    }
  }
}
