/**
 Which values can be written: the writer keeps a table of all strings and a list of
 the keys of each table in table form, and these must not overflow.
 */
module Storable {
  import opened Bytes
  import opened Numbers
  import opened LuaValue
  import opened KeyOrder
  import opened Losses
  import opened Format
  import opened RoundTrip
  import TableSizes

  // ---------------------------------------------------------------- what is written

  function StringsKey(k: Key): set<seq<byte>> {
    if k.StrKey? && k.s != [] then {k.s} else {}
  }

  /** The strings of a value that are written, but for the empty one. */
  function Strings(v: LValue): set<seq<byte>>
    decreases v
  {
    match v
    case LStr(s) => StringsKey(StrKey(s))
    case LTable(entries, border) =>
      if TakenForArray(entries, border) then StringsArray(v, 1, border) else StringsMap(v, |entries|)
    case _ => {}
  }

  function StringsAt(t: LValue, k: Key): set<seq<byte>>
    requires t.LTable?
    decreases t, 0
  {
    var i := Find(t.entries, k);
    if i >= 0 then Strings(t.entries[i].1) else {}
  }

  function StringsArray(t: LValue, i: nat, n: nat): set<seq<byte>>
    requires t.LTable?
    decreases t, 1, if i <= n then n + 1 - i else 0
  {
    if i > n then {} else StringsAt(t, At(i)) + StringsArray(t, i + 1, n)
  }

  function StringsMap(t: LValue, n: nat): set<seq<byte>>
    requires t.LTable? && n <= |t.entries|
    decreases t, 1, n
  {
    if n == 0 then {}
    else StringsMap(t, n - 1) + StringsKey(t.entries[n - 1].0) + Strings(t.entries[n - 1].1)
  }

  /** No table that is written in table form, at any level that is written, has more
      keys than a list can hold. */
  predicate Listable(v: LValue)
    decreases v
  {
    v.LTable? ==>
      if TakenForArray(v.entries, v.border) then ListableFrom(v, 1, v.border)
      else |v.entries| <= MAXLIST && forall i | 0 <= i < |v.entries| :: Listable(v.entries[i].1)
  }

  predicate ListableAt(t: LValue, k: Key)
    requires t.LTable?
    decreases t, 0
  {
    var i := Find(t.entries, k);
    i >= 0 ==> Listable(t.entries[i].1)
  }

  predicate ListableFrom(t: LValue, i: nat, n: nat)
    requires t.LTable?
    decreases t, 1
  {
    forall j | i <= j <= n :: ListableAt(t, At(j))
  }

  // ---------------------------------------------------------------- pools

  function PoolSet(pool: Pool): set<seq<byte>> { set s | s in pool }

  lemma {:induction false} UniqueSize(pool: Pool)
    requires UniquePool(pool)
    ensures |PoolSet(pool)| == |pool|
  {
    if pool != [] {
      var n := |pool| - 1;
      UniqueSize(pool[..n]);
      assert pool == pool[..n] + [pool[n]];
      assert PoolSet(pool) == PoolSet(pool[..n]) + {pool[n]};
    }
  }

  /** An encoding that started from a pool: the strings are added to it, or they are
      too many, or a list of keys is too long. */
  ghost predicate Pooled(e: Encoded, pool: Pool, strings: set<seq<byte>>, listable: bool) {
    if e.Encoded? then
      && UniquePool(e.pool) && |e.pool| <= MAXNODES && PoolSet(e.pool) == PoolSet(pool) + strings && listable
    else
      e.Overflow? && (!listable || |PoolSet(pool) + strings| > MAXNODES)
  }

  lemma StringPooled(s: seq<byte>, pool: Pool)
    requires UniquePool(pool) && |pool| <= MAXNODES
    ensures Pooled(EncodeStored(s, pool), pool, StringsKey(StrKey(s)), true)
  {
    if s != [] {
      if PoolIndex(pool, s) == 0 {
        UniqueSize(pool);
        assert |PoolSet(pool) + {s}| == |pool| + 1;
        assert PoolSet(pool + [s]) == PoolSet(pool) + {s};
      } else {
        assert PoolSet(pool) == PoolSet(pool) + {s};
      }
    } else {
      assert PoolSet(pool) == PoolSet(pool) + {};
    }
  }

  /** One encoding after another. */
  lemma ThenPooled(a: Encoded, b: Encoded, pool: Pool, x: set<seq<byte>>, y: set<seq<byte>>, p: bool, q: bool)
    requires Pooled(a, pool, x, p) && (a.Encoded? ==> Pooled(b, a.pool, y, q))
    ensures Pooled(if a.Encoded? then Then(a, b) else a, pool, x + y, p && q)
  {
    assert PoolSet(pool) + x + y == PoolSet(pool) + (x + y);
    TableSizes.SubsetSize(PoolSet(pool) + x, PoolSet(pool) + (x + y));
  }

  // ---------------------------------------------------------------- values

  lemma {:induction false} ValuePooled(v: LValue, pool: Pool)
    requires Valid(v) && Supported(v) && UniquePool(pool) && |pool| <= MAXNODES
    ensures Pooled(EncodeValue(v, pool), pool, Strings(v), Listable(v))
    decreases v
  {
    assert PoolSet(pool) + {} == PoolSet(pool);
    match v
    case LStr(s) => StringPooled(s, pool);
    case LTable(entries, border) =>
      if |entries| == 0 {
      } else if |entries| == border {
        ArrayPooled(v, 1, border, pool);
      } else if |entries| <= MAXLIST {
        PairsTable(v, pool);
      }
    case _ =>
  }

  lemma {:induction false} AtPooled(t: LValue, k: Key, pool: Pool)
    requires t.LTable? && Valid(t) && Supported(t) && UniquePool(pool) && |pool| <= MAXNODES
    ensures Pooled(EncodeAt(t, k, pool), pool, StringsAt(t, k), ListableAt(t, k))
    decreases t, 0, 0
  {
    assert PoolSet(pool) + {} == PoolSet(pool);
    var i := Find(t.entries, k);
    if i >= 0 {
      ValuePooled(t.entries[i].1, pool);
    }
  }

  lemma {:induction false} ArrayPooled(t: LValue, i: nat, n: nat, pool: Pool)
    requires t.LTable? && Valid(t) && Supported(t) && UniquePool(pool) && |pool| <= MAXNODES
    ensures Pooled(EncodeArray(t, i, n, pool), pool, StringsArray(t, i, n), ListableFrom(t, i, n))
    decreases t, 1, if i <= n then n + 1 - i else 0
  {
    hide Valid, Supported, EncodeAt, StringsAt, ListableAt, Pooled;
    if i <= n {
      AtPooled(t, At(i), pool);
      var first := EncodeAt(t, At(i), pool);
      if first.Encoded? {
        StillPool(first, pool, StringsAt(t, At(i)), ListableAt(t, At(i)));
        ArrayPooled(t, i + 1, n, first.pool);
      }
      var rest := if first.Encoded? then EncodeArray(t, i + 1, n, first.pool) else first;
      assert ListableFrom(t, i, n) <==> ListableAt(t, At(i)) && ListableFrom(t, i + 1, n);
      ThenPooled(first, rest, pool, StringsAt(t, At(i)), StringsArray(t, i + 1, n), ListableAt(t, At(i)), ListableFrom(t, i + 1, n));
    } else {
      NothingPooled(pool);
    }
  }

  lemma StillPool(e: Encoded, pool: Pool, strings: set<seq<byte>>, listable: bool)
    requires Pooled(e, pool, strings, listable) && e.Encoded?
    ensures UniquePool(e.pool) && |e.pool| <= MAXNODES
  {
  }

  lemma NothingPooled(pool: Pool)
    requires UniquePool(pool) && |pool| <= MAXNODES
    ensures Pooled(Encoded([], pool), pool, {}, true)
  {
    assert PoolSet(pool) + {} == PoolSet(pool);
  }

  // ---------------------------------------------------------------- pairs

  function StringsOf(t: LValue, keys: seq<Key>): set<seq<byte>>
    requires t.LTable?
  {
    if keys == [] then {} else StringsKey(keys[0]) + StringsAt(t, keys[0]) + StringsOf(t, keys[1..])
  }

  predicate ListableKeys(t: LValue, keys: seq<Key>)
    requires t.LTable?
  {
    forall k | k in keys :: ListableAt(t, k)
  }

  lemma KeyPooled(k: Key, pool: Pool)
    requires PlainKey(k) && UniquePool(pool) && |pool| <= MAXNODES
    ensures Pooled(EncodeKey(k, pool), pool, StringsKey(k), true)
  {
    if k.StrKey? {
      StringPooled(k.s, pool);
    } else {
      assert PoolSet(pool) + {} == PoolSet(pool);
    }
  }

  lemma {:induction false} PairPooled(t: LValue, k: Key, pool: Pool)
    requires t.LTable? && Valid(t) && Supported(t) && PlainKey(k) && UniquePool(pool) && |pool| <= MAXNODES
    ensures Pooled(EncodePair(t, k, pool), pool, StringsKey(k) + StringsAt(t, k), ListableAt(t, k))
    decreases t, 0, 1
  {
    hide Valid, Supported, EncodeAt, StringsAt, ListableAt, Pooled, EncodeKey, StringsKey, PlainKey;
    KeyPooled(k, pool);
    var key := EncodeKey(k, pool);
    if key.Encoded? {
      StillPool(key, pool, StringsKey(k), true);
      AtPooled(t, k, key.pool);
    }
    var value := if key.Encoded? then EncodeAt(t, k, key.pool) else key;
    ThenPooled(key, value, pool, StringsKey(k), StringsAt(t, k), true, ListableAt(t, k));
  }

  lemma {:induction false} PairsPooled(t: LValue, keys: seq<Key>, pool: Pool)
    requires t.LTable? && Valid(t) && Supported(t) && (forall k | k in keys :: PlainKey(k))
    requires UniquePool(pool) && |pool| <= MAXNODES
    ensures Pooled(EncodePairs(t, keys, pool), pool, StringsOf(t, keys), ListableKeys(t, keys))
    decreases t, 1, |keys|
  {
    hide Valid, Supported, EncodePair, StringsAt, StringsKey, ListableAt, Pooled;
    if keys != [] {
      assert keys == [keys[0]] + keys[1..] && forall k | k in keys[1..] :: k in keys;
      PairPooled(t, keys[0], pool);
      var first := EncodePair(t, keys[0], pool);
      var x := StringsKey(keys[0]) + StringsAt(t, keys[0]);
      if first.Encoded? {
        StillPool(first, pool, x, ListableAt(t, keys[0]));
        PairsPooled(t, keys[1..], first.pool);
      }
      var rest := if first.Encoded? then EncodePairs(t, keys[1..], first.pool) else first;
      assert ListableKeys(t, keys) <==> ListableAt(t, keys[0]) && ListableKeys(t, keys[1..]) by {
        assert keys[0] in keys && forall k | k in keys :: k == keys[0] || k in keys[1..];
      }
      ThenPooled(first, rest, pool, x, StringsOf(t, keys[1..]), ListableAt(t, keys[0]), ListableKeys(t, keys[1..]));
    } else {
      NothingPooled(pool);
    }
  }

  predicate HasString(t: LValue, k: Key, x: seq<byte>)
    requires t.LTable?
  {
    x in StringsKey(k) || x in StringsAt(t, k)
  }

  lemma {:induction false} StringsOfIs(t: LValue, keys: seq<Key>, x: seq<byte>)
    requires t.LTable?
    ensures x in StringsOf(t, keys) <==> exists k :: k in keys && HasString(t, k, x)
  {
    if keys != [] {
      assert keys == [keys[0]] + keys[1..];
      StringsOfIs(t, keys[1..], x);
      assert keys[0] in keys && forall k | k in keys :: k == keys[0] || k in keys[1..];
      assert forall k | k in keys[1..] :: k in keys;
    }
  }

  lemma {:induction false} StringsMapIs(t: LValue, n: nat, x: seq<byte>)
    requires t.LTable? && DistinctKeys(t.entries) && n <= |t.entries|
    ensures x in StringsMap(t, n) <==> exists i :: 0 <= i < n && HasString(t, t.entries[i].0, x)
  {
    hide StringsKey;
    if n > 0 {
      StringsMapIs(t, n - 1, x);
      FindAt(t.entries, n - 1);
    }
  }

  /** Sorting the keys changes nothing about what is written. */
  lemma SortedStrings(t: LValue)
    requires t.LTable? && Valid(t)
    ensures StringsOf(t, SortKeys(Keys(t.entries))) == StringsMap(t, |t.entries|)
  {
    hide Valid, SortKeys, HasString, StringsOf, StringsMap;
    var keys := SortKeys(Keys(t.entries));
    SortedEntries(t);
    forall x ensures x in StringsOf(t, keys) <==> x in StringsMap(t, |t.entries|) {
      StringsOfIs(t, keys, x);
      StringsMapIs(t, |t.entries|, x);
    }
  }

  lemma SortedListable(t: LValue)
    requires t.LTable? && Valid(t)
    ensures ListableKeys(t, SortKeys(Keys(t.entries))) <==> forall i | 0 <= i < |t.entries| :: Listable(t.entries[i].1)
  {
    hide Valid, SortKeys, Find, Listable;
    SortedEntries(t);
    forall i | 0 <= i < |t.entries| ensures ListableAt(t, t.entries[i].0) <==> Listable(t.entries[i].1) {
      FindAt(t.entries, i);
    }
  }

  /** A table in table form: the sorted keys are those of the entries. */
  lemma {:induction false} PairsTable(t: LValue, pool: Pool)
    requires t.LTable? && Valid(t) && Supported(t) && UniquePool(pool) && |pool| <= MAXNODES
    requires |t.entries| != 0 && |t.entries| != t.border && |t.entries| <= MAXLIST
    ensures Pooled(EncodeValue(t, pool), pool, Strings(t), Listable(t))
    decreases t, 2
  {
    SortedKeys(t);
    var keys := SortKeys(Keys(t.entries));
    PairsPooled(t, keys, pool);
    SortedStrings(t);
    SortedListable(t);
    hide Valid, EncodePairs, StringsMap, StringsOf, SortKeys, ListableKeys;
  }

  // ---------------------------------------------------------------- whole files

  /** A value of supported types can be written exactly if it has no more strings than
      the hash part of a table has nodes, and no list of keys is too long. */
  lemma StorableIff(v: LValue)
    requires Valid(v) && Supported(v)
    ensures EncodeFile(v).Encoded? <==> |Strings(v)| <= MAXNODES && Listable(v)
    ensures EncodeFile(v).Encoded? || EncodeFile(v).Overflow?
  {
    hide Valid, Supported, EncodeValue, Strings, Listable;
    ValuePooled(v, []);
    var e := EncodeValue(v, []);
    assert PoolSet([]) + Strings(v) == Strings(v);
    if e.Encoded? {
      UniqueSize(e.pool);
    }
  }

  // ---------------------------------------------------------------- what is lost on reading

  /** A table with the keys 1..n and "x", every value true. */
  function Mixed(n: nat): LValue {
    LTable(seq(n, i requires 0 <= i < n => (At(i + 1), LBool(true))) + [(StrKey([120]), LBool(true))], n)
  }

  lemma SmallIndex(i: int)
    requires 0 <= i <= MAXLIST + 1
    ensures ValidNumber(Int(i))
  {
    Widths();
    ToDoubleNear(i);
  }

  lemma MixedIsValid(n: nat)
    requires n <= MAXLIST
    ensures Valid(Mixed(n)) && Supported(Mixed(n)) && Lossless(Mixed(n)) && !TakenForArray(Mixed(n).entries, n)
    ensures Loadable(Mixed(n)) <==> n < MAXNODES
    ensures Listable(Mixed(n)) <==> n < MAXLIST
  {
    hide ValidNumber, Lossy, Content;
    var es := Mixed(n).entries;
    forall i | 0 <= i < |es| ensures PlainKey(es[i].0) && es[i].1 == LBool(true) {
      if i < n {
        SmallIndex(i + 1);
      }
    }
    forall i, j | 0 <= i < j < |es| ensures es[i].0 != es[j].0 {
    }
    assert n > 0 ==> es[n - 1].0 == At(n);
    assert forall i | 0 <= i < |es| :: es[i].0 != At(n + 1);
  }

  lemma {:induction false} MixedStrings(n: nat, k: nat)
    requires k <= n
    ensures StringsMap(Mixed(n), k) == {}
  {
    if k > 0 {
      MixedStrings(n, k - 1);
      assert Mixed(n).entries[k - 1] == (At(k), LBool(true));
    }
  }

  lemma OneString(n: nat)
    ensures |Strings(Mixed(n))| == 1
  {
    var v := Mixed(n);
    MixedStrings(n, n);
    assert v.entries[n] == (StrKey([120]), LBool(true)) && |v.entries| == n + 1;
    assert StringsMap(v, n + 1) == StringsMap(v, n) + StringsKey(StrKey([120])) + Strings(LBool(true));
    assert Strings(v) == {[120]};
  }

  /** From 2^26 on, such a table is written but cannot be read back. */
  lemma MixedTrip(n: nat)
    requires n < MAXLIST
    ensures Valid(Mixed(n)) && EncodeFile(Mixed(n)).Encoded?
    ensures ParseFile(EncodeFile(Mixed(n)).bytes).Raise? <==> n >= MAXNODES
    ensures n < MAXNODES ==> ParseFile(EncodeFile(Mixed(n)).bytes).Ok?
                             && ParseFile(EncodeFile(Mixed(n)).bytes).v == Content(Mixed(n))
  {
    hide Valid, Supported, Lossless, Loadable, Listable, EncodeFile, ParseFile, Content, Strings, Mixed;
    var v := Mixed(n);
    MixedIsValid(n);
    OneString(n);
    StorableIff(v);
    RoundTripIff(v, []);
    assert EncodeFile(v).bytes + [] == EncodeFile(v).bytes;
  }
}
