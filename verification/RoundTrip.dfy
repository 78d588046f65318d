/**
 Reading back what was written.
 */
module RoundTrip {
  import opened Bytes
  import opened Numbers
  import opened LuaValue
  import opened KeyOrder
  import opened Losses
  import opened Format

  /** `bytes` lie in `data` at `pos`. */
  predicate Holds(data: seq<byte>, pos: nat, bytes: seq<byte>) {
    pos + |bytes| <= |data| && data[pos..pos + |bytes|] == bytes
  }

  lemma HoldsSplit(data: seq<byte>, pos: nat, a: seq<byte>, b: seq<byte>)
    requires Holds(data, pos, a + b)
    ensures Holds(data, pos, a) && Holds(data, pos + |a|, b)
  {
    var s := data[pos..pos + |a + b|];
    assert s[..|a|] == a && s[|a|..] == b;
    assert data[pos..pos + |a|] == s[..|a|];
    assert data[pos + |a|..pos + |a| + |b|] == s[|a|..];
  }

  lemma HoldsTag(data: seq<byte>, pos: nat, tag: byte, rest: seq<byte>)
    requires Holds(data, pos, [tag] + rest)
    ensures pos < |data| && ReadNum(data, pos, 1) == tag && Holds(data, pos + 1, rest)
  {
    HoldsSplit(data, pos, [tag], rest);
    assert Slice(data, pos, 1) == [tag];
    assert FromBytes([tag]) == tag + 256 * FromBytes([tag][1..]);
  }

  lemma HoldsNum(data: seq<byte>, pos: nat, n: nat, w: nat)
    requires Holds(data, pos, ToBytes(n, w)) && n < Pow256(w)
    ensures ReadNum(data, pos, w) == n
  {
    FromToBytes(n, w);
  }

  // ---------------------------------------------------------------- scalars

  /** Parsing at `pos` gives `v` and stops right behind `bytes`. */
  predicate Yields(data: seq<byte>, pos: nat, pool: Pool, v: Value, size: nat) {
    var r := ParseValue(data, pos, pool);
    r.Ok? && r.v == v && r.pos == pos + size
  }

  lemma IntTrip(i: int, data: seq<byte>, pos: nat, pool: Pool)
    requires ValidNumber(Int(i)) && Holds(data, pos, EncodeInt(i))
    ensures Yields(data, pos, pool, Num(Int(i)), |EncodeInt(i)|)
  {
    hide FromSigned, ToSigned, ToDouble;
    Widths();
    var bytes := EncodeInt(i);
    assert bytes == [bytes[0]] + bytes[1..];
    HoldsTag(data, pos, bytes[0], bytes[1..]);
    if i != 0 && i != 1 {
      var w := Width(bytes[0] - 6);
      assert bytes[1..] == ToSigned(i, w);
      SignedWidth(i, w);
      assert Slice(data, pos + 1, w) == ToSigned(i, w);
      FromToSigned(i, w);
    }
  }

  lemma SignedWidth(i: int, w: nat)
    requires 0 - Pow256(w) < i
    ensures |ToSigned(i, w)| == w
  {
  }

  lemma NumberTrip(n: Number, data: seq<byte>, pos: nat, pool: Pool)
    requires ValidNumber(n) && Holds(data, pos, EncodeNumber(n))
    ensures Yields(data, pos, pool, Num(n), |EncodeNumber(n)|)
  {
    match n
    case Int(i) => IntTrip(i, data, pos, pool);
    case Frac(bits) =>
      HoldsTag(data, pos, T_DOUBLE, bits);
      FracStays(bits);
  }

  /** A length tells the reader its own width. */
  lemma LengthTrip(tag: byte, n: nat, data: seq<byte>, pos: nat)
    requires tag + 3 < 256 && 0 < n < MAXCOUNT && Holds(data, pos, EncodeLength(tag, n))
    ensures pos < |data|
    ensures var t := ReadNum(data, pos, 1);
            && tag < t <= tag + 3
            && |EncodeLength(tag, n)| == 1 + Width(t - tag - 1)
            && ReadNum(data, pos + 1, Width(t - tag - 1)) == n
  {
    Widths();
    var bytes := EncodeLength(tag, n);
    assert bytes == [bytes[0]] + bytes[1..];
    HoldsTag(data, pos, bytes[0], bytes[1..]);
    var w := Width(bytes[0] - tag - 1);
    assert bytes[1..] == ToBytes(n, w);
    HoldsNum(data, pos + 1, n, w);
  }

  lemma StringTrip(s: seq<byte>, pool: Pool, full: Pool, data: seq<byte>, pos: nat)
    requires PoolAfter(s, pool) <= full && |full| < MAXCOUNT
    requires Holds(data, pos, EncodeString(s, pool))
    ensures Yields(data, pos, full, Str(s), |EncodeString(s, pool)|)
  {
    if s == [] {
      HoldsTag(data, pos, T_STRING0, []);
    } else {
      var p := Store(pool, s);
      var index := PoolIndex(p, s);
      assert index > 0 by {
        assert p[|p| - 1] == s || PoolIndex(pool, s) > 0;
      }
      LengthTrip(T_STRING0, index, data, pos);
      assert full[index - 1] == p[index - 1];
    }
  }

  lemma KeyTrip(k: Key, pool: Pool, full: Pool, data: seq<byte>, pos: nat)
    requires PlainKey(k) && EncodeKey(k, pool).Encoded?
    requires EncodeKey(k, pool).pool <= full && |full| < MAXCOUNT
    requires Holds(data, pos, EncodeKey(k, pool).bytes)
    ensures var r := ParseValue(data, pos, full);
            r.Ok? && r.pos == pos + |EncodeKey(k, pool).bytes| && AsKey(r.v, pos) == SomeKey(k)
  {
    match k
    case NumKey(n) =>
      NumberTrip(n, data, pos, full);
      PlainNotNaN(n);
    case StrKey(s) => StringTrip(s, pool, full, data, pos);
  }

  lemma PlainNotNaN(n: Number)
    requires ValidNumber(n)
    ensures n.Frac? ==> !IsNaN(n.bits)
  {
    if n.Frac? {
      FiniteNotNaN(FromBytes(n.bits) % SIGN);
    }
  }

  // ---------------------------------------------------------------- the pool only grows

  lemma {:induction false} ValueGrows(v: LValue, pool: Pool)
    requires Valid(v) && EncodeValue(v, pool).Encoded?
    ensures pool <= EncodeValue(v, pool).pool
    ensures |pool| <= MAXNODES ==> |EncodeValue(v, pool).pool| <= MAXNODES
    decreases v
  {
    if v.LTable? && |v.entries| != 0 {
      if |v.entries| == v.border {
        ArrayGrows(v, 1, v.border, pool);
      } else {
        SortedKeys(v);
        PairsGrow(v, SortKeys(Keys(v.entries)), pool);
      }
    }
  }

  lemma {:induction false} AtGrows(t: LValue, k: Key, pool: Pool)
    requires t.LTable? && Valid(t) && EncodeAt(t, k, pool).Encoded?
    ensures pool <= EncodeAt(t, k, pool).pool
    ensures |pool| <= MAXNODES ==> |EncodeAt(t, k, pool).pool| <= MAXNODES
    decreases t, 0
  {
    var i := Find(t.entries, k);
    if i >= 0 {
      ValueGrows(t.entries[i].1, pool);
    }
  }

  lemma {:induction false} ArrayGrows(t: LValue, i: nat, n: nat, pool: Pool)
    requires t.LTable? && Valid(t) && EncodeArray(t, i, n, pool).Encoded?
    ensures pool <= EncodeArray(t, i, n, pool).pool
    ensures |pool| <= MAXNODES ==> |EncodeArray(t, i, n, pool).pool| <= MAXNODES
    decreases t, 1, if i <= n then n + 1 - i else 0
  {
    if i <= n {
      AtGrows(t, At(i), pool);
      ArrayGrows(t, i + 1, n, EncodeAt(t, At(i), pool).pool);
    }
  }

  lemma {:induction false} PairsGrow(t: LValue, keys: seq<Key>, pool: Pool)
    requires t.LTable? && Valid(t) && forall k | k in keys :: PlainKey(k)
    requires EncodePairs(t, keys, pool).Encoded?
    ensures pool <= EncodePairs(t, keys, pool).pool
    ensures |pool| <= MAXNODES ==> |EncodePairs(t, keys, pool).pool| <= MAXNODES
    decreases t, 1, |keys|
  {
    if keys != [] {
      var first := EncodePair(t, keys[0], pool);
      var key := EncodeKey(keys[0], pool);
      AtGrows(t, keys[0], key.pool);
      PairsGrow(t, keys[1..], first.pool);
    }
  }

  // ---------------------------------------------------------------- values

  /** Parsing at `pos` gives back the value, up to what array form loses, and stops
      right behind its `size` bytes; or it raises, if the value is not loadable. */
  predicate Trips(data: seq<byte>, pos: nat, pool: Pool, v: LValue, size: nat) {
    if Loadable(v) then Yields(data, pos, pool, Lossy(v), size) else ParseValue(data, pos, pool).Raise?
  }

  /** The body parser gives back the value exactly if it is loadable, although string
      indices were emitted against a pool that had not grown to `full` yet. */
  lemma {:induction false} ValueTrip(v: LValue, pool: Pool, full: Pool, data: seq<byte>, pos: nat)
    requires Valid(v) && EncodeValue(v, pool).Encoded? && EncodeValue(v, pool).pool <= full && |full| < MAXCOUNT
    requires Holds(data, pos, EncodeValue(v, pool).bytes)
    ensures Trips(data, pos, full, v, |EncodeValue(v, pool).bytes|)
    decreases v
  {
    match v
    case LNil => HoldsTag(data, pos, T_NIL, []);
    case LBool(b) => HoldsTag(data, pos, if b then T_TRUE else T_FALSE, []);
    case LNum(n) => NumberTrip(n, data, pos, full);
    case LStr(s) => StringTrip(s, pool, full, data, pos);
    case LTable(entries, border) =>
      if |entries| == 0 {
        HoldsTag(data, pos, T_TABLE0, []);
      } else if |entries| == border {
        ArrayTableTrip(v, pool, full, data, pos);
      } else {
        HashTableTrip(v, pool, full, data, pos);
      }
  }

  /** The values at positions i..n are loadable. */
  predicate LoadableFrom(t: LValue, i: nat, n: nat)
    requires t.LTable?
  {
    forall j | i <= j <= n :: LoadableAt(t, At(j))
  }

  lemma LoadableNext(t: LValue, i: nat, n: nat)
    requires t.LTable?
    ensures i <= n ==> (LoadableFrom(t, i, n) <==> LoadableAt(t, At(i)) && LoadableFrom(t, i + 1, n))
    ensures i > n ==> LoadableFrom(t, i, n)
  {
  }

  lemma {:induction false} ArrayTableTrip(v: LValue, pool: Pool, full: Pool, data: seq<byte>, pos: nat)
    requires v.LTable? && TakenForArray(v.entries, v.border)
    requires Valid(v) && EncodeValue(v, pool).Encoded? && EncodeValue(v, pool).pool <= full && |full| < MAXCOUNT
    requires Holds(data, pos, EncodeValue(v, pool).bytes)
    ensures Trips(data, pos, full, v, |EncodeValue(v, pool).bytes|)
    decreases v, 2
  {
    hide ParseValue, Holds, LossyArray, EncodeArray, ParseArray, EncodeLength, EncodeAt, LossyAt, Find, DistinctKeys, LoadableAt;
    var n := v.border;
    var length := EncodeLength(T_ARRAY0, n);
    var rest := EncodeArray(v, 1, n, pool);
    HoldsSplit(data, pos, length, rest.bytes);
    LengthTrip(T_ARRAY0, n, data, pos);
    FormParse(data, pos, full);
    NothingLost(v);
    ArrayTrip(v, 1, n, pool, full, data, pos + |length|, 1);
  }

  lemma NothingLost(v: LValue)
    requires v.LTable?
    ensures LossyArray(v, 0) == map[]
  {
  }

  lemma {:induction false} ArrayTrip(t: LValue, i: nat, n: nat, pool: Pool, full: Pool, data: seq<byte>, pos: nat, count: nat)
    requires t.LTable? && Valid(t) && 1 <= i <= n + 1 && |full| < MAXCOUNT
    requires EncodeArray(t, i, n, pool).Encoded? && EncodeArray(t, i, n, pool).pool <= full
    requires Holds(data, pos, EncodeArray(t, i, n, pool).bytes)
    ensures var r := ParseArray(data, pos, full, n, i - 1, LossyArray(t, i - 1), count);
            if LoadableFrom(t, i, n) then
              r.Ok? && r.v == Table(LossyArray(t, n)) && r.pos == pos + |EncodeArray(t, i, n, pool).bytes|
            else r.Raise?
    decreases t, 1, n + 1 - i
  {
    hide ParseValue, EncodeAt, LossyAt, Holds, Valid, EncodeValue, Lossy, Find, LoadableAt, LoadableFrom;
    LoadableNext(t, i, n);
    if i <= n {
      var first := EncodeAt(t, At(i), pool);
      var rest := EncodeArray(t, i + 1, n, first.pool);
      HoldsSplit(data, pos, first.bytes, rest.bytes);
      ArrayGrows(t, i + 1, n, first.pool);
      AtTrip(t, At(i), pool, full, data, pos);
      var e := ParseValue(data, pos, full);
      if LoadableAt(t, At(i)) {
        ArrayTrip(t, i + 1, n, first.pool, full, data, pos + |first.bytes|, count + e.count);
      }
    }
  }

  lemma {:induction false} AtTrip(t: LValue, k: Key, pool: Pool, full: Pool, data: seq<byte>, pos: nat)
    requires t.LTable? && Valid(t) && |full| < MAXCOUNT
    requires EncodeAt(t, k, pool).Encoded? && EncodeAt(t, k, pool).pool <= full
    requires Holds(data, pos, EncodeAt(t, k, pool).bytes)
    ensures if LoadableAt(t, k) then Yields(data, pos, full, LossyAt(t, k), |EncodeAt(t, k, pool).bytes|)
            else ParseValue(data, pos, full).Raise?
    decreases t, 0
  {
    var i := Find(t.entries, k);
    if i >= 0 {
      ValueTrip(t.entries[i].1, pool, full, data, pos);
    } else {
      HoldsTag(data, pos, T_NIL, []);
    }
  }

  lemma {:induction false} HashTableTrip(v: LValue, pool: Pool, full: Pool, data: seq<byte>, pos: nat)
    requires v.LTable? && |v.entries| > 0 && !TakenForArray(v.entries, v.border)
    requires Valid(v) && EncodeValue(v, pool).Encoded? && EncodeValue(v, pool).pool <= full && |full| < MAXCOUNT
    requires Holds(data, pos, EncodeValue(v, pool).bytes)
    ensures Trips(data, pos, full, v, |EncodeValue(v, pool).bytes|)
    decreases v, 2
  {
    hide ParseValue, Holds, SortKeys, Fold, LossyMap, Ascending, AllPlain, EncodePairs, ParseTable, EncodeLength, DistinctKeys, Find,
         LossyAt, EncodeAt, LoadableAt, LoadableKeys, Lossy, Loadable, EncodeValue;
    var n := |v.entries|;
    var keys := SortKeys(Keys(v.entries));
    SortedKeys(v);
    HashTable(v, pool);
    var length := EncodeLength(T_TABLE0, n);
    var rest := EncodePairs(v, keys, pool);
    HoldsSplit(data, pos, length, rest.bytes);
    LengthTrip(T_TABLE0, n, data, pos);
    FormParse(data, pos, full);
    if n <= MAXNODES {
      PairsTrip(v, keys, map[], pool, full, data, pos + |length|, 1);
      FoldIsMap(v);
      LoadableEntries(v);
    }
  }

  /** What a table in table form is made of. */
  lemma HashTable(v: LValue, pool: Pool)
    requires v.LTable? && |v.entries| > 0 && !TakenForArray(v.entries, v.border) && Valid(v)
    ensures Lossy(v) == Table(LossyMap(v, |v.entries|))
    ensures Loadable(v) <==> |v.entries| <= MAXNODES && forall i | 0 <= i < |v.entries| :: Loadable(v.entries[i].1)
    ensures forall k | k in SortKeys(Keys(v.entries)) :: PlainKey(k)
    ensures EncodeValue(v, pool) ==
            if |v.entries| > MAXLIST then Overflow
            else Then(Encoded(EncodeLength(T_TABLE0, |v.entries|), pool), EncodePairs(v, SortKeys(Keys(v.entries)), pool))
  {
    SortedKeys(v);
    hide SortKeys, EncodePairs, LossyMap, EncodeLength;
  }

  /** The values at some keys are loadable. */
  predicate LoadableKeys(t: LValue, keys: seq<Key>)
    requires t.LTable?
  {
    forall k | k in keys :: LoadableAt(t, k)
  }

  lemma LoadableMore(t: LValue, keys: seq<Key>)
    requires t.LTable?
    ensures keys == [] ==> LoadableKeys(t, keys)
    ensures keys != [] ==> (LoadableKeys(t, keys) <==> LoadableAt(t, keys[0]) && LoadableKeys(t, keys[1..]))
  {
    if keys != [] {
      assert keys == [keys[0]] + keys[1..];
      assert keys[0] in keys && forall k | k in keys :: k == keys[0] || k in keys[1..];
    }
  }

  lemma LoadableEntries(t: LValue)
    requires t.LTable? && Valid(t)
    ensures LoadableKeys(t, SortKeys(Keys(t.entries))) <==> forall i | 0 <= i < |t.entries| :: Loadable(t.entries[i].1)
  {
    hide Valid, SortKeys, Find, Loadable;
    SortedEntries(t);
    forall i | 0 <= i < |t.entries| ensures LoadableAt(t, t.entries[i].0) <==> Loadable(t.entries[i].1) {
      FindAt(t.entries, i);
    }
  }

  /** Assigning the values of a list of keys, in order. */
  function Fold(t: LValue, keys: seq<Key>, m: map<Key, Value>): map<Key, Value>
    requires t.LTable?
  {
    if keys == [] then m else Fold(t, keys[1..], Put(m, keys[0], LossyAt(t, keys[0])))
  }

  lemma {:induction false} PairsTrip(t: LValue, keys: seq<Key>, m: map<Key, Value>,
                                     pool: Pool, full: Pool, data: seq<byte>, pos: nat, count: nat)
    requires t.LTable? && Valid(t) && (forall k | k in keys :: PlainKey(k)) && |full| < MAXCOUNT
    requires EncodePairs(t, keys, pool).Encoded? && EncodePairs(t, keys, pool).pool <= full
    requires Holds(data, pos, EncodePairs(t, keys, pool).bytes)
    ensures var r := ParseTable(data, pos, full, |keys|, m, count);
            if LoadableKeys(t, keys) then
              r.Ok? && r.v == Table(Fold(t, keys, m)) && r.pos == pos + |EncodePairs(t, keys, pool).bytes|
            else r.Raise?
    decreases t, 1, |keys|
  {
    hide ParseValue, EncodeAt, LossyAt, Holds, Valid, EncodeValue, Lossy, Find, EncodeKey, AsKey, Put, LoadableAt, LoadableKeys;
    LoadableMore(t, keys);
    if keys != [] {
      var key := EncodeKey(keys[0], pool);
      var value := EncodeAt(t, keys[0], key.pool);
      var first := EncodePair(t, keys[0], pool);
      var rest := EncodePairs(t, keys[1..], first.pool);
      HoldsSplit(data, pos, first.bytes, rest.bytes);
      HoldsSplit(data, pos, key.bytes, value.bytes);
      PairsGrow(t, keys[1..], first.pool);
      AtGrows(t, keys[0], key.pool);
      KeyTrip(keys[0], pool, full, data, pos);
      AtTrip(t, keys[0], key.pool, full, data, pos + |key.bytes|);
      var k := ParseValue(data, pos, full);
      var v := ParseValue(data, k.pos, full);
      if LoadableAt(t, keys[0]) {
        PairsTrip(t, keys[1..], Put(m, keys[0], LossyAt(t, keys[0])), first.pool, full, data, v.pos,
                  count + k.count + v.count);
      }
    }
  }

  lemma PresentNotNil(t: LValue, k: Key)
    requires t.LTable? && Valid(t) && Has(t.entries, k)
    ensures !LossyAt(t, k).Nil?
  {
    assert !t.entries[Find(t.entries, k)].1.LNil?;
  }

  lemma {:induction false} FoldIs(t: LValue, keys: seq<Key>, m: map<Key, Value>)
    requires t.LTable? && Valid(t) && forall k | k in keys :: Has(t.entries, k)
    ensures Fold(t, keys, m).Keys == m.Keys + set k | k in keys
    ensures forall k | k in Fold(t, keys, m) :: Fold(t, keys, m)[k] == if k in keys then LossyAt(t, k) else m[k]
  {
    if keys != [] {
      assert keys == [keys[0]] + keys[1..];
      assert keys[0] in keys;
      var v := LossyAt(t, keys[0]);
      PresentNotNil(t, keys[0]);
      FoldIs(t, keys[1..], m[keys[0] := v]);
    }
  }

  lemma SortedMembers(t: LValue)
    requires t.LTable? && Valid(t)
    ensures forall k :: k in SortKeys(Keys(t.entries)) <==> k in KeySet(t.entries, |t.entries|)
    ensures forall k | k in SortKeys(Keys(t.entries)) :: Has(t.entries, k)
  {
    hide Valid, SortKeys, Ascending, AllPlain;
    var keys := SortKeys(Keys(t.entries));
    SortedKeys(t);
    assert forall k :: k in keys <==> k in multiset(keys);
    assert forall k :: k in keys <==> k in Keys(t.entries);
  }

  /** The sorted keys are those of the entries. */
  lemma SortedEntries(t: LValue)
    requires t.LTable? && Valid(t)
    ensures DistinctKeys(t.entries)
    ensures forall k | k in SortKeys(Keys(t.entries)) :: exists i :: 0 <= i < |t.entries| && t.entries[i].0 == k
    ensures forall i | 0 <= i < |t.entries| :: t.entries[i].0 in SortKeys(Keys(t.entries))
  {
    hide Valid, SortKeys, Find;
    SortedMembers(t);
    ValidDistinct(t);
    forall k | k in SortKeys(Keys(t.entries)) ensures exists i :: 0 <= i < |t.entries| && t.entries[i].0 == k {
      assert k in KeySet(t.entries, |t.entries|);
    }
    forall i | 0 <= i < |t.entries| ensures t.entries[i].0 in SortKeys(Keys(t.entries)) {
      assert t.entries[i].0 in KeySet(t.entries, |t.entries|);
    }
  }

  lemma FoldIsMap(t: LValue)
    requires t.LTable? && Valid(t)
    ensures Fold(t, SortKeys(Keys(t.entries)), map[]) == LossyMap(t, |t.entries|)
  {
    hide Valid, LossyAt, LossyMap, Fold, SortKeys, Has, Find;
    var keys, n := SortKeys(Keys(t.entries)), |t.entries|;
    SortedMembers(t);
    FoldIs(t, keys, map[]);
    LossyMapIs(t, n);
    ValidDistinct(t);
    var a, b := Fold(t, keys, map[]), LossyMap(t, n);
    assert a.Keys == b.Keys;
    forall k | k in b ensures a[k] == b[k] {
      var i :| 0 <= i < n && t.entries[i].0 == k;
      LossyAtEntry(t, i);
    }
  }

  // ---------------------------------------------------------------- whole files

  predicate ShortPool(pool: Pool) {
    forall i | 0 <= i < |pool| :: 0 < |pool[i]| < MAXSTRING
  }

  lemma {:induction false} PoolTrip(pool: Pool, acc: Pool, data: seq<byte>, pos: nat)
    requires ShortPool(pool) && Holds(data, pos, EncodePool(pool))
    ensures ParsePool(data, pos, |pool|, acc) == PoolOk(acc + pool, pos + |EncodePool(pool)|)
  {
    if pool == [] {
      assert acc + pool == acc;
    } else {
      Widths();
      var s := pool[0];
      HoldsSplit(data, pos, EncodeText(s), EncodePool(pool[1..]));
      HoldsSplit(data, pos, ToBytes(|s|, 2), s);
      HoldsNum(data, pos, |s|, 2);
      PoolTrip(pool[1..], acc + [s], data, pos + 2 + |s|);
      assert acc + [s] + pool[1..] == acc + pool;
    }
  }

  lemma {:induction false} ValueShort(v: LValue, pool: Pool)
    requires Valid(v) && EncodeValue(v, pool).Encoded? && ShortPool(pool)
    ensures ShortPool(EncodeValue(v, pool).pool)
    decreases v
  {
    if v.LTable? && |v.entries| != 0 {
      if |v.entries| == v.border {
        ArrayShort(v, 1, v.border, pool);
      } else {
        SortedKeys(v);
        PairsShort(v, SortKeys(Keys(v.entries)), pool);
      }
    }
  }

  lemma {:induction false} AtShort(t: LValue, k: Key, pool: Pool)
    requires t.LTable? && Valid(t) && EncodeAt(t, k, pool).Encoded? && ShortPool(pool)
    ensures ShortPool(EncodeAt(t, k, pool).pool)
    decreases t, 0
  {
    var i := Find(t.entries, k);
    if i >= 0 {
      ValueShort(t.entries[i].1, pool);
    }
  }

  lemma {:induction false} ArrayShort(t: LValue, i: nat, n: nat, pool: Pool)
    requires t.LTable? && Valid(t) && EncodeArray(t, i, n, pool).Encoded? && ShortPool(pool)
    ensures ShortPool(EncodeArray(t, i, n, pool).pool)
    decreases t, 1, if i <= n then n + 1 - i else 0
  {
    if i <= n {
      AtShort(t, At(i), pool);
      ArrayShort(t, i + 1, n, EncodeAt(t, At(i), pool).pool);
    }
  }

  lemma {:induction false} PairsShort(t: LValue, keys: seq<Key>, pool: Pool)
    requires t.LTable? && Valid(t) && (forall k | k in keys :: PlainKey(k)) && ShortPool(pool)
    requires EncodePairs(t, keys, pool).Encoded?
    ensures ShortPool(EncodePairs(t, keys, pool).pool)
    decreases t, 1, |keys|
  {
    if keys != [] {
      var first := EncodePair(t, keys[0], pool);
      AtShort(t, keys[0], EncodeKey(keys[0], pool).pool);
      PairsShort(t, keys[1..], first.pool);
    }
  }

  /** Reading a written file, whatever follows it, gives back the value up to what
      array form loses, and consumes the file exactly; or raises, if the value is not
      loadable. */
  lemma FileTrip(v: LValue, suffix: seq<byte>)
    requires Valid(v) && EncodeFile(v).Encoded?
    ensures var r := ParseFile(EncodeFile(v).bytes + suffix);
            if Loadable(v) then r.Ok? && r.v == Lossy(v) && r.pos == |EncodeFile(v).bytes| else r.Raise?
  {
    hide Valid, EncodeValue, ParseValue, Lossy, EncodePool, ParsePool, Loadable;
    Widths();
    var body := EncodeValue(v, []);
    var n := |body.pool|;
    ValueGrows(v, []);
    var data := EncodeFile(v).bytes + suffix;
    assert Holds(data, 0, EncodeFile(v).bytes);
    var magic, version, size := ToBytes(MAGIC_NUMBER, 2), ToBytes(LUABT_VERSION, 2), ToBytes(n, 4);
    HoldsSplit(data, 0, magic + version + size + EncodePool(body.pool), body.bytes);
    HoldsSplit(data, 0, magic + version + size, EncodePool(body.pool));
    HoldsSplit(data, 0, magic + version, size);
    HoldsSplit(data, 0, magic, version);
    HoldsNum(data, 0, MAGIC_NUMBER, 2);
    HoldsNum(data, 2, LUABT_VERSION, 2);
    HoldsNum(data, 4, n, 4);
    ValueShort(v, []);
    PoolTrip(body.pool, [], data, 8);
    assert [] + body.pool == body.pool;
    ValueTrip(v, [], body.pool, data, 8 + |EncodePool(body.pool)|);
  }

  /** The round trip: reading succeeds exactly if every table in table form fits a
      hash part, and restores the contents exactly if besides every table that is
      taken for an array is one. */
  lemma RoundTripIff(v: LValue, suffix: seq<byte>)
    requires Valid(v) && EncodeFile(v).Encoded?
    ensures var r := ParseFile(EncodeFile(v).bytes + suffix);
            && (r.Ok? <==> Loadable(v)) && (r.Raise? <==> !Loadable(v))
            && (r.Ok? ==> r.pos == |EncodeFile(v).bytes|)
            && (r.Ok? && r.v == Content(v) <==> Loadable(v) && Lossless(v))
  {
    hide Valid, EncodeFile, ParseFile, Lossy, Content, Lossless, Loadable;
    FileTrip(v, suffix);
    LossyIffNot(v);
  }
}
