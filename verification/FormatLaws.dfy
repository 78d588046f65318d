/**
 The binary format by its bytes: the shortest forms, whole files byte for byte, which
 values are keys, and the order of keys.
 */
module FormatLaws {
  import opened Bytes
  import opened Numbers
  import opened LuaValue
  import opened KeyOrder
  import opened Format

  // ---------------------------------------------------------------- the shortest forms

  lemma SignedWithin(s: seq<byte>)
    ensures FitsSigned(FromSigned(s), |s|)
  {
    FromBytesBound(s);
  }

  /** What an integer tag with so many bytes behind it can stand for. */
  lemma IntegerForms(d: seq<byte>, pool: Pool, i: int)
    requires d != [] && d[0] <= T_INT64 && ParseValue(d, 0, pool) == Ok(Num(Int(i)), |d|, 1)
    ensures (|d| == 1 && (i == 0 || i == 1)) || (|d| == 2 && FitsSigned(i, 1)) || (|d| == 3 && FitsSigned(i, 2))
            || (|d| == 5 && FitsSigned(i, 4)) || |d| == 9
  {
    hide ToDouble, FitsSigned, FromSigned;
    assert d[0..1] == [d[0]];
    TagIs(d, 0);
    var w := Width(if d[0] >= T_INT8 then d[0] - T_INT8 else 0);
    if T_INT8 <= d[0] < T_INT64 {
      var j := FromSigned(Slice(d, 1, w));
      SignedWithin(Slice(d, 1, w));
      Exactly(j, w);
    }
  }

  lemma TagIs(d: seq<byte>, pos: nat)
    requires pos < |d|
    ensures ReadNum(d, pos, 1) == d[pos]
  {
    assert d[pos..pos + 1] == [d[pos]];
    assert FromBytes([d[pos]][1..]) == 0;
  }

  lemma Exactly(j: int, w: nat)
    requires FitsSigned(j, w) && (w == 1 || w == 2 || w == 4)
    ensures ToDouble(j) == j
  {
    Widths();
    ToDoubleNear(j);
  }

  /** No other bytes with an integer tag that are read as `i` are fewer. */
  lemma ShortestInt(d: seq<byte>, pool: Pool, i: int)
    requires d != [] && d[0] <= T_INT64 && ParseValue(d, 0, pool) == Ok(Num(Int(i)), |d|, 1) && FitsSigned(i, 8)
    ensures |EncodeInt(i)| <= |d|
  {
    hide ParseValue;
    IntegerForms(d, pool, i);
    Widths();
  }

  /** The tag says how many bytes the length takes; they are that length, and as few of
      1, 2 and 4 as can hold it. */
  lemma ShortestLength(tag: byte, n: nat)
    requires tag + 3 < 256 && 0 < n < MAXCOUNT
    ensures var e := EncodeLength(tag, n);
            && e[0] > tag && |e| == 1 + Width(e[0] - tag - 1) && FromBytes(e[1..]) == n
            && forall w | (w == 1 || w == 2 || w == 4) && n < Pow256(w) :: |e| <= 1 + w
  {
    Widths();
    var w := |EncodeLength(tag, n)| - 1;
    FromToBytes(n, w);
    assert EncodeLength(tag, n)[1..] == ToBytes(n, w);
  }

  // ---------------------------------------------------------------- byte for byte

  /** The bytes of a number, the low one first. */
  lemma {:induction false} ByteAt(n: nat, w: nat, k: nat)
    requires k < w
    ensures ToBytes(n, w)[k] == n / Pow256(k) % 256
  {
    if k > 0 {
      ByteAt(n / 256, w - 1, k - 1);
      DivideTwice(n, 256, Pow256(k - 1));
    }
  }

  lemma DivideTwice(n: nat, a: nat, b: nat)
    requires a > 0 && b > 0
    ensures a * b > 0 && n / a / b == n / (a * b)
  {
    var q, r := n / a, n % a;
    var q', r' := q / b, q % b;
    assert n == a * (b * q' + r') + r;
    Regroup(a, b, q', r');
    Bounded(a, b, r', r);
    Unique(n, a * b, q', a * r' + r);
  }

  lemma Regroup(a: nat, b: nat, q: nat, r: nat)
    ensures a * (b * q + r) == a * b * q + a * r
  {
  }

  lemma Bounded(a: nat, b: nat, r: nat, s: nat)
    requires r < b && s < a
    ensures a * r + s < a * b
  {
    assert a * r + a == a * (r + 1) && a * (r + 1) <= a * b;
  }

  /** A tag, and two's complement in the 1, 2, 4 or 8 bytes that the tag tells. */
  lemma NumberBytes(i: int)
    requires FitsSigned(i, 8)
    ensures i == 0 ==> EncodeInt(i) == [4]
    ensures i == 1 ==> EncodeInt(i) == [5]
    ensures i != 0 && i != 1 ==> InTwosComplement(i, EncodeInt(i))
  {
    hide ToBytes;
    Widths();
    var w := |EncodeInt(i)| - 1;
    var n := if i < 0 then i + Pow256(w) else i;
    forall k | 0 <= k < w ensures ToBytes(n, w)[k] == n / Pow256(k) % 256 {
      ByteAt(n, w, k);
    }
  }

  predicate InTwosComplement(i: int, e: seq<byte>) {
    && |e| > 1 && e[0] == (if |e| == 2 then 6 else if |e| == 3 then 7 else if |e| == 5 then 8 else 9)
    && |e| <= 9 && 0 <= i + (if i < 0 then Pow256(|e| - 1) else 0)
    && forall k: nat | k < |e| - 1 :: e[1 + k] == (i + (if i < 0 then Pow256(|e| - 1) else 0)) / Pow256(k) % 256
  }

  /** The file of a string of two bytes. */
  lemma TextFile(s: seq<byte>)
    requires |s| == 2
    ensures EncodeFile(LStr(s)) == Encoded([0x62, 0x74, 1, 0] + [1, 0, 0, 0] + ([2, 0] + s) + [13, 1], [s])
  {
    Short(s);
    KeyBytes(s);
    OneText(s);
    HeaderBytes();
    hide *;
    FileOfText(s);
  }

  lemma Short(s: seq<byte>)
    requires |s| == 2
    ensures PlainKey(StrKey(s))
  {
  }

  lemma FileOfText(s: seq<byte>)
    requires |s| == 2 && EncodeStored(s, []) == Encoded([13, 1], [s])
    ensures EncodeFile(LStr(s)) == Encoded(Header() + ToBytes(1, 4) + EncodePool([s]) + [13, 1], [s])
  {
    hide EncodeStored, EncodePool, Header, ToBytes;
  }

  lemma HeaderBytes()
    ensures Header() == [0x62, 0x74, 1, 0] && ToBytes(1, 4) == [1, 0, 0, 0]
  {
  }

  lemma OneText(s: seq<byte>)
    requires |s| == 2
    ensures EncodePool([s]) == [2, 0] + s
  {
    assert [s][1..] == [];
    assert EncodePool([]) == [];
    assert ToBytes(2, 2) == [2, 0];
  }

  /** `{true}` is written as an array. */
  lemma ArrayBytes(A: LValue)
    requires A == LTable([(At(1), LBool(true))], 1) && Valid(A)
    ensures EncodeValue(A, []) == Encoded([17, 1, 2], [])
  {
    TrueAt(A, At(1), []);
    hide Valid, EncodeAt;
    assert EncodeArray(A, 2, 1, []) == Encoded([], []);
    assert EncodeArray(A, 1, 1, []) == Encoded([2], []);
    assert EncodeLength(T_ARRAY0, 1) == [17, 1];
  }

  /** A table of one pair is the pair behind its size. */
  lemma OnePairTable(X: LValue, k: Key, pool: Pool)
    requires X.LTable? && Valid(X) && |X.entries| == 1 && X.border == 0 && X.entries[0].0 == k && PlainKey(k)
    requires EncodePair(X, k, pool).Encoded?
    ensures EncodeValue(X, pool) == Then(Encoded([21, 1], pool), EncodePair(X, k, pool))
  {
    OnePair(X, k, pool);
    SortedKeys(X);
    OneSorted(k);
    OneLength();
    hide Valid, PlainKey, SortKeys, EncodePair, EncodePairs, EncodeLength;
    assert Keys(X.entries) == [k];
  }

  lemma OneLength()
    ensures EncodeLength(T_TABLE0, 1) == [21, 1]
  {
  }

  lemma OnePair(X: LValue, k: Key, pool: Pool)
    requires X.LTable? && Valid(X) && PlainKey(k) && EncodePair(X, k, pool).Encoded?
    ensures EncodePairs(X, [k], pool) == EncodePair(X, k, pool)
  {
    hide EncodePair, Valid, PlainKey;
    var p := EncodePair(X, k, pool);
    assert [k][1..] == [];
    assert EncodePairs(X, [], p.pool) == Encoded([], p.pool);
    assert p.bytes + [] == p.bytes;
  }

  /** `{x = true}` is written as a table. */
  lemma PairBytes(X: LValue, x: Key)
    requires X == LTable([(x, LBool(true))], 0) && x == StrKey([120]) && Valid(X)
    ensures EncodeValue(X, []) == Encoded([21, 1] + ([13, 1] + [2]), [[120]])
  {
    hide *;
    PairIs(X, x);
    OnePairTable(X, x, []);
    ThenIs([21, 1], [], [13, 1] + [2], [[120]]);
  }

  lemma PairIs(X: LValue, x: Key)
    requires X == LTable([(x, LBool(true))], 0) && x == StrKey([120]) && Valid(X)
    ensures PlainKey(x) && EncodePair(X, x, []) == Encoded([13, 1] + [2], [[120]])
  {
    KeyBytes([120]);
    TrueAt(X, x, [[120]]);
    ThenIs([13, 1], [[120]], [2], [[120]]);
    PairThen(X, x, []);
    hide *;
  }

  lemma PairThen(t: LValue, k: Key, pool: Pool)
    requires t.LTable? && Valid(t) && PlainKey(k) && EncodeKey(k, pool).Encoded?
    ensures EncodePair(t, k, pool) == Then(EncodeKey(k, pool), EncodeAt(t, k, EncodeKey(k, pool).pool))
  {
    hide Valid, EncodeKey, EncodeAt, PlainKey;
  }

  lemma ThenIs(a: seq<byte>, p: Pool, b: seq<byte>, q: Pool)
    ensures Then(Encoded(a, p), Encoded(b, q)) == Encoded(a + b, q)
  {
  }

  /** The first string gets index 1. */
  lemma KeyBytes(s: seq<byte>)
    requires s != [] && PlainKey(StrKey(s))
    ensures EncodeKey(StrKey(s), []) == Encoded([13, 1], [s]) && EncodeStored(s, []) == Encoded([13, 1], [s])
  {
    assert PoolIndex([], s) == 0 && Store([], s) == [s] && PoolIndex([s], s) == 1;
    hide PoolIndex, Store;
  }

  lemma TrueAt(t: LValue, k: Key, pool: Pool)
    requires t.LTable? && Valid(t) && |t.entries| == 1 && t.entries[0] == (k, LBool(true))
    ensures EncodeAt(t, k, pool) == Encoded([2], pool)
  {
    assert Find(t.entries, k) == 0;
    hide Valid, Find;
  }

  /** Both are tables that a program can make. */
  lemma OneEntryValid()
    ensures Valid(LTable([(At(1), LBool(true))], 1)) && Valid(LTable([(StrKey([120]), LBool(true))], 0))
  {
    hide ValidNumber;
    SmallValid();
  }

  lemma SmallValid()
    ensures ValidNumber(Int(1))
  {
    ToDoubleNear(1);
  }

  lemma OneSorted(k: Key)
    ensures SortKeys([k]) == [k]
  {
    assert [k][1..] == [];
    assert SortKeys([]) == [];
  }

  // ---------------------------------------------------------------- keys

  /** Every value is a key but nil, NaN and what the format cannot carry. */
  lemma KeyExists(v: Value, pos: nat)
    ensures AsKey(v, pos).NoKey? <==> v == Nil || v == Other || (v.Num? && v.n.Frac? && IsNaN(v.n.bits))
  {
  }

  /** Different values are different keys; a table is itself only. */
  lemma KeysDiffer(v: Value, p: nat, w: Value, q: nat)
    requires AsKey(v, p).SomeKey? && AsKey(v, p) == AsKey(w, q)
    ensures if v.Table? then w.Table? && p == q else v == w
  {
  }

  /** The file of `{[true] = 1, [{}] = 0}`, its tables at 8 and 12. */
  lemma KeyFile(d: seq<byte>)
    requires d == [0x62, 0x74, 1, 0, 0, 0, 0, 0, 21, 2, 2, 5, 20, 4]
    ensures ParseFile(d) == Ok(Table(map[BoolKey(true) := Num(Int(1)), TableKey(12) := Num(Int(0))]), 14, 6)
  {
    HeaderOf(d);
    TagIs(d, 8);
    TagIs(d, 9);
    KeyPairs(d);
    FormParse(d, 8, []);
    hide ReadNum, ParseValue, ParseTable;
    assert ParsePool(d, 8, 0, []) == PoolOk([], 8);
  }

  lemma KeyPairs(d: seq<byte>)
    requires d == [0x62, 0x74, 1, 0, 0, 0, 0, 0, 21, 2, 2, 5, 20, 4]
    ensures ParseTable(d, 10, [], 2, map[], 1)
            == Ok(Table(map[BoolKey(true) := Num(Int(1)), TableKey(12) := Num(Int(0))]), 14, 5)
  {
    TagIs(d, 10);
    TagIs(d, 11);
    TagIs(d, 12);
    TagIs(d, 13);
    Simple(d, 10);
    Simple(d, 11);
    Simple(d, 12);
    Simple(d, 13);
    hide ReadNum, ParseValue;
    var one := map[BoolKey(true) := Num(Int(1))];
    var two := map[BoolKey(true) := Num(Int(1)), TableKey(12) := Num(Int(0))];
    assert one[TableKey(12) := Num(Int(0))] == two;
    assert ParseTable(d, 14, [], 0, two, 5) == Ok(Table(two), 14, 5);
    assert ParseTable(d, 12, [], 1, one, 3) == Ok(Table(two), 14, 5);
  }

  /** Values of one byte. */
  lemma Simple(d: seq<byte>, pos: nat)
    requires pos < |d|
    ensures d[pos] == 2 ==> ParseValue(d, pos, []) == Ok(Bool(true), pos + 1, 1)
    ensures d[pos] == 4 ==> ParseValue(d, pos, []) == Ok(Num(Int(0)), pos + 1, 1)
    ensures d[pos] == 5 ==> ParseValue(d, pos, []) == Ok(Num(Int(1)), pos + 1, 1)
    ensures d[pos] == 20 ==> ParseValue(d, pos, []) == Ok(Table(map[]), pos + 1, 1)
  {
    TagIs(d, pos);
    hide ReadNum;
  }

  lemma HeaderOf(d: seq<byte>)
    requires |d| >= 8 && d[..8] == [0x62, 0x74, 1, 0, 0, 0, 0, 0]
    ensures ReadNum(d, 0, 2) == MAGIC_NUMBER && ReadNum(d, 2, 2) == LUABT_VERSION && ReadNum(d, 4, 4) == 0
  {
    assert d[0..2] == d[..8][0..2] == [0x62, 0x74];
    assert d[2..4] == d[..8][2..4] == [1, 0];
    assert d[4..8] == d[..8][4..8] == [0, 0, 0, 0];
    Two(0x62, 0x74);
    Two(1, 0);
    Two(0, 0);
    assert FromBytes([0, 0, 0, 0]) == 256 * (256 * FromBytes([0, 0])) by {
      assert [0, 0, 0, 0][1..] == [0, 0, 0] && [0, 0, 0][1..] == [0, 0];
    }
  }

  lemma Two(a: byte, b: byte)
    ensures FromBytes([a, b]) == a + 256 * b
  {
    assert [b][1..] == [];
    assert FromBytes([b]) == b;
    assert [a, b][1..] == [b];
  }

  // ---------------------------------------------------------------- the order of keys

  /** Numbers come in their order, before all strings. */
  lemma NumbersFirst(i: int, j: int, s: seq<byte>)
    ensures KeyLess(At(i), At(j)) <==> i < j
    ensures KeyLess(At(i), StrKey(s)) && !KeyLess(StrKey(s), At(i))
  {
    hide Unit;
    Grows(i, j, Unit());
    Grows(j, i, Unit());
  }

  lemma Grows(i: int, j: int, u: nat)
    requires u > 0
    ensures i < j ==> i * u < j * u
  {
    if i < j {
      Below(i, j, u, 0);
    }
  }

  /** Strings compare at the first byte in which they differ, as bytes without a sign;
      a prefix comes before what it starts. */
  lemma StringsByBytes(p: seq<byte>, a: byte, x: seq<byte>, b: byte, y: seq<byte>)
    ensures a != b ==> (KeyLess(StrKey(p + [a] + x), StrKey(p + [b] + y)) <==> a < b)
    ensures KeyLess(StrKey(p), StrKey(p + [a] + x)) && !KeyLess(StrKey(p + [a] + x), StrKey(p))
  {
    var l, r := [a] + x, [b] + y;
    assert p + [a] + x == p + l && p + [b] + y == p + r && p + [] == p;
    LexPrefix(p, l, r);
    LexPrefix(p, [], l);
    LexPrefix(p, l, []);
  }

  /** The sorted keys of a table: numbers as they rise, then strings. */
  lemma SortedMeans(keys: seq<Key>, i: nat, j: nat)
    requires Ascending(keys) && AllPlain(keys) && i < j < |keys|
    ensures keys[i].StrKey? ==> keys[j].StrKey? && LexLess(keys[i].s, keys[j].s)
    ensures keys[j].NumKey? ==> keys[i].NumKey? && Numbers.Value(keys[i].n) < Numbers.Value(keys[j].n)
  {
    assert keys[i] in keys && keys[j] in keys;
    assert KeyLess(keys[i], keys[j]);
  }
}
