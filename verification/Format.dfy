/**
 The binary format: what the writer emits for a value, and what the reader makes
 of any bytes.
 */
module Format {
  import opened Bytes
  import opened Numbers
  import opened Floats
  import opened LuaValue
  import opened KeyOrder

  const T_EOF: byte := 0
  const T_NIL: byte := 1
  const T_TRUE: byte := 2
  const T_FALSE: byte := 3
  const T_ZERO: byte := 4
  const T_ONE: byte := 5
  const T_INT8: byte := 6
  const T_INT16: byte := 7
  const T_INT32: byte := 8
  const T_INT64: byte := 9
  const T_FLOAT: byte := 10
  const T_DOUBLE: byte := 11
  const T_STRING0: byte := 12
  const T_ARRAY0: byte := 16
  const T_TABLE0: byte := 20
  const T_MAX: byte := 24

  const MAGIC_NUMBER: nat := 0x7462
  const LUABT_VERSION: nat := 1

  // ---------------------------------------------------------------- the writer

  /** How a function of the codec ends: its two results, or a Lua error. */
  datatype Status = True | False | Error

  type Pool = seq<seq<byte>>

  predicate UniquePool(pool: Pool) {
    forall i, j | 0 <= i < j < |pool| :: pool[i] != pool[j]
  }

  /** The position, from 1, of a string in the pool; 0 if absent. */
  function PoolIndex(pool: Pool, s: seq<byte>): (r: nat)
    ensures r <= |pool| && (r > 0 ==> pool[r - 1] == s)
    ensures r == 0 ==> s !in pool
  {
    if pool == [] then 0
    else if pool[|pool| - 1] == s then |pool|
    else PoolIndex(pool[..|pool| - 1], s)
  }

  /** `storeString`: the pool grows by each new string. */
  function Store(pool: Pool, s: seq<byte>): Pool {
    if PoolIndex(pool, s) == 0 then pool + [s] else pool
  }

  function EncodeInt(i: int): seq<byte>
    requires FitsSigned(i, 8)
  {
    if i == 0 then [T_ZERO]
    else if i == 1 then [T_ONE]
    else if -0x80 <= i < 0x80 then [T_INT8] + ToSigned(i, 1)
    else if -0x8000 <= i < 0x8000 then [T_INT16] + ToSigned(i, 2)
    else if -0x8000_0000 <= i < 0x8000_0000 then [T_INT32] + ToSigned(i, 4)
    else [T_INT64] + ToSigned(i, 8)
  }

  function EncodeNumber(n: Number): seq<byte>
    requires ValidNumber(n)
  {
    if n.Int? then EncodeInt(n.i) else [T_DOUBLE] + n.bits
  }

  /** `writeLength`: a tag that says how many bytes the length takes. */
  function EncodeLength(tag: byte, n: nat): seq<byte>
    requires tag + 3 < 256
  {
    if n == 0 then [tag]
    else if n <= 0xff then [tag + 1] + ToBytes(n, 1)
    else if n <= 0xffff then [tag + 2] + ToBytes(n, 2)
    else [tag + 3] + ToBytes(n, 4)
  }

  function EncodeString(s: seq<byte>, pool: Pool): seq<byte> {
    if s == [] then [T_STRING0] else EncodeLength(T_STRING0, PoolIndex(Store(pool, s), s))
  }

  function PoolAfter(s: seq<byte>, pool: Pool): Pool {
    if s == [] then pool else Store(pool, s)
  }

  function EncodeKey(k: Key, pool: Pool): Encoded
    requires PlainKey(k)
  {
    if k.NumKey? then Encoded(EncodeNumber(k.n), pool) else EncodeStored(k.s, pool)
  }

  /** The bytes of a value, and the pool once they are written; or the writer's
      `false`; or a Lua error, because a table of its own overflows. */
  datatype Encoded = Encoded(bytes: seq<byte>, pool: Pool) | Unsupported | Overflow

  /** How the writer ends with it. */
  function StatusOf(e: Encoded): Status {
    match e
    case Encoded(_, _) => True
    case Unsupported => False
    case Overflow => Error
  }

  function Then(a: Encoded, b: Encoded): Encoded {
    if !a.Encoded? then a else if !b.Encoded? then b else Encoded(a.bytes + b.bytes, b.pool)
  }

  /** A string that is new to the pool needs a node of the table that finds indices. */
  function EncodeStored(s: seq<byte>, pool: Pool): Encoded {
    if s != [] && PoolIndex(pool, s) == 0 && |pool| >= MAXNODES then Overflow
    else Encoded(EncodeString(s, pool), PoolAfter(s, pool))
  }

  function EncodeValue(v: LValue, pool: Pool): Encoded
    requires Valid(v)
    decreases v
  {
    match v
    case LNil => Encoded([T_NIL], pool)
    case LBool(b) => Encoded([if b then T_TRUE else T_FALSE], pool)
    case LNum(n) => Encoded(EncodeNumber(n), pool)
    case LStr(s) => EncodeStored(s, pool)
    case LOther => Unsupported
    case LTable(entries, border) =>
      if |entries| == 0 then Encoded([T_TABLE0], pool)
      else if |entries| == border then
        Then(Encoded(EncodeLength(T_ARRAY0, border), pool), EncodeArray(v, 1, border, pool))
      else if |entries| > MAXLIST then Overflow
      else
        SortedKeys(v);
        Then(Encoded(EncodeLength(T_TABLE0, |entries|), pool), EncodePairs(v, SortKeys(Keys(entries)), pool))
  }

  lemma SortedKeys(t: LValue)
    requires t.LTable? && Valid(t)
    ensures var keys := SortKeys(Keys(t.entries));
            && Ascending(keys) && AllPlain(keys) && multiset(keys) == multiset(Keys(t.entries))
            && |keys| == |t.entries|
  {
    SortKeysAscends(Keys(t.entries));
    var keys := SortKeys(Keys(t.entries));
    assert |multiset(keys)| == |keys|;
    forall k | k in keys ensures PlainKey(k) {
      assert k in multiset(keys);
      assert k in Keys(t.entries);
    }
  }

  /** The value at a key; an absent one is nil. */
  function EncodeAt(t: LValue, k: Key, pool: Pool): Encoded
    requires t.LTable? && Valid(t)
    decreases t, 0, 0
  {
    var i := Find(t.entries, k);
    if i >= 0 then EncodeValue(t.entries[i].1, pool) else Encoded([T_NIL], pool)
  }

  /** Positions i..n. */
  function EncodeArray(t: LValue, i: nat, n: nat, pool: Pool): Encoded
    requires t.LTable? && Valid(t)
    decreases t, 1, if i <= n then n + 1 - i else 0
  {
    if i > n then Encoded([], pool)
    else
      var first := EncodeAt(t, At(i), pool);
      if !first.Encoded? then first else Then(first, EncodeArray(t, i + 1, n, first.pool))
  }

  /** Key and value, for each key of a list. */
  function EncodePairs(t: LValue, keys: seq<Key>, pool: Pool): Encoded
    requires t.LTable? && Valid(t) && forall k | k in keys :: PlainKey(k)
    decreases t, 1, |keys|
  {
    if keys == [] then Encoded([], pool)
    else
      var first := EncodePair(t, keys[0], pool);
      if !first.Encoded? then first else Then(first, EncodePairs(t, keys[1..], first.pool))
  }

  function EncodePair(t: LValue, k: Key, pool: Pool): Encoded
    requires t.LTable? && Valid(t) && PlainKey(k)
    decreases t, 0, 1
  {
    var key := EncodeKey(k, pool);
    if !key.Encoded? then key else Then(key, EncodeAt(t, k, key.pool))
  }

  function EncodePool(pool: Pool): seq<byte> {
    if pool == [] then [] else EncodeText(pool[0]) + EncodePool(pool[1..])
  }

  function EncodeText(s: seq<byte>): seq<byte> {
    ToBytes(|s|, 2) + s
  }

  function Header(): seq<byte> {
    ToBytes(MAGIC_NUMBER, 2) + ToBytes(LUABT_VERSION, 2)
  }

  /** The whole file: the pool is complete only after the body, but comes first. */
  function EncodeFile(v: LValue): Encoded
    requires Valid(v)
  {
    var body := EncodeValue(v, []);
    if !body.Encoded? then body
    else Encoded(Header() + ToBytes(|body.pool|, 4) + EncodePool(body.pool) + body.bytes, body.pool)
  }

  // ---------------------------------------------------------------- the reader

  /** `readNumber`: zero past the end, and the cursor moves in any case. */
  function Slice(data: seq<byte>, pos: nat, w: nat): (s: seq<byte>)
    ensures |s| == w
  {
    if pos + w <= |data| then data[pos..pos + w] else seq(w, i => 0)
  }

  function ReadNum(data: seq<byte>, pos: nat, w: nat): nat { FromBytes(Slice(data, pos, w)) }

  /** A value and the cursor behind it; or the reader's `false`; or a Lua error. In
      any case, how many values were built. */
  datatype Parsed = Ok(v: Value, pos: nat, count: nat) | Fail(count: nat) | Raise(count: nat)

  /** After `n` values that had been built before. */
  function Later(n: nat, r: Parsed): (r': Parsed)
    ensures r'.count == n + r.count
  {
    r.(count := n + r.count)
  }

  function Left(data: seq<byte>, pos: nat): nat { if pos < |data| then |data| - pos else 0 }

  /** The key under which raw assignment stores, if it accepts the key. A table is a
      key by its identity, here the place it was read from. */
  function AsKey(v: Value, pos: nat): Result {
    match v
    case Nil => NoKey
    case Bool(b) => SomeKey(BoolKey(b))
    case Num(n) => if n.Frac? && IsNaN(n.bits) then NoKey else SomeKey(NumKey(n))
    case Str(s) => SomeKey(StrKey(s))
    case Table(_) => SomeKey(TableKey(pos))
    case Other => NoKey
  }

  datatype Result = NoKey | SomeKey(k: Key)

  /** A float is refused as a key exactly if it is a NaN. */
  lemma FloatKey(bits: seq<byte>, pos: nat)
    requires |bits| == 4
    ensures AsKey(Num(FromFloat(bits)), pos).NoKey? <==> IsNaN32(bits)
  {
    hide FromFloat, IsNaN, IsNaN32;
    FloatNaN(bits);
  }

  function ParseString(pool: Pool, index: nat, pos: nat): Parsed {
    if index > |pool| then Fail(0)
    else Ok(if index == 0 then Nil else Str(pool[index - 1]), pos, 1)
  }

  function ParseValue(data: seq<byte>, pos: nat, pool: Pool): (r: Parsed)
    ensures r.Ok? ==> pos < |data| && pos < r.pos
    decreases Left(data, pos), 0, 0
  {
    var tag := ReadNum(data, pos, 1);
    var p := pos + 1;
    if pos >= |data| then Fail(0)
    else if tag == T_EOF as int || tag >= T_MAX as int then Fail(0)
    else if tag == T_NIL as int then Ok(Nil, p, 1)
    else if tag == T_TRUE as int then Ok(Bool(true), p, 1)
    else if tag == T_FALSE as int then Ok(Bool(false), p, 1)
    else if tag == T_ZERO as int then Ok(Num(Int(0)), p, 1)
    else if tag == T_ONE as int then Ok(Num(Int(1)), p, 1)
    else if tag <= T_INT64 as int then
      var w := Width(tag - 6);
      Ok(Num(Int(ToDouble(FromSigned(Slice(data, p, w))))), p + w, 1)
    else if tag == T_FLOAT as int then Ok(Num(FromFloat(Slice(data, p, 4))), p + 4, 1)
    else if tag == T_DOUBLE as int then Ok(Num(FromDouble(Slice(data, p, 8))), p + 8, 1)
    else if tag == T_STRING0 as int then Ok(Str([]), p, 1)
    else if tag < T_ARRAY0 as int then
      var w := Width(tag - 13);
      ParseString(pool, ReadNum(data, p, w), p + w)
    else if tag == T_ARRAY0 as int || tag == T_TABLE0 as int then Ok(Table(map[]), p, 1)
    else if tag < T_TABLE0 as int then
      ParseArrayForm(data, p, pool, Width(tag - 17))
    else
      ParseTableForm(data, p, pool, Width(tag - 21))
  }

  /** `lua_createtable` takes sizes as `int`: from 2^31 on they are negative, and it
      raises an error. */
  function ParseArrayForm(data: seq<byte>, pos: nat, pool: Pool, w: nat): (r: Parsed)
    ensures r.Ok? ==> pos + w <= r.pos
    decreases Left(data, pos), 2, 0
  {
    var size := ReadNum(data, pos, w);
    if size > MAX_INT then Raise(0) else ParseArray(data, pos + w, pool, size, 0, map[], 1)
  }

  /** It also does when no hash part can be as large. */
  function ParseTableForm(data: seq<byte>, pos: nat, pool: Pool, w: nat): (r: Parsed)
    ensures r.Ok? ==> pos + w <= r.pos
    decreases Left(data, pos), 2, 0
  {
    var size := ReadNum(data, pos, w);
    if size > MAXNODES then Raise(0) else ParseTable(data, pos + w, pool, size, map[], 1)
  }

  /** A tag that says how wide the size of a table is. */
  lemma FormParse(data: seq<byte>, pos: nat, pool: Pool)
    requires pos < |data|
    ensures var tag := ReadNum(data, pos, 1);
            && (T_ARRAY0 as int < tag < T_TABLE0 as int ==>
                  ParseValue(data, pos, pool) == ParseArrayForm(data, pos + 1, pool, Width(tag - 17)))
            && (T_TABLE0 as int < tag < T_MAX as int ==>
                  ParseValue(data, pos, pool) == ParseTableForm(data, pos + 1, pool, Width(tag - 21)))
  {
    hide ParseArrayForm, ParseTableForm;
  }

  function Width(i: nat): (w: nat)
    ensures w > 0
  {
    if i == 0 then 1 else if i == 1 then 2 else if i == 2 then 4 else 8
  }

  /** The elements `i + 1..size` of an array whose earlier ones are in `m`. */
  function ParseArray(data: seq<byte>, pos: nat, pool: Pool, size: nat, i: nat, m: map<Key, Value>, count: nat): (r: Parsed)
    ensures r.Ok? ==> pos <= r.pos
    decreases Left(data, pos), 1, if i < size then size - i else 0
  {
    if i >= size then Ok(Table(m), pos, count)
    else
      var e := ParseValue(data, pos, pool);
      if !e.Ok? then Later(count, e)
      else ParseArray(data, e.pos, pool, size, i + 1, Put(m, At(i + 1), e.v), count + e.count)
  }

  /** The remaining `n` pairs of a table. */
  function ParseTable(data: seq<byte>, pos: nat, pool: Pool, n: nat, m: map<Key, Value>, count: nat): (r: Parsed)
    ensures r.Ok? ==> pos <= r.pos
    decreases Left(data, pos), 1, n
  {
    if n == 0 then Ok(Table(m), pos, count)
    else
      var k := ParseValue(data, pos, pool);
      if !k.Ok? then Later(count, k)
      else
        var v := ParseValue(data, k.pos, pool);
        if !v.Ok? then Later(count + k.count, v)
        else if AsKey(k.v, pos).NoKey? then Raise(count + k.count + v.count)
        else ParseTable(data, v.pos, pool, n - 1, Put(m, AsKey(k.v, pos).k, v.v), count + k.count + v.count)
  }

  /** The pool and the cursor behind it, or failure after so many strings. */
  datatype ParsedPool = PoolOk(pool: Pool, pos: nat) | PoolFail(count: nat)

  /** The remaining `n` strings of the pool. */
  function ParsePool(data: seq<byte>, pos: nat, n: nat, pool: Pool): ParsedPool
    decreases n
  {
    if n == 0 then PoolOk(pool, pos)
    else
      var length := ReadNum(data, pos, 2);
      if length == 0 || pos + 2 + length > |data| then PoolFail(|pool|)
      else ParsePool(data, pos + 2 + length, n - 1, pool + [data[pos + 2..pos + 2 + length]])
  }

  /** `parseBinaryTable`; the values built include the pool, a table, and its strings.
      Sizes from 2^31 on are negative as `int`, and no table is made for them. */
  function ParseFile(data: seq<byte>): Parsed {
    if ReadNum(data, 0, 2) != MAGIC_NUMBER || ReadNum(data, 2, 2) != LUABT_VERSION then Fail(0)
    else if ReadNum(data, 4, 4) > MAX_INT then Raise(0)
    else
      var pool := ParsePool(data, 8, ReadNum(data, 4, 4), []);
      if pool.PoolFail? then Fail(1 + pool.count)
      else Later(1 + |pool.pool|, ParseValue(data, pool.pos, pool.pool))
  }
}
