/**
 The reader: a cursor over the input, the interpreter's stack, and the table of
 parse functions, against what the format makes of the bytes.
 */
module Reader {
  import opened Bytes
  import opened Numbers
  import opened Floats
  import opened LuaValue
  import opened Format

  class BinaryReader {
    const data: seq<byte>
    var p: nat

    constructor (data: seq<byte>)
      ensures this.data == data && p == 0
    {
      this.data := data;
      p := 0;
    }

    /** `w` raw bytes, zeros past the end; the cursor moves in any case. */
    method ReadRaw(w: nat) returns (s: seq<byte>)
      modifies this
      ensures s == Slice(data, old(p), w) && p == old(p) + w
    {
      if p + w <= |data| {
        s := data[p..p + w];
      } else {
        s := seq(w, i => 0);
      }
      p := p + w;
    }

    method ReadNumber(w: nat) returns (n: nat)
      modifies this
      ensures n == ReadNum(data, old(p), w) && p == old(p) + w
    {
      var s := ReadRaw(w);
      n := FromBytes(s);
    }

    method ReadBytes(length: nat) returns (ok: bool, s: seq<byte>)
      modifies this
      ensures ok == (old(p) + length <= |data|)
      ensures ok ==> s == data[old(p)..old(p) + length] && p == old(p) + length
      ensures !ok ==> p == |data|
    {
      if p + length <= |data| {
        ok, s := true, data[p..p + length];
        p := p + length;
      } else {
        ok, s := false, [];
        p := |data|;
      }
    }
  }

  class LuaState {
    var stack: seq<Value>
    /** How many values have been pushed so far. */
    ghost var built: nat

    method Push(v: Value)
      modifies this
      ensures stack == old(stack) + [v] && built == old(built) + 1
    {
      stack := stack + [v];
      built := built + 1;
    }

    /** `lua_createtable`: raises for a size that is negative as `int`, or for more nodes
        than a hash part can have. */
    method CreateTable(narray: nat, nrec: nat) returns (ok: bool)
      modifies this
      ensures ok <==> narray <= MAX_INT && nrec <= MAXNODES
      ensures ok ==> stack == old(stack) + [Table(map[])] && built == old(built) + 1
      ensures !ok ==> stack == old(stack) && built == old(built)
    {
      ok := narray <= MAX_INT && nrec <= MAXNODES;
      if ok {
        Push(Table(map[]));
      }
    }

    /** `t[i] = v` with `v` on top and `t` below it. */
    method RawSetI(i: int)
      requires |stack| >= 2 && stack[|stack| - 2].Table?
      modifies this`stack
      ensures stack == old(stack)[..|old(stack)| - 2]
                       + [Table(Put(old(stack)[|old(stack)| - 2].m, At(i), old(stack)[|old(stack)| - 1]))]
    {
      var n := |stack|;
      stack := stack[..n - 2] + [Table(Put(stack[n - 2].m, At(i), stack[n - 1]))];
    }

    /** `t[k] = v` with `v` on top, `k` and `t` below; raises for nil and NaN keys.
        `at` names a table that serves as a key. */
    method RawSet(at: nat) returns (ok: bool)
      requires |stack| >= 3 && stack[|stack| - 3].Table?
      modifies this`stack
      ensures ok == AsKey(old(stack)[|old(stack)| - 2], at).SomeKey?
      ensures ok ==> stack == old(stack)[..|old(stack)| - 3]
                              + [Table(Put(old(stack)[|old(stack)| - 3].m, AsKey(old(stack)[|old(stack)| - 2], at).k,
                                           old(stack)[|old(stack)| - 1]))]
      ensures !ok ==> stack == old(stack)
    {
      var n := |stack|;
      var k := AsKey(stack[n - 2], at);
      if k.NoKey? {
        return false;
      }
      stack := stack[..n - 3] + [Table(Put(stack[n - 3].m, k.k, stack[n - 1]))];
      return true;
    }

    method SetTop(n: nat)
      requires n <= |stack|
      modifies this`stack
      ensures stack == old(stack)[..n]
    {
      stack := stack[..n];
    }

    /** Removes the element at a position, from 1. */
    method Remove(i: nat)
      requires 1 <= i <= |stack|
      modifies this`stack
      ensures stack == old(stack)[..i - 1] + old(stack)[i..]
    {
      stack := stack[..i - 1] + stack[i..];
    }
  }

  /** The pool as the table that lies on the stack. */
  function PoolMap(pool: Pool): map<Key, Value> {
    if pool == [] then map[]
    else PoolMap(pool[..|pool| - 1])[At(|pool|) := Str(pool[|pool| - 1])]
  }

  lemma {:induction false} PoolMapIs(pool: Pool)
    ensures forall i: int :: At(i) in PoolMap(pool) <==> 1 <= i <= |pool|
    ensures forall i | 1 <= i <= |pool| :: PoolMap(pool)[At(i)] == Str(pool[i - 1])
  {
    if pool != [] {
      PoolMapIs(pool[..|pool| - 1]);
    }
  }

  lemma PoolMapAppend(pool: Pool, s: seq<byte>)
    ensures PoolMap(pool + [s]) == Put(PoolMap(pool), At(|pool| + 1), Str(s))
  {
    assert (pool + [s])[..|pool|] == pool;
  }

  class StringTable {
    var handle: nat
    var size: nat

    constructor ()
      ensures handle == 0 && size == 0
    {
      handle, size := 0, 0;
    }

    /** The pool table lies on the stack where the handle says. */
    ghost predicate On(stack: seq<Value>, pool: Pool)
      reads this
    {
      1 <= handle <= |stack| && size == |pool| && stack[handle - 1] == Table(PoolMap(pool))
    }

    /** An index beyond the pool fails; index 0 passes the test and finds nil. */
    method GetString(L: LuaState, strIndex: nat, ghost pool: Pool) returns (ok: bool)
      requires On(L.stack, pool)
      modifies L
      ensures ok == ParseString(pool, strIndex, 0).Ok?
      ensures ok ==> L.stack == old(L.stack) + [ParseString(pool, strIndex, 0).v]
      ensures !ok ==> L.stack == old(L.stack)
      ensures L.built == old(L.built) + ParseString(pool, strIndex, 0).count
    {
      PoolMapIs(pool);
      if strIndex <= size {
        var m := L.stack[handle - 1].m;
        L.Push(if At(strIndex) in m then m[At(strIndex)] else Nil);
        return true;
      }
      return false;
    }

    method Parse(L: LuaState, reader: BinaryReader) returns (status: Status, ghost pool: Pool)
      modifies this, L, reader
      ensures PoolOutcome(reader.data, old(reader.p), status, pool, reader.p, L.built - old(L.built))
      ensures status == True ==> L.stack == old(L.stack) + [Table(PoolMap(pool))]
      ensures status == True ==> handle == |old(L.stack)| + 1 && On(L.stack, pool)
      ensures old(L.stack) <= L.stack
    {
      hide PoolMap, ReadNum;
      size := reader.ReadNumber(4);
      ghost var whole := ParsePool(reader.data, reader.p, size, []);
      ghost var base := L.stack;
      pool := [];
      EmptyPool();
      var ok := L.CreateTable(size, 0);
      if !ok {
        return Error, pool;
      }
      handle := |L.stack|;
      var i := 0;
      while i < size
        invariant i <= size && size == old(ReadNum(reader.data, reader.p, 4)) && handle == |base| + 1
        invariant L.stack == base + [Table(PoolMap(pool))] && |pool| == i
        invariant whole == ParsePool(reader.data, reader.p, size - i, pool) && L.built == old(L.built) + 1 + i
      {
        var length := reader.ReadNumber(2);
        if length == 0 {
          return False, pool;
        }
        var got, str := reader.ReadBytes(length);
        if !got {
          return False, pool;
        }
        L.Push(Str(str));
        L.RawSetI(i + 1);
        PoolMapAppend(pool, str);
        pool := pool + [str];
        i := i + 1;
      }
      return True, pool;
    }
  }

  /** What parsing the pool comes to. */
  ghost predicate PoolOutcome(data: seq<byte>, pos: nat, status: Status, pool: Pool, end: nat, built: int) {
    var n := ReadNum(data, pos, 4);
    if n > MAX_INT then status == Error && built == 0
    else
      var r := ParsePool(data, pos + 4, n, []);
      built == 1 + PoolCount(r) && if r.PoolOk? then status == True && r == PoolOk(pool, end) else status == False
  }

  /** How many strings were built for the pool. */
  function PoolCount(r: ParsedPool): nat {
    match r
    case PoolOk(pool, _) => |pool|
    case PoolFail(count) => count
  }

  lemma EmptyPool()
    ensures PoolMap([]) == map[]
  {
  }

  // ---------------------------------------------------------------- the parse functions

  /** What a parse function leaves: one more value, or garbage above the stack it
      found; and it has built so many values. */
  ghost predicate Outcome(r: Parsed, status: Status, before: seq<Value>, after: seq<Value>, p: nat, built: int) {
    && before <= after && built == r.count
    && match r
       case Ok(v, pos, _) => status == True && after == before + [v] && p == pos
       case Fail(_) => status == False
       case Raise(_) => status == Error
  }

  method ParserValue(L: LuaState, strTable: StringTable, ghost pool: Pool, reader: BinaryReader) returns (status: Status)
    requires strTable.On(L.stack, pool)
    modifies L, reader
    ensures Outcome(ParseValue(reader.data, old(reader.p), pool), status, old(L.stack), L.stack, reader.p,
                    L.built - old(L.built))
    decreases Left(reader.data, reader.p), 0
  {
    ghost var before, start := L.stack, reader.p;
    hide FromBytes, ParseArrayForm, ParseTableForm, ParseString, FromSigned, FromDouble, FromFloat, ToDouble;
    var tag := reader.ReadNumber(1);
    TagPastEnd(reader.data, start);
    if tag >= T_MAX as int || tag == T_EOF as int {
      return False;
    }
    if tag == T_NIL as int {
      L.Push(Nil);
    } else if tag == T_TRUE as int {
      L.Push(Bool(true));
    } else if tag == T_FALSE as int {
      L.Push(Bool(false));
    } else if tag == T_ZERO as int {
      L.Push(Num(Int(0)));
    } else if tag == T_ONE as int {
      L.Push(Num(Int(1)));
    } else if tag <= T_DOUBLE as int {
      ParserNumber(L, reader, tag);
    } else if tag == T_STRING0 as int {
      L.Push(Str([]));
    } else if tag < T_ARRAY0 as int {
      var index := reader.ReadNumber(Width(tag - 13));
      StringAnywhere(pool, index, reader.p);
      var ok := strTable.GetString(L, index, pool);
      return if ok then True else False;
    } else if tag == T_ARRAY0 as int || tag == T_TABLE0 as int {
      L.Push(Table(map[]));
    } else if tag < T_TABLE0 as int {
      status := ParserArray(L, strTable, pool, reader, Width(tag - 17));
      return;
    } else {
      status := ParserTable(L, strTable, pool, reader, Width(tag - 21));
      return;
    }
    return True;
  }

  function NumberWidth(tag: nat): nat
    requires T_INT8 as int <= tag <= T_DOUBLE as int
  {
    if tag == T_FLOAT as int then 4 else if tag == T_DOUBLE as int then 8 else Width(tag - T_INT8 as int)
  }

  /** The bytes of a number, by its tag. */
  function NumberOf(tag: nat, s: seq<byte>): Number
    requires T_INT8 as int <= tag <= T_DOUBLE as int && |s| == NumberWidth(tag)
  {
    if tag == T_FLOAT as int then FromFloat(s) else if tag == T_DOUBLE as int then FromDouble(s) else Int(ToDouble(FromSigned(s)))
  }

  /** The payload of a number, in its own width. */
  method ParserNumber(L: LuaState, reader: BinaryReader, tag: nat)
    requires T_INT8 as int <= tag <= T_DOUBLE as int
    modifies L, reader
    ensures reader.p == old(reader.p) + NumberWidth(tag)
    ensures L.stack == old(L.stack) + [Num(NumberOf(tag, Slice(reader.data, old(reader.p), NumberWidth(tag))))]
    ensures L.built == old(L.built) + 1
  {
    if tag <= T_INT64 as int {
      var s := reader.ReadRaw(Width(tag - 6));
      L.Push(Num(Int(ToDouble(FromSigned(s)))));
    } else if tag == T_FLOAT as int {
      var s := reader.ReadRaw(4);
      L.Push(Num(FromFloat(s)));
    } else {
      var s := reader.ReadRaw(8);
      L.Push(Num(FromDouble(s)));
    }
  }

  /** Past the end a tag reads as 0, which no value starts with. */
  lemma TagPastEnd(data: seq<byte>, pos: nat)
    ensures pos >= |data| ==> ReadNum(data, pos, 1) == T_EOF as int
  {
    assert pos >= |data| ==> Slice(data, pos, 1) == [0];
    assert FromBytes([0]) == 0 + 256 * FromBytes([0][1..]);
  }

  lemma StringAnywhere(pool: Pool, index: nat, pos: nat)
    ensures ParseString(pool, index, pos)
            == if ParseString(pool, index, 0).Ok? then Ok(ParseString(pool, index, 0).v, pos, 1) else Fail(0)
  {
  }

  method ParserArray(L: LuaState, strTable: StringTable, ghost pool: Pool, reader: BinaryReader, w: nat)
    returns (status: Status)
    requires strTable.On(L.stack, pool)
    modifies L, reader
    ensures Outcome(ParseArrayForm(reader.data, old(reader.p), pool, w), status, old(L.stack), L.stack, reader.p,
                    L.built - old(L.built))
    decreases Left(reader.data, reader.p), 1
  {
    hide ParseValue;
    ghost var before, start := L.stack, reader.p;
    var size := reader.ReadNumber(w);
    ghost var whole := ParseArray(reader.data, reader.p, pool, size, 0, map[], 1);
    ghost var count: nat := 1;
    ghost var m: map<Key, Value> := map[];
    var made := L.CreateTable(size, 0);
    if !made {
      return Error;
    }
    for i := 0 to size
      invariant L.stack == before + [Table(m)] && start <= reader.p && L.built == old(L.built) + count
      invariant whole == ParseArray(reader.data, reader.p, pool, size, i, m, count)
    {
      ghost var e := ParseValue(reader.data, reader.p, pool);
      status := ParserValue(L, strTable, pool, reader);
      if status != True {
        return;
      }
      L.RawSetI(i + 1);
      m := Put(m, At(i + 1), e.v);
      count := count + e.count;
    }
    return True;
  }

  method ParserTable(L: LuaState, strTable: StringTable, ghost pool: Pool, reader: BinaryReader, w: nat)
    returns (status: Status)
    requires strTable.On(L.stack, pool)
    modifies L, reader
    ensures Outcome(ParseTableForm(reader.data, old(reader.p), pool, w), status, old(L.stack), L.stack, reader.p,
                    L.built - old(L.built))
    decreases Left(reader.data, reader.p), 1
  {
    hide ParseValue, AsKey, ReadNum, PoolMap, Put;
    ghost var before, start := L.stack, reader.p;
    var size := reader.ReadNumber(w);
    ghost var whole := ParseTable(reader.data, reader.p, pool, size, map[], 1);
    ghost var count: nat := 1;
    ghost var m: map<Key, Value> := map[];
    var made := L.CreateTable(0, size);
    if !made {
      return Error;
    }
    for i := 0 to size
      invariant L.stack == before + [Table(m)] && start <= reader.p && L.built == old(L.built) + count
      invariant whole == ParseTable(reader.data, reader.p, pool, size - i, m, count)
    {
      var at := reader.p;
      ghost var k := ParseValue(reader.data, reader.p, pool);
      status := ParserValue(L, strTable, pool, reader);
      if status != True {
        return;
      }
      ghost var v := ParseValue(reader.data, reader.p, pool);
      status := ParserValue(L, strTable, pool, reader);
      if status != True {
        return;
      }
      var ok := L.RawSet(at);
      if !ok {
        return Error;
      }
      m := Put(m, AsKey(k.v, at).k, v.v);
      count := count + k.count + v.count;
    }
    return True;
  }

  // ---------------------------------------------------------------- whole files

  function AsBytes(s: string): seq<byte> {
    seq(|s|, i requires 0 <= i < |s| => s[i] as int % 256)
  }

  function Decimal(n: nat): string {
    if n < 10 then ["0123456789"[n]] else Decimal(n / 10) + ["0123456789"[n % 10]]
  }

  /** `parseBinaryTable`: on success one value is pushed, on failure nil and a
      message, and nothing else changes on the stack. */
  method ParseBinaryTable(L: LuaState, data: seq<byte>) returns (status: Status, results: nat)
    modifies L
    ensures match ParseFile(data)
            case Ok(v, _, _) => status == True && results == 1 && L.stack == old(L.stack) + [v]
            case Fail(_) =>
              && status == True && results == 2 && |L.stack| == |old(L.stack)| + 2
              && old(L.stack) <= L.stack && L.stack[|old(L.stack)|] == Nil && L.stack[|old(L.stack)| + 1].Str?
            case Raise(_) => status == Error
    ensures L.built == old(L.built) + ParseFile(data).count + if results == 2 then 2 else 0
    ensures L.built <= old(L.built) + |data| + if results == 2 then 2 else 0
  {
    hide ParseValue, ParsePool, ReadNum, PoolMap, Decimal;
    FileCount(data);
    var top := |L.stack|;
    var reader := new BinaryReader(data);
    var magic := reader.ReadNumber(2);
    if magic != MAGIC_NUMBER {
      L.Push(Nil);
      L.Push(Str(AsBytes("Invalid file format %x")));
      return True, 2;
    }
    var version := reader.ReadNumber(2);
    if version != LUABT_VERSION {
      L.Push(Nil);
      L.Push(Str(AsBytes("Invalid file version " + Decimal(version))));
      return True, 2;
    }
    var strTable := new StringTable();
    ghost var pool;
    status, pool := strTable.Parse(L, reader);
    if status == Error {
      return Error, 0;
    }
    if status == True {
      status := ParserValue(L, strTable, pool, reader);
      if status == Error {
        return Error, 0;
      }
      if status == True {
        L.Remove(strTable.handle);
        return True, 1;
      }
    }
    L.SetTop(top);
    L.Push(Nil);
    L.Push(Str(AsBytes("Parse failed.")));
    return True, 2;
  }

  // ---------------------------------------------------------------- any bytes

  /** The input that is left for more values. */
  function LeftAfter(data: seq<byte>, r: Parsed): nat {
    if r.Ok? then Left(data, r.pos) else 0
  }

  /** However large the size fields claim to be, each value built owns at least one
      byte of the input. */
  lemma {:induction false} ValueCount(data: seq<byte>, pos: nat, pool: Pool)
    ensures var r := ParseValue(data, pos, pool); r.count + LeftAfter(data, r) <= Left(data, pos)
    decreases Left(data, pos), 0
  {
    hide ParseArray, ParseTable, FromSigned, FromDouble, FromFloat, ToDouble, FromBytes;
    if pos < |data| {
      var tag := ReadNum(data, pos, 1);
      if T_ARRAY0 as int < tag < T_TABLE0 as int {
        var w := Width(tag - 17);
        ArrayCount(data, pos + 1 + w, pool, ReadNum(data, pos + 1, w), 0, map[], 1);
      } else if T_TABLE0 as int < tag < T_MAX as int {
        var w := Width(tag - 21);
        TableCount(data, pos + 1 + w, pool, ReadNum(data, pos + 1, w), map[], 1);
      }
    }
  }

  lemma {:induction false} ArrayCount(data: seq<byte>, pos: nat, pool: Pool, size: nat, i: nat, m: map<Key, Value>, count: nat)
    ensures var r := ParseArray(data, pos, pool, size, i, m, count);
            r.count + LeftAfter(data, r) <= count + Left(data, pos)
    decreases Left(data, pos), 1, if i < size then size - i else 0
  {
    hide ParseValue;
    if i < size {
      ValueCount(data, pos, pool);
      var e := ParseValue(data, pos, pool);
      if e.Ok? {
        ArrayCount(data, e.pos, pool, size, i + 1, Put(m, At(i + 1), e.v), count + e.count);
      }
    }
  }

  lemma {:induction false} TableCount(data: seq<byte>, pos: nat, pool: Pool, n: nat, m: map<Key, Value>, count: nat)
    ensures var r := ParseTable(data, pos, pool, n, m, count);
            r.count + LeftAfter(data, r) <= count + Left(data, pos)
    decreases Left(data, pos), 1, n
  {
    hide ParseValue, AsKey;
    if n > 0 {
      ValueCount(data, pos, pool);
      var k := ParseValue(data, pos, pool);
      if k.Ok? {
        ValueCount(data, k.pos, pool);
        var v := ParseValue(data, k.pos, pool);
        if v.Ok? && AsKey(k.v, pos).SomeKey? {
          TableCount(data, v.pos, pool, n - 1, Put(m, AsKey(k.v, pos).k, v.v), count + k.count + v.count);
        }
      }
    }
  }

  /** A string of the pool owns three bytes. */
  lemma {:induction false} PoolBound(data: seq<byte>, pos: nat, n: nat, pool: Pool)
    ensures var r := ParsePool(data, pos, n, pool);
            && PoolCount(r) + (if r.PoolOk? then Left(data, r.pos) else 0) <= |pool| + Left(data, pos)
            && (r.PoolOk? ==> pos <= r.pos)
    decreases n
  {
    hide ReadNum;
    if n > 0 {
      var length := ReadNum(data, pos, 2);
      if length > 0 && pos + 2 + length <= |data| {
        PoolBound(data, pos + 2 + length, n - 1, pool + [data[pos + 2..pos + 2 + length]]);
      }
    }
  }

  /** Any bytes at all build no more values than there are bytes, however the parse
      ends. */
  lemma FileCount(data: seq<byte>)
    ensures ParseFile(data).count <= |data|
  {
    hide ParseValue, ParsePool, FromBytes;
    if ReadNum(data, 0, 2) == MAGIC_NUMBER {
      MagicInside(data);
      PoolBound(data, 8, ReadNum(data, 4, 4), []);
      var pool := ParsePool(data, 8, ReadNum(data, 4, 4), []);
      if pool.PoolOk? {
        ValueCount(data, pool.pos, pool.pool);
      }
    }
  }

  lemma MagicInside(data: seq<byte>)
    requires ReadNum(data, 0, 2) == MAGIC_NUMBER
    ensures |data| >= 2
  {
    if |data| < 2 {
      assert Slice(data, 0, 2) == [0, 0] == ToBytes(0, 2) by { assert ToBytes(0, 2) == [0] + ([0] + ToBytes(0, 0)); }
      FromToBytes(0, 2);
    }
  }

  lemma OneByte(a: byte)
    ensures FromBytes([a]) == a
  {
    assert [a][1..] == [];
  }

  lemma TwoBytes(a: byte, b: byte)
    ensures FromBytes([a, b]) == a + 0x100 * b
  {
    assert [a, b][1..] == [b];
    OneByte(b);
  }

  lemma FourBytes(a: byte, b: byte, c: byte, d: byte)
    ensures FromBytes([a, b, c, d]) == a + 0x100 * b + 0x1_0000 * c + 0x100_0000 * d
  {
    assert [a, b, c, d][1..] == [b, c, d] && [b, c, d][1..] == [c, d];
    TwoBytes(c, d);
  }

  /** Thirteen bytes that claim a table of 2^26 + 1 pairs: no table is made for them, and
      the call raises instead of returning nil and a message. */
  lemma OverflowInput()
    ensures ParseFile([0x62, 0x74, 1, 0, 0, 0, 0, 0, T_TABLE0 + 3, 1, 0, 0, 4]) == Raise(1)
  {
    hide FromBytes, ParseValue;
    var data: seq<byte> := [0x62, 0x74, 1, 0, 0, 0, 0, 0, T_TABLE0 + 3, 1, 0, 0, 4];
    TwoBytes(0x62, 0x74);
    TwoBytes(1, 0);
    FourBytes(0, 0, 0, 0);
    OneByte(T_TABLE0 + 3);
    FourBytes(1, 0, 0, 4);
    assert Slice(data, 0, 2) == [0x62, 0x74] && Slice(data, 2, 2) == [1, 0] && Slice(data, 4, 4) == [0, 0, 0, 0];
    assert Slice(data, 8, 1) == [T_TABLE0 + 3] && Slice(data, 9, 4) == [1, 0, 0, 4];
    assert ParsePool(data, 8, 0, []) == PoolOk([], 8);
    FormParse(data, 8, []);
  }
}
