/**
 The writer's recursive descent, step by step over a stream and a string table,
 against the bytes the format asks for.
 */
module WriteValue {
  import opened Bytes
  import opened Numbers
  import opened LuaValue
  import opened KeyOrder
  import opened Format
  import opened Writer
  import Quicksort

  method WriteInteger(stream: BinaryWriter, value: int)
    requires stream.Valid() && FitsSigned(value, 8)
    modifies stream, stream.buf
    ensures stream.Valid() && stream.Contents() == old(stream.Contents()) + EncodeInt(value)
    ensures stream.buf == old(stream.buf) || fresh(stream.buf)
  {
    Widths();
    hide ToSigned;
    if value == 0 {
      stream.WriteType(T_ZERO);
    } else if value == 1 {
      stream.WriteType(T_ONE);
    } else {
      var tag, w := T_INT64, 8;
      if value < 0 {
        if value >= -0x80 {
          tag, w := T_INT8, 1;
        } else if value >= -0x8000 {
          tag, w := T_INT16, 2;
        } else if value >= -0x8000_0000 {
          tag, w := T_INT32, 4;
        }
      } else {
        if value <= 0x7f {
          tag, w := T_INT8, 1;
        } else if value <= 0x7fff {
          tag, w := T_INT16, 2;
        } else if value <= 0x7fff_ffff {
          tag, w := T_INT32, 4;
        }
      }
      ghost var before := stream.Contents();
      stream.WriteType(tag);
      stream.WriteBytes(ToSigned(value, w));
      assert before + [tag] + ToSigned(value, w) == before + ([tag] + ToSigned(value, w));
    }
  }

  method WriteFloat(stream: BinaryWriter, bits: seq<byte>)
    requires stream.Valid()
    modifies stream, stream.buf
    ensures stream.Valid() && stream.Contents() == old(stream.Contents()) + ([T_DOUBLE] + bits)
    ensures stream.buf == old(stream.buf) || fresh(stream.buf)
  {
    ghost var before := stream.Contents();
    stream.WriteType(T_DOUBLE);
    stream.WriteBytes(bits);
    assert before + [T_DOUBLE] + bits == before + ([T_DOUBLE] + bits);
  }

  method WriteLength(stream: BinaryWriter, tag: byte, length: nat)
    requires stream.Valid() && tag + 3 < 256
    modifies stream, stream.buf
    ensures stream.Valid() && stream.Contents() == old(stream.Contents()) + EncodeLength(tag, length)
    ensures stream.buf == old(stream.buf) || fresh(stream.buf)
  {
    hide ToBytes;
    ghost var before := stream.Contents();
    if length == 0 {
      stream.WriteType(tag);
    } else {
      var more, w := 3, 4;
      if length <= 0xff {
        more, w := 1, 1;
      } else if length <= 0xffff {
        more, w := 2, 2;
      }
      stream.WriteType(tag + more);
      stream.WriteBytes(ToBytes(length, w));
      assert before + [tag + more] + ToBytes(length, w) == before + ([tag + more] + ToBytes(length, w));
    }
  }

  method WriteString(s: seq<byte>, strTable: StringTable, stream: BinaryWriter) returns (status: Status)
    requires strTable.Valid() && stream.Valid()
    modifies strTable, stream, stream.buf
    ensures (status != Error ==> strTable.Valid()) && stream.Valid() && (stream.buf == old(stream.buf) || fresh(stream.buf))
    ensures Written(status, EncodeStored(s, old(strTable.index2string)),
                    old(stream.Contents()), stream.Contents(), strTable.index2string)
  {
    if s == [] {
      stream.WriteType(T_STRING0);
    } else {
      KnownString(s, strTable.index2string);
      var ok, strIndex := strTable.StoreString(s);
      if !ok {
        return Error;
      }
      WriteLength(stream, T_STRING0, strIndex);
    }
    return True;
  }

  lemma KnownString(s: seq<byte>, pool: Pool)
    ensures s in pool <==> PoolIndex(pool, s) > 0
  {
  }

  method WriteNumber(n: Number, stream: BinaryWriter)
    requires stream.Valid() && ValidNumber(n)
    modifies stream, stream.buf
    ensures stream.Valid() && stream.Contents() == old(stream.Contents()) + EncodeNumber(n)
    ensures stream.buf == old(stream.buf) || fresh(stream.buf)
  {
    match n
    case Int(i) => WriteInteger(stream, i);
    case Frac(bits) => WriteFloat(stream, bits);
  }

  /** Collects the keys by traversal, in a list that may overflow, and sorts them in place. */
  method GetSortedTableKeys(t: LValue) returns (ok: bool, keys: seq<Key>)
    requires t.LTable? && Valid(t)
    ensures ok <==> |t.entries| <= MAXLIST
    ensures ok ==> keys == SortKeys(Keys(t.entries)) && |keys| == |t.entries|
    ensures forall i | 0 <= i < |keys| :: PlainKey(keys[i])
  {
    if |t.entries| > MAXLIST {
      return false, [];
    }
    ok := true;
    var a := new PlainKeys[|t.entries|](_ => StrKey([]));
    for n := 0 to |t.entries|
      invariant forall i | 0 <= i < n :: a[i] == t.entries[i].0
    {
      a[n] := t.entries[n].0;
    }
    ghost var listed := a[..];
    assert listed == Keys(t.entries);
    SortCmpStrictWeak();
    ghost var depth := Quicksort.Sort(a, (x: PlainKeys, y: PlainKeys) => SortCmp(x, y));
    SortedIsAscending(t, listed, a[..]);
    keys := a[..];
  }

  /** What the sort leaves is the one ascending list of the keys. */
  lemma SortedIsAscending(t: LValue, listed: seq<PlainKeys>, sorted: seq<PlainKeys>)
    requires t.LTable? && Valid(t)
    requires |listed| == |t.entries| && forall i | 0 <= i < |listed| :: listed[i] == t.entries[i].0
    requires multiset(sorted) == multiset(listed)
    requires Quicksort.Sorted((x: PlainKeys, y: PlainKeys) => SortCmp(x, y), sorted)
    ensures sorted == SortKeys(Keys(t.entries)) && |sorted| == |t.entries|
  {
    SortedKeys(t);
    hide Valid, SortCmp, KeyLess, PlainKey, SortKeys;
    assert |sorted| == |multiset(sorted)| == |multiset(listed)| == |listed|;
    var want := SortKeys(Keys(t.entries));
    var got: seq<Key> := sorted;
    SameElements(listed, Keys(t.entries));
    forall i, j | 0 <= i < j < |got| ensures KeyLess(got[i], got[j]) {
      DistinctStays(t, listed, sorted, i, j);
      SortCmpIsOrder(sorted[j], sorted[i]);
      KeyOrderTotal(sorted[i], sorted[j]);
      assert Quicksort.Le((x: PlainKeys, y: PlainKeys) => SortCmp(x, y), sorted[i], sorted[j]);
    }
    AsKeys(sorted, listed);
    AscendingUnique(want, got);
  }

  lemma SameElements(listed: seq<PlainKeys>, keys: seq<Key>)
    requires |listed| == |keys| && forall i | 0 <= i < |keys| :: keys[i] == listed[i]
    ensures (var s: seq<Key> := listed; s) == keys
  {
  }

  lemma AsKeys(s: seq<PlainKeys>, t: seq<PlainKeys>)
    requires multiset(s) == multiset(t)
    ensures var s': seq<Key>, t': seq<Key> := s, t; multiset(s') == multiset(t')
  {
  }

  lemma DistinctStays(t: LValue, listed: seq<PlainKeys>, sorted: seq<PlainKeys>, i: nat, j: nat)
    requires t.LTable? && Valid(t)
    requires |listed| == |t.entries| && forall i | 0 <= i < |listed| :: listed[i] == t.entries[i].0
    requires multiset(sorted) == multiset(listed) && i < j < |sorted|
    ensures sorted[i] != sorted[j]
  {
    hide Valid;
    AtMostOnce(t, listed, |listed|, sorted[i]);
    assert listed[..|listed|] == listed;
    TwiceIn(sorted, i, j);
  }

  lemma TwiceIn(s: seq<PlainKeys>, i: nat, j: nat)
    requires i < j < |s|
    ensures s[i] == s[j] ==> multiset(s)[s[i]] >= 2
  {
    hide PlainKey;
    assert s == s[..i] + [s[i]] + s[i + 1..j] + [s[j]] + s[j + 1..];
  }

  lemma {:induction false} AtMostOnce(t: LValue, listed: seq<PlainKeys>, n: nat, x: PlainKeys)
    requires t.LTable? && Valid(t) && n <= |listed|
    requires |listed| == |t.entries| && forall i | 0 <= i < |listed| :: listed[i] == t.entries[i].0
    ensures multiset(listed[..n])[x] <= 1
    ensures multiset(listed[..n])[x] == 1 ==> exists i :: 0 <= i < n && listed[i] == x
  {
    hide Valid;
    if n > 0 {
      AtMostOnce(t, listed, n - 1, x);
      assert listed[..n] == listed[..n - 1] + [listed[n - 1]];
      if listed[n - 1] == x && multiset(listed[..n - 1])[x] == 1 {
        var i :| 0 <= i < n - 1 && listed[i] == x;
        KeysDiffer(t, i, n - 1);
      }
    }
  }

  lemma KeysDiffer(t: LValue, i: nat, j: nat)
    requires t.LTable? && Valid(t) && i < j < |t.entries|
    ensures t.entries[i].0 != t.entries[j].0
  {
  }

  // ---------------------------------------------------------------- tables and values

  lemma Append(a: seq<byte>, b: seq<byte>, c: seq<byte>)
    ensures a + b + c == a + (b + c)
  {
  }

  lemma AfterLength(a: seq<byte>, b: seq<byte>, e: Encoded)
    ensures e.Encoded? ==> a + b + e.bytes == a + (b + e.bytes)
  {
  }

  lemma StartArray(t: LValue, pool: Pool)
    requires t.LTable? && Valid(t)
    ensures var e := EncodeArray(t, 1, t.border, pool); e == Then(Encoded([], pool), e)
  {
  }

  /** One element moves from what is to be written to what is. */
  lemma StepArray(t: LValue, done: seq<byte>, i: nat, pool: Pool)
    requires t.LTable? && Valid(t) && i <= t.border
    ensures var first := EncodeAt(t, At(i), pool);
            var whole := Then(Encoded(done, pool), EncodeArray(t, i, t.border, pool));
            if !first.Encoded? then whole == first
            else whole == Then(Encoded(done + first.bytes, first.pool), EncodeArray(t, i + 1, t.border, first.pool))
  {
    hide EncodeAt, Valid;
    var first := EncodeAt(t, At(i), pool);
    if first.Encoded? {
      var rest := EncodeArray(t, i + 1, t.border, first.pool);
      if rest.Encoded? {
        Append(done, first.bytes, rest.bytes);
      }
    }
  }

  lemma EndArray(t: LValue, done: seq<byte>, i: nat, pool: Pool)
    requires t.LTable? && Valid(t) && i == t.border + 1
    ensures Then(Encoded(done, pool), EncodeArray(t, i, t.border, pool)) == Encoded(done, pool)
  {
  }

  lemma StartPairs(t: LValue, keys: seq<Key>, pool: Pool)
    requires t.LTable? && Valid(t) && forall k | k in keys :: PlainKey(k)
    ensures keys[0..] == keys
    ensures var e := EncodePairs(t, keys, pool); e == Then(Encoded([], pool), e)
  {
  }

  /** One pair moves from what is to be written to what is. */
  lemma StepPairs(t: LValue, done: seq<byte>, keys: seq<Key>, i: nat, pool: Pool)
    requires t.LTable? && Valid(t) && i < |keys| && forall k | k in keys :: PlainKey(k)
    ensures forall k | k in keys[i..] :: PlainKey(k)
    ensures forall k | k in keys[i + 1..] :: PlainKey(k)
    ensures var first := EncodePair(t, keys[i], pool);
            var whole := Then(Encoded(done, pool), EncodePairs(t, keys[i..], pool));
            if !first.Encoded? then whole == first
            else whole == Then(Encoded(done + first.bytes, first.pool), EncodePairs(t, keys[i + 1..], first.pool))
  {
    assert forall k | k in keys[i..] :: k in keys;
    assert forall k | k in keys[i + 1..] :: k in keys;
    hide EncodePair, Valid, PlainKey;
    assert keys[i..][0] == keys[i] && keys[i..][1..] == keys[i + 1..];
    var first := EncodePair(t, keys[i], pool);
    if first.Encoded? {
      var rest := EncodePairs(t, keys[i + 1..], first.pool);
      if rest.Encoded? {
        Append(done, first.bytes, rest.bytes);
      }
    }
  }

  lemma EndPairs(t: LValue, done: seq<byte>, keys: seq<Key>, pool: Pool)
    requires t.LTable? && Valid(t)
    ensures (forall k | k in keys[|keys|..] :: PlainKey(k))
    ensures Then(Encoded(done, pool), EncodePairs(t, keys[|keys|..], pool)) == Encoded(done, pool)
  {
  }

  /** The elements of an array form, read by index. */
  method WriteArray(t: LValue, strTable: StringTable, stream: BinaryWriter) returns (status: Status)
    requires t.LTable? && Valid(t) && strTable.Valid() && stream.Valid()
    modifies strTable, stream, stream.buf
    ensures (status != Error ==> strTable.Valid()) && stream.Valid() && (stream.buf == old(stream.buf) || fresh(stream.buf))
    ensures Written(status, EncodeArray(t, 1, t.border, old(strTable.index2string)),
                    old(stream.Contents()), stream.Contents(), strTable.index2string)
    decreases t, 1
  {
    hide EncodeArray, EncodeAt, Valid, Then;
    ghost var before := stream.Contents();
    ghost var whole := EncodeArray(t, 1, t.border, strTable.index2string);
    ghost var done: seq<byte> := [];
    StartArray(t, strTable.index2string);
    var i := 1;
    while i <= t.border
      invariant 1 <= i <= t.border + 1
      invariant strTable.Valid() && stream.Valid() && (stream.buf == old(stream.buf) || fresh(stream.buf))
      invariant stream.Contents() == before + done
      invariant whole == Then(Encoded(done, strTable.index2string), EncodeArray(t, i, t.border, strTable.index2string))
    {
      ghost var pool := strTable.index2string;
      StepArray(t, done, i, pool);
      status := WriteAt(t, At(i), strTable, stream);
      if status != True {
        return;
      }
      Append(before, done, EncodeAt(t, At(i), pool).bytes);
      done := done + EncodeAt(t, At(i), pool).bytes;
      i := i + 1;
    }
    EndArray(t, done, i, strTable.index2string);
    return True;
  }

  /** The pairs of a table form, in the order of the sorted keys. */
  method WritePairs(t: LValue, keys: seq<Key>, strTable: StringTable, stream: BinaryWriter) returns (status: Status)
    requires t.LTable? && Valid(t) && strTable.Valid() && stream.Valid()
    requires forall k | k in keys :: PlainKey(k)
    modifies strTable, stream, stream.buf
    ensures (status != Error ==> strTable.Valid()) && stream.Valid() && (stream.buf == old(stream.buf) || fresh(stream.buf))
    ensures Written(status, EncodePairs(t, keys, old(strTable.index2string)),
                    old(stream.Contents()), stream.Contents(), strTable.index2string)
    decreases t, 1
  {
    hide EncodePairs, EncodePair, EncodeAt, EncodeKey, Valid, Then, PlainKey;
    ghost var before := stream.Contents();
    ghost var whole := EncodePairs(t, keys, strTable.index2string);
    ghost var done: seq<byte> := [];
    StartPairs(t, keys, strTable.index2string);
    var i := 0;
    while i < |keys|
      invariant 0 <= i <= |keys|
      invariant strTable.Valid() && stream.Valid() && (stream.buf == old(stream.buf) || fresh(stream.buf))
      invariant stream.Contents() == before + done
      invariant forall k | k in keys[i..] :: PlainKey(k)
      invariant whole == Then(Encoded(done, strTable.index2string), EncodePairs(t, keys[i..], strTable.index2string))
    {
      ghost var pool := strTable.index2string;
      assert keys[i] in keys;
      StepPairs(t, done, keys, i, pool);
      status := WritePair(t, keys[i], strTable, stream);
      if status != True {
        return;
      }
      Append(before, done, EncodePair(t, keys[i], pool).bytes);
      done := done + EncodePair(t, keys[i], pool).bytes;
      i := i + 1;
    }
    EndPairs(t, done, keys, strTable.index2string);
    return True;
  }

  method WritePair(t: LValue, k: Key, strTable: StringTable, stream: BinaryWriter) returns (status: Status)
    requires t.LTable? && Valid(t) && PlainKey(k) && strTable.Valid() && stream.Valid()
    modifies strTable, stream, stream.buf
    ensures (status != Error ==> strTable.Valid()) && stream.Valid() && (stream.buf == old(stream.buf) || fresh(stream.buf))
    ensures Written(status, EncodePair(t, k, old(strTable.index2string)),
                    old(stream.Contents()), stream.Contents(), strTable.index2string)
    decreases t, 0, 1
  {
    hide EncodePair, EncodeKey, EncodeAt, Valid, PlainKey, Then;
    PairIs(t, k, strTable.index2string, stream.Contents());
    status := WriteKey(k, strTable, stream);
    if status == True {
      status := WriteAt(t, k, strTable, stream);
    }
  }

  lemma PairIs(t: LValue, k: Key, pool: Pool, before: seq<byte>)
    requires t.LTable? && Valid(t) && PlainKey(k)
    ensures var key, pair := EncodeKey(k, pool), EncodePair(t, k, pool);
            if !key.Encoded? then pair == key
            else
              var value := EncodeAt(t, k, key.pool);
              if !value.Encoded? then pair == value
              else pair.Encoded? && pair.pool == value.pool && before + key.bytes + value.bytes == before + pair.bytes
  {
    hide EncodeAt, Valid, EncodeKey;
    var key := EncodeKey(k, pool);
    if key.Encoded? {
      AfterLength(before, key.bytes, EncodeAt(t, k, key.pool));
    }
  }

  method WriteKey(k: Key, strTable: StringTable, stream: BinaryWriter) returns (status: Status)
    requires PlainKey(k) && strTable.Valid() && stream.Valid()
    modifies strTable, stream, stream.buf
    ensures (status != Error ==> strTable.Valid()) && stream.Valid() && (stream.buf == old(stream.buf) || fresh(stream.buf))
    ensures Written(status, EncodeKey(k, old(strTable.index2string)),
                    old(stream.Contents()), stream.Contents(), strTable.index2string)
  {
    match k
    case NumKey(n) =>
      WriteNumber(n, stream);
      return True;
    case StrKey(s) =>
      status := WriteString(s, strTable, stream);
  }

  /** The value at a key, nil if there is none. */
  method WriteAt(t: LValue, k: Key, strTable: StringTable, stream: BinaryWriter) returns (status: Status)
    requires t.LTable? && Valid(t) && strTable.Valid() && stream.Valid()
    modifies strTable, stream, stream.buf
    ensures (status != Error ==> strTable.Valid()) && stream.Valid() && (stream.buf == old(stream.buf) || fresh(stream.buf))
    ensures Written(status, EncodeAt(t, k, old(strTable.index2string)),
                    old(stream.Contents()), stream.Contents(), strTable.index2string)
    decreases t, 0, 0
  {
    var i := Find(t.entries, k);
    if i >= 0 {
      status := WriteAny(t.entries[i].1, strTable, stream);
    } else {
      stream.WriteType(T_NIL);
      status := True;
    }
  }

  lemma TableForms(t: LValue, pool: Pool)
    requires t.LTable? && Valid(t)
    ensures forall k | k in SortKeys(Keys(t.entries)) :: PlainKey(k)
    ensures EncodeValue(t, pool) ==
            if |t.entries| == 0 then Encoded([T_TABLE0], pool)
            else if |t.entries| == t.border then
              Then(Encoded(EncodeLength(T_ARRAY0, t.border), pool), EncodeArray(t, 1, t.border, pool))
            else if |t.entries| > MAXLIST then Overflow
            else
              Then(Encoded(EncodeLength(T_TABLE0, |t.entries|), pool), EncodePairs(t, SortKeys(Keys(t.entries)), pool))
  {
    SortedKeys(t);
  }

  method WriteTable(t: LValue, strTable: StringTable, stream: BinaryWriter) returns (status: Status)
    requires t.LTable? && Valid(t) && strTable.Valid() && stream.Valid()
    modifies strTable, stream, stream.buf
    ensures (status != Error ==> strTable.Valid()) && stream.Valid() && (stream.buf == old(stream.buf) || fresh(stream.buf))
    ensures Written(status, EncodeValue(t, old(strTable.index2string)),
                    old(stream.Contents()), stream.Contents(), strTable.index2string)
    decreases t, 2
  {
    hide EncodeArray, EncodePairs, EncodeLength, EncodeValue, Valid, SortKeys, PlainKey;
    TableForms(t, strTable.index2string);
    ghost var before := stream.Contents();
    var length := |t.entries|;
    if length == 0 {
      stream.WriteType(T_TABLE0);
      status := True;
    } else if length == t.border {
      WriteLength(stream, T_ARRAY0, length);
      status := WriteArray(t, strTable, stream);
      AfterLength(before, EncodeLength(T_ARRAY0, length), EncodeArray(t, 1, t.border, old(strTable.index2string)));
    } else {
      WriteLength(stream, T_TABLE0, length);
      var ok, keys := GetSortedTableKeys(t);
      if !ok {
        return Error;
      }
      status := WritePairs(t, keys, strTable, stream);
      AfterLength(before, EncodeLength(T_TABLE0, length), EncodePairs(t, keys, old(strTable.index2string)));
    }
  }

  method WriteAny(v: LValue, strTable: StringTable, stream: BinaryWriter) returns (status: Status)
    requires Valid(v) && strTable.Valid() && stream.Valid()
    modifies strTable, stream, stream.buf
    ensures (status != Error ==> strTable.Valid()) && stream.Valid() && (stream.buf == old(stream.buf) || fresh(stream.buf))
    ensures Written(status, EncodeValue(v, old(strTable.index2string)),
                    old(stream.Contents()), stream.Contents(), strTable.index2string)
    decreases v, 3
  {
    match v
    case LNil =>
      stream.WriteType(T_NIL);
      status := True;
    case LBool(b) =>
      if b {
        stream.WriteType(T_TRUE);
      } else {
        stream.WriteType(T_FALSE);
      }
      status := True;
    case LNum(n) =>
      WriteNumber(n, stream);
      status := True;
    case LStr(s) =>
      status := WriteString(s, strTable, stream);
    case LTable(_, _) =>
      status := WriteTable(v, strTable, stream);
    case LOther =>
      status := False;
  }

  /** Success exactly if there is an encoding, which then was appended; and an error
      exactly on overflow. */
  ghost predicate Written(status: Status, e: Encoded, before: seq<byte>, after: seq<byte>, pool: Pool) {
    status == StatusOf(e) && (e.Encoded? ==> after == before + e.bytes && pool == e.pool)
  }

  function FileOf(pool: Pool, body: seq<byte>): seq<byte> {
    Header() + ToBytes(|pool|, 4) + EncodePool(pool) + body
  }

  /** Header, pool and body in one stream. */
  method Assemble(strTable: StringTable, body: seq<byte>) returns (data: seq<byte>, ghost copied: nat)
    requires strTable.Valid()
    ensures data == FileOf(strTable.index2string, body)
    ensures copied <= 2 * |data|
  {
    hide EncodePool, ToBytes;
    var stream := new BinaryWriter();
    stream.Reserve(4 + strTable.cacheSize + |body|);
    stream.WriteBytes(ToBytes(MAGIC_NUMBER, 2));
    stream.WriteBytes(ToBytes(LUABT_VERSION, 2));
    strTable.Write(stream);
    stream.WriteBytes(body);
    data, copied := stream.buf[..stream.p], stream.copied;
    FileBytes(ToBytes(MAGIC_NUMBER, 2), ToBytes(LUABT_VERSION, 2), ToBytes(strTable.size, 4),
              EncodePool(strTable.index2string), body);
  }

  /** `writeBinaryTable`: the body is written to a stream of its own, because the
      pool that goes before it is known only then. Reallocations of both streams copy
      at most four times the file. */
  method WriteBinaryTable(v: LValue) returns (status: Status, data: seq<byte>, ghost copied: nat)
    requires Valid(v)
    ensures status == StatusOf(EncodeFile(v))
    ensures status == True ==> data == EncodeFile(v).bytes
    ensures status == True ==> copied <= 4 * |data|
  {
    hide Valid, EncodeValue, FileOf, EncodeFile;
    FileIs(v);
    var strTable := new StringTable();
    var dataWriter := new BinaryWriter();
    status := WriteAny(v, strTable, dataWriter);
    if status == True {
      var body := dataWriter.buf[..dataWriter.p];
      data, copied := Assemble(strTable, body);
      BodyInside(strTable.index2string, body);
      copied := copied + dataWriter.copied;
      assert [] + EncodeValue(v, []).bytes == EncodeValue(v, []).bytes;
    } else {
      data, copied := [], dataWriter.copied;
    }
  }

  lemma BodyInside(pool: Pool, body: seq<byte>)
    ensures |body| <= |FileOf(pool, body)|
  {
  }

  lemma FileIs(v: LValue)
    requires Valid(v)
    ensures var body := EncodeValue(v, []);
            EncodeFile(v) == if !body.Encoded? then body else Encoded(FileOf(body.pool, body.bytes), body.pool)
  {
  }

  lemma FileBytes(a: seq<byte>, b: seq<byte>, c: seq<byte>, d: seq<byte>, e: seq<byte>)
    ensures [] + a + b + (c + d) + e == a + b + c + d + e
    ensures [] + e == e
  {
  }
}
