/**
 The writer: a growing buffer, the string table that fills while the body is
 written, and the recursive descent over a value.
 */
module Writer {
  import opened Bytes
  import opened LuaValue
  import opened Format

  /** A byte buffer: `p` bytes are in use of the `buf.Length` it can hold. */
  class BinaryWriter {
    var buf: array<byte>
    var p: nat
    /** How many bytes all reallocations so far have copied. */
    ghost var copied: nat

    ghost predicate InBounds()
      reads this
    {
      p <= buf.Length
    }

    /** The cursor lies in the buffer, and growth has paid for itself: what was copied
        is less than twice what was written. */
    ghost predicate Valid()
      reads this
    {
      InBounds() && Amortised(copied, buf.Length, p)
    }

    ghost function Contents(): seq<byte>
      reads this, buf
      requires InBounds()
    {
      buf[..p]
    }

    constructor ()
      ensures Valid() && Contents() == [] && copied == 0 && buf.Length == 0 && fresh(buf)
    {
      buf := new byte[0];
      p := 0;
      copied := 0;
    }

    method Reserve(capacity: nat)
      requires InBounds()
      modifies this
      ensures InBounds() && Contents() == old(Contents()) && p == old(p)
      ensures buf.Length == if capacity > old(buf.Length) then capacity else old(buf.Length)
      ensures buf == old(buf) || fresh(buf)
      ensures copied == if capacity > old(buf.Length) then old(copied) + old(buf.Length) else old(copied)
    {
      if capacity > buf.Length {
        var grown := new byte[capacity](_ => 0);
        for i := 0 to p
          invariant p == old(p) && buf == old(buf) && InBounds() && p <= capacity && copied == old(copied)
          invariant grown[..i] == buf[..i] && buf[..] == old(buf[..])
        {
          grown[i] := buf[i];
        }
        copied := copied + buf.Length;
        buf := grown;
      }
    }

    /** Makes room for `size` more bytes, at least doubling the capacity. */
    method Ensure(size: nat)
      requires Valid()
      modifies this
      ensures InBounds() && Contents() == old(Contents()) && p == old(p) && p + size <= buf.Length
      ensures buf == old(buf) || fresh(buf)
      ensures Amortised(copied, buf.Length, p + size)
    {
      if p + size > buf.Length {
        var newCapacity := Max(p + size, buf.Length * 2);
        newCapacity := Max(8, newCapacity);
        Reserve(newCapacity);
      }
    }

    method WriteBytes(data: seq<byte>)
      requires Valid()
      modifies this, buf
      ensures Valid() && Contents() == old(Contents()) + data
      ensures buf == old(buf) || fresh(buf)
    {
      Ensure(|data|);
      ghost var before := Contents();
      forall i | 0 <= i < |data| {
        buf[p + i] := data[i];
      }
      p := p + |data|;
      assert buf[..p] == before + data;
    }

    method WriteType(tag: byte)
      requires Valid()
      modifies this, buf
      ensures Valid() && Contents() == old(Contents()) + [tag]
      ensures buf == old(buf) || fresh(buf)
    {
      WriteBytes([tag]);
    }

    /** `n` tab characters. */
    method WriteIndent(n: int)
      requires Valid()
      modifies this, buf
      ensures Valid() && Contents() == old(Contents()) + seq(if n > 0 then n else 0, _ => 9)
      ensures buf == old(buf) || fresh(buf)
    {
      ghost var before := Contents();
      if n > 0 {
        Ensure(n);
        ghost var room, c, q := buf, copied, p;
        for i := 0 to n
          invariant buf == room && copied == c && p == q + i && q + n <= buf.Length
          invariant buf[..q] == before && forall k | q <= k < p :: buf[k] == 9
        {
          buf[p] := 9;
          p := p + 1;
        }
      }
      assert Contents() == before + seq(if n > 0 then n else 0, _ => 9);
    }
  }

  predicate Amortised(copied: nat, capacity: nat, size: nat) {
    copied <= capacity && (copied == 0 || copied < 2 * size)
  }

  function Concat(chunks: seq<seq<byte>>): seq<byte> {
    if chunks == [] then [] else Concat(chunks[..|chunks| - 1]) + chunks[|chunks| - 1]
  }

  /** Whatever is written to a fresh writer, it holds all of it in order, and
      reallocations have copied at most twice as much. */
  method WriteInTurn(chunks: seq<seq<byte>>) returns (stream: BinaryWriter)
    ensures stream.Valid() && stream.Contents() == Concat(chunks)
    ensures stream.copied <= 2 * |Concat(chunks)|
  {
    stream := new BinaryWriter();
    for i := 0 to |chunks|
      invariant stream.Valid() && stream.Contents() == Concat(chunks[..i]) && fresh(stream) && fresh(stream.buf)
    {
      stream.WriteBytes(chunks[i]);
      assert chunks[..i + 1][..i] == chunks[..i];
    }
    assert chunks[..|chunks|] == chunks;
  }

  function Max(a: nat, b: nat): nat { if a > b then a else b }

  /** Strings in the order of their first use, and the way back from a string to
      its index. */
  class StringTable {
    var handle: map<seq<byte>, nat>
    var index2string: Pool
    var size: nat
    var cacheSize: nat

    ghost predicate Valid()
      reads this
    {
      && size == |index2string|
      && (forall i | 0 <= i < size :: index2string[i] in handle && handle[index2string[i]] == i + 1)
      && (forall s | s in handle :: 1 <= handle[s] <= size && index2string[handle[s] - 1] == s)
      && cacheSize == TotalLength(index2string)
    }

    constructor ()
      ensures Valid() && index2string == []
    {
      handle, index2string, size, cacheSize := map[], [], 0, 0;
    }

    /** Fails with a Lua error if the string is new and the table of indices has no
        node left for it. */
    method StoreString(s: seq<byte>) returns (ok: bool, index: nat)
      requires Valid()
      modifies this
      ensures ok <==> s in old(index2string) || |old(index2string)| < MAXNODES
      ensures ok ==> Valid() && index2string == Store(old(index2string), s) && index == PoolIndex(index2string, s) && index > 0
    {
      hide PoolIndex, TotalLength;
      ok := true;
      if s in handle {
        index := handle[s];
        OnlyIndex(index2string, s, index);
      } else {
        NoIndex(index2string, s);
        TotalLengthAppend(index2string, s);
        size := size + 1;
        cacheSize := cacheSize + |s|;
        if size > MAXNODES {
          return false, 0;
        }
        handle := handle[s := size];
        index2string := index2string + [s];
        index := size;
        OnlyIndex(index2string, s, index);
      }
    }

    /** The pool: how many strings, then each with its length. */
    method Write(stream: BinaryWriter)
      requires Valid() && stream.Valid()
      modifies stream, stream.buf
      ensures stream.Valid() && stream.Contents() == old(stream.Contents()) + (ToBytes(size, 4) + EncodePool(index2string))
      ensures stream.buf == old(stream.buf) || fresh(stream.buf)
    {
      hide EncodePool, ToBytes, TotalLength;
      ghost var before := stream.Contents() + ToBytes(size, 4);
      stream.WriteBytes(ToBytes(size, 4));
      assert index2string[..0] == [];
      NoPool();
      assert before + [] == before;
      for i := 0 to size
        invariant size == |index2string| && stream.Valid()
        invariant stream.buf == old(stream.buf) || fresh(stream.buf)
        invariant stream.Contents() == before + EncodePool(index2string[..i])
      {
        var str := index2string[i];
        stream.WriteBytes(ToBytes(|str|, 2));
        stream.WriteBytes(str);
        assert index2string[..i + 1] == index2string[..i] + [str];
        EncodePoolAppend(index2string[..i], str);
        Reassociate(before, EncodePool(index2string[..i]), ToBytes(|str|, 2), str);
      }
      assert index2string[..size] == index2string;
      Reassociate(old(stream.Contents()), ToBytes(size, 4), EncodePool(index2string), []);
      assert EncodePool(index2string) + [] == EncodePool(index2string);
    }
  }

  lemma Reassociate(a: seq<byte>, b: seq<byte>, c: seq<byte>, d: seq<byte>)
    ensures a + b + c + d == a + (b + (c + d))
    ensures a + b + c == a + (b + c)
  {
  }

  lemma NoPool()
    ensures EncodePool([]) == []
  {
  }

  ghost function TotalLength(pool: Pool): nat {
    if pool == [] then 0 else |pool[0]| + TotalLength(pool[1..])
  }

  lemma {:induction false} TotalLengthAppend(pool: Pool, s: seq<byte>)
    ensures TotalLength(pool + [s]) == TotalLength(pool) + |s|
  {
    if pool == [] {
      assert TotalLength([s]) == |s| + TotalLength([s][1..]);
      assert pool + [s] == [s];
    } else {
      assert (pool + [s])[1..] == pool[1..] + [s];
      TotalLengthAppend(pool[1..], s);
    }
  }

  lemma {:induction false} EncodePoolAppend(pool: Pool, s: seq<byte>)
    ensures EncodePool(pool + [s]) == EncodePool(pool) + (ToBytes(|s|, 2) + s)
  {
    if pool == [] {
      assert EncodePool([s]) == EncodeText(s) + EncodePool([s][1..]);
      assert pool + [s] == [s];
    } else {
      assert (pool + [s])[1..] == pool[1..] + [s];
      EncodePoolAppend(pool[1..], s);
    }
  }

  lemma {:induction false} OnlyIndex(pool: Pool, s: seq<byte>, index: nat)
    requires 1 <= index <= |pool| && pool[index - 1] == s
    requires forall i | 0 <= i < |pool| && pool[i] == s :: i == index - 1
    ensures PoolIndex(pool, s) == index
  {
    if pool[|pool| - 1] != s {
      OnlyIndex(pool[..|pool| - 1], s, index);
    }
  }

  lemma NoIndex(pool: Pool, s: seq<byte>)
    requires s !in pool
    ensures PoolIndex(pool, s) == 0
  {
  }
}
