/**
 Bytes, and the fixed-width little-endian integers of the binary format.
 */
module Bytes {

  type byte = x: int | 0 <= x < 256

  function Pow256(w: nat): (r: nat)
    ensures r > 0
  {
    if w == 0 then 1 else 256 * Pow256(w - 1)
  }

  /** The `w` low bytes of `n`, least significant first; higher ones are dropped. */
  function ToBytes(n: nat, w: nat): (s: seq<byte>)
    ensures |s| == w
  {
    if w == 0 then [] else [n % 256] + ToBytes(n / 256, w - 1)
  }

  function FromBytes(s: seq<byte>): nat {
    if s == [] then 0 else s[0] + 256 * FromBytes(s[1..])
  }

  lemma {:induction false} FromToBytes(n: nat, w: nat)
    requires n < Pow256(w)
    ensures FromBytes(ToBytes(n, w)) == n
  {
    if w > 0 {
      FromToBytes(n / 256, w - 1);
      assert ToBytes(n, w)[1..] == ToBytes(n / 256, w - 1);
    }
  }

  lemma {:induction false} FromBytesBound(s: seq<byte>)
    ensures FromBytes(s) < Pow256(|s|)
  {
    if s != [] {
      FromBytesBound(s[1..]);
    }
  }

  /** A different byte makes a different number. */
  lemma {:induction false} FromBytesInjective(s: seq<byte>, t: seq<byte>)
    requires |s| == |t| && FromBytes(s) == FromBytes(t)
    ensures s == t
  {
    if s != [] {
      FromBytesInjective(s[1..], t[1..]);
      assert s == [s[0]] + s[1..] && t == [t[0]] + t[1..];
    }
  }

  /** Two's complement in `w` bytes. */
  function ToSigned(i: int, w: nat): seq<byte>
    requires 0 - Pow256(w) < i
  {
    ToBytes(if i < 0 then i + Pow256(w) else i, w)
  }

  function FromSigned(s: seq<byte>): int {
    var n := FromBytes(s);
    if 2 * n >= Pow256(|s|) then n - Pow256(|s|) else n
  }

  predicate FitsSigned(i: int, w: nat) {
    0 - Pow256(w) <= 2 * i < Pow256(w)
  }

  lemma FromToSigned(i: int, w: nat)
    requires FitsSigned(i, w)
    ensures FromSigned(ToSigned(i, w)) == i
  {
    FromToBytes(if i < 0 then i + Pow256(w) else i, w);
  }

  lemma Widths()
    ensures Pow256(1) == 0x100 && Pow256(2) == 0x1_0000
    ensures Pow256(4) == 0x1_0000_0000 && Pow256(8) == 0x1_0000_0000_0000_0000
  {
  }
}
