/**
 Single precision: the double that a float denotes.
 */
module Floats {
  import opened Bytes
  import opened Numbers

  const SIGN32: nat := 0x8000_0000
  const HIDDEN32: nat := 0x80_0000

  /** The highest one bit. */
  function TopBit(n: nat): (k: nat)
    requires n > 0
    ensures Pow2(k) <= n < Pow2(k + 1)
  {
    if n == 1 then 0 else 1 + TopBit(n / 2)
  }

  /** The bits of the double `f` * 2^-149: what is a subnormal float is a normal double. */
  function Normalised(f: nat): nat
    requires 0 < f < HIDDEN32
  {
    var k := TopBit(f);
    (k + 874) * HIDDEN + TimesPow2(f - Pow2(k), if k < 52 then 52 - k else 0)
  }

  /** The bits of a float below the sign, as bits of a double. */
  function WidenBits(n: nat): nat
    requires n < SIGN32
  {
    var e, f := n / HIDDEN32, n % HIDDEN32;
    if e == 0xff then 0x7ff * HIDDEN + f * 0x2000_0000
    else if e > 0 then (e + 896) * HIDDEN + f * 0x2000_0000
    else if f == 0 then 0
    else Normalised(f)
  }

  function Widen(bits: seq<byte>): (d: seq<byte>)
    requires |bits| == 4
    ensures |d| == 8
  {
    var n := FromBytes(bits);
    ToBytes(if n >= SIGN32 then SIGN + WidenBits(n % SIGN32) else WidenBits(n), 8)
  }

  function FromFloat(bits: seq<byte>): Number
    requires |bits| == 4
  {
    FromDouble(Widen(bits))
  }

  // ---------------------------------------------------------------- exactness

  /** A finite float is an integer multiple of 2^-149. */
  function Magnitude32(n: nat): nat {
    var e, f := n / HIDDEN32, n % HIDDEN32;
    if e == 0 then f else (HIDDEN32 + f) * Pow2(e - 1)
  }

  /** In units of 2^-1074, as `Scaled` is for doubles. */
  function Scaled32(bits: seq<byte>): int {
    var n := FromBytes(bits);
    (if n >= SIGN32 then 0 - Magnitude32(n % SIGN32) else Magnitude32(n % SIGN32)) * Pow2(925)
  }

  predicate Finite32(bits: seq<byte>) {
    |bits| == 4 && FromBytes(bits) % SIGN32 / HIDDEN32 != 0xff
  }

  predicate IsNaN32(bits: seq<byte>) {
    |bits| == 4 && FromBytes(bits) % SIGN32 > 0xff * HIDDEN32
  }

  /** Bits put together from an exponent and a fraction. */
  lemma Parts(e: nat, f: nat)
    requires f < HIDDEN
    ensures (e * HIDDEN + f) / HIDDEN == e && (e * HIDDEN + f) % HIDDEN == f
  {
  }

  lemma Powers()
    ensures Pow2(23) == HIDDEN32 && Pow2(29) == 0x2000_0000 && Pow2(52) == HIDDEN
  {
    assert Pow2(5) == 32 && Pow2(6) == 64 && Pow2(8) == 256;
    PowAdd(8, 8);
    PowAdd(16, 8);
    PowAdd(24, 5);
    PowAdd(23, 29);
  }

  lemma TopBitBelow(f: nat)
    requires 0 < f < HIDDEN32
    ensures TopBit(f) < 23
  {
    hide Pow2;
    Powers();
    var k := TopBit(f);
    if k >= 23 {
      PowAdd(23, k - 23);
      assert Pow2(23) * Pow2(k - 23) >= Pow2(23);
    }
  }

  lemma NormalisedParts(f: nat)
    requires 0 < f < HIDDEN32
    ensures var k, n := TopBit(f), Normalised(f);
            k < 23 && n / HIDDEN == k + 874 && HIDDEN + n % HIDDEN == f * Pow2(52 - k)
  {
    hide Pow2, TopBit;
    Powers();
    TopBitBelow(f);
    var k := TopBit(f);
    PowAdd(k, 52 - k);
    PowAdd(k, 1);
    assert Pow2(1) == 2 by { One(); }
    Fraction(f, Pow2(k), Pow2(52 - k));
    Parts(k + 874, (f - Pow2(k)) * Pow2(52 - k));
  }

  lemma One()
    ensures Pow2(1) == 2
  {
    assert Pow2(0) == 1;
  }

  lemma Fraction(f: nat, t: nat, p: nat)
    requires t <= f < t * 2 && t * p == HIDDEN
    ensures 0 <= (f - t) * p < HIDDEN && HIDDEN + (f - t) * p == f * p
  {
    assert f * p == (f - t) * p + t * p;
    assert (t - (f - t)) * p == t * p - (f - t) * p;
    assert (t - (f - t)) * p > 0;
  }

  lemma WidenParts(n: nat)
    requires n < SIGN32
    ensures WidenBits(n) < SIGN
    ensures n / HIDDEN32 == 0xff <==> WidenBits(n) / HIDDEN == 0x7ff
    ensures n > 0xff * HIDDEN32 <==> WidenBits(n) > 0x7ff * HIDDEN
  {
    hide Normalised;
    var e, f := n / HIDDEN32, n % HIDDEN32;
    if e == 0 {
      if f > 0 {
        NormalisedParts(f);
      }
    } else {
      Parts(if e == 0xff then 0x7ff else e + 896, f * 0x2000_0000);
    }
  }

  lemma WidenMagnitude(n: nat)
    requires n < SIGN32 && n / HIDDEN32 != 0xff
    ensures Magnitude(WidenBits(n)) == Magnitude32(n) * Pow2(925)
  {
    hide Normalised, Pow2, TopBit;
    var e, f := n / HIDDEN32, n % HIDDEN32;
    if e == 0 && f > 0 {
      NormalisedParts(f);
      var k := TopBit(f);
      PowAdd(52 - k, k + 873);
      Reassociate(f, Pow2(52 - k), Pow2(k + 873));
    } else if e > 0 {
      Parts(e + 896, f * 0x2000_0000);
      Powers();
      PowAdd(29, e + 895);
      PowAdd(e - 1, 925);
      Reassociate(HIDDEN32 + f, Pow2(29), Pow2(e + 895));
      Reassociate(HIDDEN32 + f, Pow2(e - 1), Pow2(925));
    }
  }

  lemma Reassociate(a: nat, b: nat, c: nat)
    ensures a * b * c == a * (b * c)
  {
  }

  /** Widening is exact, and only a NaN becomes a NaN. */
  lemma WidenExact(bits: seq<byte>)
    requires |bits| == 4
    ensures Finite(Widen(bits)) <==> Finite32(bits)
    ensures Finite32(bits) ==> Scaled(Widen(bits)) == Scaled32(bits)
    ensures IsNaN(Widen(bits)) <==> IsNaN32(bits)
  {
    hide WidenBits, Magnitude, Magnitude32, ToBytes, FromBytes;
    Widths();
    FromBytesBound(bits);
    var n := FromBytes(bits);
    var b := WidenBits(n % SIGN32);
    WidenParts(n % SIGN32);
    FromToBytes(if n >= SIGN32 then SIGN + b else b, 8);
    assert FromBytes(Widen(bits)) % SIGN == b;
    if Finite32(bits) {
      WidenMagnitude(n % SIGN32);
    }
  }

  /** A float that denotes an integer is that integer, whatever tag it came with. */
  lemma FloatInteger(bits: seq<byte>, i: int)
    requires Finite32(bits) && Scaled32(bits) == i * Unit()
    ensures FromFloat(bits) == Int(i)
  {
    hide Scaled32, Scaled, Widen, Unit;
    WidenExact(bits);
    MultipleOf(i, Unit());
  }

  /** Exactly the NaNs among the floats are NaNs once read. */
  lemma FloatNaN(bits: seq<byte>)
    requires |bits| == 4
    ensures FromFloat(bits).Frac? && IsNaN(FromFloat(bits).bits) <==> IsNaN32(bits)
  {
    hide Scaled, Widen, FromBytes;
    WidenExact(bits);
    if Finite(Widen(bits)) {
      FiniteNotNaN(FromBytes(Widen(bits)) % SIGN);
    }
    FiniteNotNaN32(FromBytes(bits) % SIGN32);
  }

  lemma FiniteNotNaN32(n: nat)
    requires n < SIGN32
    ensures n > 0xff * HIDDEN32 ==> n / HIDDEN32 == 0xff
  {
  }

  // ---------------------------------------------------------------- what doubles denote

  /** The bits, below the sign, of the double `i` * 2^(`e` - 1023 - `k`), where `k` is
      the highest one bit of `i`. */
  function NormalBits(i: nat, k: nat, e: nat): nat
    requires k < 53 && Pow2(k) <= i
  {
    e * HIDDEN + TimesPow2(i - Pow2(k), 52 - k)
  }

  lemma NormalParts(i: nat, k: nat, e: nat)
    requires k < 53 && Pow2(k) <= i < Pow2(k + 1) && 1 <= e <= 2046
    ensures NormalBits(i, k, e) / HIDDEN == e && NormalBits(i, k, e) < SIGN
    ensures Magnitude(NormalBits(i, k, e)) == i * Pow2(52 - k) * Pow2(e - 1)
  {
    hide Pow2;
    Powers();
    PowAdd(k, 52 - k);
    PowAdd(k, 1);
    One();
    Fraction(i, Pow2(k), Pow2(52 - k));
    Parts(e, (i - Pow2(k)) * Pow2(52 - k));
  }

  /** The eight bytes of a double, from its sign and the bits below. */
  function DoubleOf(negative: bool, n: nat): (d: seq<byte>)
    ensures |d| == 8
  {
    ToBytes(if negative then SIGN + n else n, 8)
  }

  lemma DoubleParts(negative: bool, n: nat)
    requires n < 0x7ff * HIDDEN
    ensures Finite(DoubleOf(negative, n))
    ensures Scaled(DoubleOf(negative, n)) == if negative then 0 - Magnitude(n) else Magnitude(n)
  {
    hide Magnitude, ToBytes, FromBytes;
    Widths();
    FromToBytes(if negative then SIGN + n else n, 8);
  }

  function Signed(negative: bool, i: nat): int { if negative then 0 - i else i }

  /** Sign, exponent and fraction mean what IEEE 754 says. */
  lemma DoubleValue(negative: bool, i: nat, k: nat, e: nat)
    requires k < 53 && Pow2(k) <= i < Pow2(k + 1) && 1 <= e <= 2046
    ensures var d := DoubleOf(negative, NormalBits(i, k, e));
            Finite(d) && Scaled(d) * Pow2(1023 + k) == Signed(negative, i) * Pow2(e) * Unit()
  {
    hide Pow2, NormalBits, Magnitude, Scaled, Finite, Unit, DoubleOf;
    var n := NormalBits(i, k, e);
    NormalParts(i, k, e);
    DoubleParts(negative, n);
    Shifted(i, k, e);
    Opposite(Magnitude(n), Pow2(1023 + k));
    Opposite(i, Pow2(e));
    Opposite(i * Pow2(e), Unit());
  }

  lemma Opposite(a: int, b: int)
    ensures (0 - a) * b == 0 - a * b
  {
  }

  lemma Shifted(i: nat, k: nat, e: nat)
    requires k < 53 && e >= 1
    ensures i * Pow2(52 - k) * Pow2(e - 1) * Pow2(1023 + k) == i * Pow2(e) * Unit()
  {
    hide Pow2;
    PowAdd(52 - k, e - 1);
    PowAdd(51 - k + e, 1023 + k);
    PowAdd(e, 1074);
    Reassociate(i, Pow2(52 - k), Pow2(e - 1));
    Reassociate(i, Pow2(51 - k + e), Pow2(1023 + k));
    Reassociate(i, Pow2(e), Pow2(1074));
  }

  /** A double that denotes an integer, `i` * 2^`j`, is read as that integer. */
  lemma IntegerDouble(negative: bool, i: nat, k: nat, j: nat)
    requires k < 53 && Pow2(k) <= i < Pow2(k + 1) && k + j <= 1023
    ensures FromDouble(DoubleOf(negative, NormalBits(i, k, k + 1023 + j))) == Int(Signed(negative, i) * Pow2(j))
  {
    hide Pow2, NormalBits, Scaled, Unit, DoubleOf, Finite;
    DoubleValue(negative, i, k, k + 1023 + j);
    var s, x := Scaled(DoubleOf(negative, NormalBits(i, k, k + 1023 + j))), Signed(negative, i);
    PowAdd(k + 1023, j);
    assert x * (Pow2(k + 1023) * Pow2(j)) * Unit() == x * Pow2(j) * Pow2(k + 1023) * Unit();
    Cancel(s, x * Pow2(j), Pow2(1023 + k), Unit());
    MultipleOf(x * Pow2(j), Unit());
  }

  /** So are both zeros. */
  lemma ZeroDouble(negative: bool)
    ensures FromDouble(DoubleOf(negative, 0)) == Int(0)
  {
    hide Unit, DoubleOf, Scaled, Finite;
    DoubleParts(negative, 0);
    MultipleOf(0, Unit());
  }

  lemma Cancel(s: int, i: int, p: nat, u: nat)
    requires p > 0 && s * p == i * p * u
    ensures s == i * u
  {
    assert i * p * u == i * u * p;
    assert (s - i * u) * p == 0;
  }

  /** A double with a fractional part is read as no integer, and compares as the value
      it denotes: `i` / 2^`j`, for odd `i`. */
  lemma FractionDouble(negative: bool, i: nat, k: nat, j: nat)
    requires k < 53 && Pow2(k) <= i < Pow2(k + 1) && i % 2 == 1 && 1 <= j <= k + 1022
    ensures var d := DoubleOf(negative, NormalBits(i, k, k + 1023 - j));
            FromDouble(d) == Frac(d) && Value(Frac(d)) * Pow2(j) == Signed(negative, i) * Unit()
  {
    hide Pow2, NormalBits, Scaled, Unit, DoubleOf, Finite;
    var e := k + 1023 - j;
    DoubleValue(negative, i, k, e);
    var d, x, u := DoubleOf(negative, NormalBits(i, k, e)), Signed(negative, i), Unit();
    var s := Scaled(d);
    PowAdd(e, j);
    CancelPart(s, x, Pow2(e), Pow2(j), u);
    if s % u == 0 {
      var q := s / u;
      assert s == q * u;
      OddPart(q, x, Pow2(j), u);
      PowAdd(1, j - 1);
      One();
      Even(q, Pow2(j - 1), x);
    }
  }

  lemma CancelPart(s: int, x: int, p: nat, q: nat, u: nat)
    requires p > 0 && s * (p * q) == x * p * u
    ensures s * q == x * u
  {
    assert s * (p * q) == (s * q) * p;
    assert x * p * u == (x * u) * p;
    assert (s * q - x * u) * p == 0;
  }

  lemma OddPart(q: int, x: int, p: nat, u: nat)
    requires u > 0 && q * u * p == x * u
    ensures q * p == x
  {
    assert q * u * p == (q * p) * u;
    assert (q * p - x) * u == 0;
  }

  lemma Even(q: int, p: nat, x: int)
    requires q * (2 * p) == x
    ensures x % 2 == 0
  {
    assert q * (2 * p) == 2 * (q * p);
  }
}
