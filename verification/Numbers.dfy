/**
 Numbers of the interpreter (IEEE 754 doubles) as the codec and the key order see
 them: an integer, or the eight bytes of a double that is none.

 A finite double is an integer multiple of 2^-1074, so numbers are compared as
 integers scaled by 2^1074.
 */
module Numbers {
  import opened Bytes

  datatype Number = Int(i: int) | Frac(bits: seq<byte>)

  function Pow2(n: nat): (r: nat)
    ensures r > 0
  {
    if n == 0 then 1 else 2 * Pow2(n - 1)
  }

  function TimesPow2(n: nat, e: nat): nat { n * Pow2(e) }

  lemma {:induction false} PowAdd(a: nat, b: nat)
    ensures Pow2(a + b) == Pow2(a) * Pow2(b)
  {
    if b > 0 {
      PowAdd(a, b - 1);
      assert Pow2(a + b) == 2 * (Pow2(a) * Pow2(b - 1)) == Pow2(a) * (2 * Pow2(b - 1));
    }
  }

  const BIAS: nat := 1074

  /** The least positive double, 2^-1074, is the unit of `Scaled`. */
  function Unit(): (r: nat)
    ensures r > 0
  {
    Pow2(BIAS)
  }

  const SIGN: nat := 0x8000_0000_0000_0000
  const HIDDEN: nat := 0x10_0000_0000_0000

  /** The magnitude, in units, of the double whose bits below the sign are `n`. */
  function Magnitude(n: nat): nat {
    var e, f := n / HIDDEN, n % HIDDEN;
    if e == 0 then f else (HIDDEN + f) * Pow2(e - 1)
  }

  predicate Finite(bits: seq<byte>) {
    |bits| == 8 && FromBytes(bits) % SIGN / HIDDEN != 0x7ff
  }

  predicate IsNaN(bits: seq<byte>) {
    |bits| == 8 && FromBytes(bits) % SIGN > 0x7ff * HIDDEN
  }

  lemma FiniteNotNaN(n: nat)
    requires n < SIGN && n / HIDDEN != 0x7ff
    ensures n <= 0x7ff * HIDDEN
  {
  }

  function Scaled(bits: seq<byte>): int {
    var n := FromBytes(bits);
    if n >= SIGN then 0 - Magnitude(n % SIGN) else Magnitude(n % SIGN)
  }

  /** The number stored in eight bytes: integers are recognised, -0 is 0. */
  function FromDouble(bits: seq<byte>): Number {
    if Finite(bits) && Scaled(bits) % Unit() == 0 then Int(Scaled(bits) / Unit()) else Frac(bits)
  }

  /** The distance between neighbouring doubles at an integer of this size. */
  function Spacing(n: nat): (u: nat)
    ensures u > 0
  {
    if n < 2 * HIDDEN then 1 else 2 * Spacing(n / 2)
  }

  /** `n` in units of `u`, rounded to nearest, ties to even. */
  function InUnits(n: nat, u: nat): nat
    requires u > 0
  {
    var q, r := n / u, n % u;
    if 2 * r < u || (2 * r == u && q % 2 == 0) then q else q + 1
  }

  /** An integer as the double it is converted to. */
  function ToDouble(i: int): int {
    if i < 0 then 0 - InUnits(-i, Spacing(-i)) * Spacing(-i) else InUnits(i, Spacing(i)) * Spacing(i)
  }

  /** The result of the conversion is as near as doubles are dense, with ties to even,
      and exact up to 2^53. */
  lemma ToDoubleNear(i: int)
    ensures var d, u := ToDouble(i) - i, Spacing(if i < 0 then -i else i);
            && 0 - u <= 2 * d <= u && ToDouble(i) % u == 0
            && (2 * d == u || 2 * d == 0 - u ==> ToDouble(i) / u % 2 == 0)
    ensures 0 - 2 * HIDDEN < i < 2 * HIDDEN ==> ToDouble(i) == i
  {
    hide InUnits, Spacing;
    var n := if i < 0 then -i else i;
    var u := Spacing(n);
    var q := InUnits(n, u);
    var r: int := q * u;
    UnitsNear(n, u);
    NegMultiple(q, u);
    SmallSpacing(n);
    assert ToDouble(i) == if i < 0 then 0 - r else r;
    hide ToDouble;
  }

  lemma SmallSpacing(n: nat)
    ensures n < 2 * HIDDEN ==> Spacing(n) == 1
  {
  }

  /** Doubles have 53 significant bits. */
  lemma {:induction false} SpacingIs(n: nat)
    ensures n < 2 * HIDDEN ==> Spacing(n) == 1
    ensures n >= HIDDEN ==> HIDDEN <= n / Spacing(n) < 2 * HIDDEN
    ensures exists e: nat :: Spacing(n) == Pow2(e)
  {
    if n < 2 * HIDDEN {
      assert Pow2(0) == 1;
    } else {
      SpacingIs(n / 2);
      var u := Spacing(n / 2);
      var e: nat :| u == Pow2(e);
      assert 2 * u == Pow2(e + 1);
      Quotient(n, u);
    }
  }

  lemma Quotient(n: nat, u: nat)
    requires u > 0
    ensures n / (2 * u) == n / 2 / u
  {
    var q, r := n / 2 / u, n / 2 % u;
    assert n / 2 == q * u + r;
    assert n == q * (2 * u) + (2 * r + n % 2) by { assert 2 * (q * u) == q * (2 * u); }
    Unique(n, 2 * u, q, 2 * r + n % 2);
  }

  lemma UnitsNear(n: nat, u: nat)
    requires u > 0
    ensures 0 - u <= 2 * (InUnits(n, u) * u - n) <= u
    ensures InUnits(n, u) * u % u == 0 && InUnits(n, u) * u / u == InUnits(n, u)
    ensures 2 * (InUnits(n, u) * u - n) == u || 2 * (InUnits(n, u) * u - n) == 0 - u ==> InUnits(n, u) % 2 == 0
    ensures u == 1 ==> InUnits(n, u) == n
  {
    var q, r := n / u, n % u;
    assert n == q * u + r;
    assert (q + 1) * u == q * u + u;
    DivMultiple(InUnits(n, u), u);
  }

  /** Numbers that the writer is meant for: int64 integers, and finite doubles
      that are no integer. */
  predicate ValidNumber(n: Number) {
    match n
    case Int(i) => FitsSigned(i, 8) && ToDouble(i) == i
    case Frac(bits) => Finite(bits) && Scaled(bits) % Unit() != 0
  }

  function Value(n: Number): int {
    match n
    case Int(i) => i * Unit()
    case Frac(bits) => Scaled(bits)
  }

  lemma {:induction false} MagnitudeStep(n: nat)
    ensures Magnitude(n) < Magnitude(n + 1)
  {
    var e, f := n / HIDDEN, n % HIDDEN;
    if f + 1 < HIDDEN {
      assert (n + 1) / HIDDEN == e && (n + 1) % HIDDEN == f + 1;
      if e > 0 {
        assert (HIDDEN + f + 1) * Pow2(e - 1) == (HIDDEN + f) * Pow2(e - 1) + Pow2(e - 1);
      }
    } else {
      assert (n + 1) / HIDDEN == e + 1 && (n + 1) % HIDDEN == 0;
      if e > 0 {
        Halves(e);
      } else {
        assert Pow2(0) == 1;
      }
    }
  }

  lemma Halves(e: nat)
    requires e > 0
    ensures (HIDDEN + (HIDDEN - 1)) * Pow2(e - 1) < HIDDEN * Pow2(e)
  {
    var p := Pow2(e - 1);
    assert HIDDEN * (2 * p) == (HIDDEN + HIDDEN) * p;
    assert (HIDDEN + HIDDEN) * p == (HIDDEN + (HIDDEN - 1)) * p + p;
  }

  lemma {:induction false} MagnitudeGrows(n: nat, m: nat)
    requires n < m
    ensures Magnitude(n) < Magnitude(m)
    decreases m - n
  {
    MagnitudeStep(m - 1);
    if n < m - 1 {
      MagnitudeGrows(n, m - 1);
    }
  }

  lemma MultipleOf(i: int, u: nat)
    requires u > 0
    ensures (i * u) % u == 0 && (i * u) / u == i
  {
    if i >= 0 {
      DivMultiple(i, u);
    } else {
      DivMultiple(-i, u);
      assert i * u == -(-i * u);
      NegMultiple(-i, u);
    }
  }

  lemma {:induction false} DivMultiple(i: nat, u: nat)
    requires u > 0
    ensures (i * u) % u == 0 && (i * u) / u == i
  {
    if i > 0 {
      DivMultiple(i - 1, u);
      assert i * u == (i - 1) * u + u;
      AddOne((i - 1) * u, u);
    }
  }

  lemma {:induction false} NegMultiple(i: nat, u: nat)
    requires u > 0
    ensures (-(i * u)) % u == 0 && (-(i * u)) / u == 0 - i
  {
    if i > 0 {
      NegMultiple(i - 1, u);
      assert -(i * u) == -((i - 1) * u) - u;
      AddOne(-(i * u), u);
    }
  }

  lemma AddOne(x: int, u: nat)
    requires u > 0
    ensures (x + u) % u == x % u && (x + u) / u == x / u + 1
  {
    var q, r := x / u, x % u;
    assert x == q * u + r;
    assert x + u == (q + 1) * u + r;
    Unique(x + u, u, q + 1, r);
  }

  lemma Unique(x: int, u: nat, q: int, r: nat)
    requires u > 0 && r < u && x == q * u + r
    ensures x / u == q && x % u == r
  {
    var q', r' := x / u, x % u;
    if q' < q {
      Below(q', q, u, r');
    } else if q < q' {
      Below(q, q', u, r);
    }
  }

  lemma Below(q: int, q': int, u: nat, r: nat)
    requires q < q' && r < u
    ensures q * u + r < q' * u
  {
    assert (q' - q - 1) * u >= 0;
    assert (q' - q - 1) * u == q' * u - q * u - u;
  }

  lemma SameMagnitude(n: nat, m: nat)
    requires Magnitude(n) == Magnitude(m)
    ensures n == m
  {
    if n < m {
      MagnitudeGrows(n, m);
    } else if m < n {
      MagnitudeGrows(m, n);
    }
  }

  lemma ScaledInjective(a: seq<byte>, b: seq<byte>)
    requires |a| == 8 && |b| == 8 && Scaled(a) == Scaled(b) && Scaled(a) != 0
    ensures a == b
  {
    hide Magnitude, FromBytes;
    Widths();
    FromBytesBound(a);
    FromBytesBound(b);
    var n, m := FromBytes(a), FromBytes(b);
    assert (n >= SIGN) == (m >= SIGN);
    SameMagnitude(n % SIGN, m % SIGN);
    FromBytesInjective(a, b);
  }

  /** Different numbers have different values. */
  lemma ValueInjective(a: Number, b: Number)
    requires ValidNumber(a) && ValidNumber(b) && Value(a) == Value(b)
    ensures a == b
  {
    hide Magnitude, Pow2, Scaled, FromBytes, Unit;
    var u := Unit();
    if a.Int? {
      MultipleOf(a.i, u);
    }
    if b.Int? {
      MultipleOf(b.i, u);
    }
    if a.Frac? && b.Frac? {
      ZeroMod(u);
      ScaledInjective(a.bits, b.bits);
    }
  }

  lemma ZeroMod(u: nat)
    requires u > 0
    ensures 0 % u == 0
  {
  }

  /** Reading back the eight bytes of a double that is no integer. */
  lemma FracStays(bits: seq<byte>)
    requires ValidNumber(Frac(bits))
    ensures FromDouble(bits) == Frac(bits)
  {
  }
}
