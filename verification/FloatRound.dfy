/**
 floor, ceil, round and trunc on IEEE 754 bit patterns, for any binary format: a sign bit above
 an exponent field above a mantissa field. The lower two fields together are one number, mag, and
 arithmetic on the pattern is arithmetic on mag as long as it does not reach the sign bit.
 */
module FloatRound {
  import opened Arith

  function Pow2(n: nat): (p: nat)
    ensures p > 0
  {
    if n == 0 then 1 else 2 * Pow2(n - 1)
  }

  function Quotient(x: nat, d: nat): (q: nat)
    requires d > 0
    ensures q == x / d
  {
    DivMod(x, d);
    x / d
  }

  /** Width of the mantissa field, and the exponent bias. */
  datatype Format = Format(m: nat, bias: nat)

  /** 23 and 127 for single precision, 52 and 1023 for double precision. */
  predicate ValidFormat(fm: Format) {
    1 <= fm.m <= fm.bias && 2 <= fm.bias
  }

  datatype Float = Float(neg: bool, mag: nat)

  /** The exponent field. */
  function Field(fm: Format, v: Float): nat { Quotient(v.mag, Pow2(fm.m)) }

  /** Neither infinite nor not a number: the exponent field is not all ones. */
  predicate Finite(fm: Format, v: Float) {
    Field(fm, v) < 2 * fm.bias + 1
  }

  function Exponent(fm: Format, v: Float): int { Field(fm, v) - fm.bias }

  // ---- The code ----------------------------------------------------------------------

  function Negate(v: Float): Float { Float(!v.neg, v.mag) }

  function OneBits(fm: Format): nat { fm.bias * Pow2(fm.m) }

  /** All ones in the mantissa field, shifted right. */
  function Mask(fm: Format, exp: nat): nat { Quotient(Pow2(fm.m) - 1, Pow2(exp)) }

  /** x & mask, bit by bit. */
  function And(x: nat, mask: nat): nat {
    if x == 0 then 0
    else 2 * And(x / 2, mask / 2) + if x % 2 == 1 && mask % 2 == 1 then 1 else 0
  }

  /** x & ~mask, bit by bit. */
  function AndNot(x: nat, mask: nat): nat {
    if x == 0 then 0
    else 2 * AndNot(x / 2, mask / 2) + if x % 2 == 1 && mask % 2 == 0 then 1 else 0
  }

  function Floor(fm: Format, v: Float): Float {
    var exp := Exponent(fm, v);
    if exp < 0 then
      if v.neg && v.mag == 0 then Float(true, 0) else if v.neg then Float(true, OneBits(fm)) else Float(false, 0)
    else if exp < fm.m then
      var mask := Mask(fm, exp);
      Float(v.neg, AndNot(v.mag + (if v.neg then mask else 0), mask))
    else v
  }

  function Ceil(fm: Format, v: Float): Float {
    var exp := Exponent(fm, v);
    if exp < 0 then
      if v.neg then Float(true, 0) else if v.mag == 0 then Float(false, 0) else Float(false, OneBits(fm))
    else if exp < fm.m then
      var mask := Mask(fm, exp);
      Float(v.neg, AndNot(v.mag + (if !v.neg then mask else 0), mask))
    else v
  }

  function Round(fm: Format, v: Float): Float {
    var exp := Exponent(fm, v);
    if exp < -1 then Float(v.neg, 0)
    else if exp == -1 then Float(v.neg, OneBits(fm))
    else if exp < fm.m then
      var mask := Mask(fm, exp);
      if And(v.mag, mask) != 0 then Float(v.neg, AndNot(v.mag + 1 + mask / 2, mask)) else v
    else v
  }

  function Trunc(fm: Format, v: Float): Float {
    var exp := Exponent(fm, v);
    if exp < 0 then Float(v.neg, 0)
    else if exp < fm.m then Float(v.neg, AndNot(v.mag, Mask(fm, exp)))
    else v
  }

  // ---- The numbers -------------------------------------------------------------------

  /** The magnitude, counted in units of the smallest subnormal. */
  function Magnitude(fm: Format, mag: nat): nat {
    var e, f := Quotient(mag, Pow2(fm.m)), mag % Pow2(fm.m);
    if e == 0 then f else (Pow2(fm.m) + f) * Pow2(e - 1)
  }

  function Value(fm: Format, v: Float): int {
    var x: int := Magnitude(fm, v.mag);
    if v.neg then -x else x
  }

  /** The number one, in the same units. */
  function One(fm: Format): (r: int)
    requires ValidFormat(fm)
    ensures r > 0
  {
    Pow2(fm.bias - 1 + fm.m)
  }

  predicate Integral(fm: Format, r: int)
    requires ValidFormat(fm)
  {
    r % One(fm) == 0
  }

  /** r is the greatest integral value not above x. */
  predicate IsFloor(fm: Format, r: int, x: int)
    requires ValidFormat(fm)
  {
    Integral(fm, r) && r <= x < r + One(fm)
  }

  /** r is the least integral value not below x. */
  predicate IsCeil(fm: Format, r: int, x: int)
    requires ValidFormat(fm)
  {
    Integral(fm, r) && r - One(fm) < x <= r
  }

  /** r is x without its fractional part. */
  predicate IsTrunc(fm: Format, r: int, x: int)
    requires ValidFormat(fm)
  {
    if x >= 0 then IsFloor(fm, r, x) else IsCeil(fm, r, x)
  }

  /** r is the nearest integral value, the one further from zero if there are two. */
  predicate IsRound(fm: Format, r: int, x: int)
    requires ValidFormat(fm)
  {
    && Integral(fm, r)
    && if x >= 0 then 2 * r - One(fm) <= 2 * x < 2 * r + One(fm) else 2 * r - One(fm) < 2 * x <= 2 * r + One(fm)
  }

  // ---- Powers of two -----------------------------------------------------------------

  lemma Doubled(d: int, k: int)
    ensures (2 * d) * k == 2 * (d * k)
  {
  }

  lemma {:induction false} PowAdd(a: nat, b: nat)
    ensures Pow2(a + b) == Pow2(a) * Pow2(b)
  {
    if a > 0 {
      PowAdd(a - 1, b);
      Doubled(Pow2(a - 1), Pow2(b));
    }
  }

  /** The mask covers the bits below the binary point. */
  lemma MaskUnit(fm: Format, exp: nat)
    requires exp < fm.m
    ensures Mask(fm, exp) + 1 == Pow2(fm.m - exp) && Pow2(fm.m - exp) % 2 == 0
  {
    var u, p := Pow2(fm.m - exp), Pow2(exp);
    PowAdd(fm.m - exp, exp);
    assert u == 2 * Pow2(fm.m - exp - 1);
    hide Pow2;
    OneLess(u, p);
  }

  lemma OneLess(u: int, p: int)
    requires p > 0
    ensures (u * p - 1) / p == u - 1
  {
    assert u * p - 1 == (u - 1) * p + (p - 1);
    DivUnique(u * p - 1, p, u - 1, p - 1);
  }

  lemma {:induction false} PowMonotone(a: nat, b: nat)
    requires a <= b
    ensures Pow2(a) <= Pow2(b)
    decreases b
  {
    if a < b {
      PowMonotone(a, b - 1);
    }
  }

  lemma Scaled(a: int, b: int, k: int)
    requires k > 0
    ensures a < b ==> a * k < b * k
    ensures a <= b ==> a * k <= b * k
  {
    if a < b {
      NextMultiple(a, b, k);
    }
  }

  lemma ScaledBelow(u: int, d: int, k: int)
    requires k > 0 && -u < d
    ensures -(u * k) < d * k
  {
    Scaled(-u, d, k);
    assert (-u) * k == -(u * k);
  }

  // ---- Magnitudes --------------------------------------------------------------------

  /** The magnitude grows evenly within a binade and runs over into the next without a gap. */
  lemma MagnitudeAt(fm: Format, e: nat, f: nat)
    requires e >= 1 && f <= Pow2(fm.m)
    ensures Magnitude(fm, e * Pow2(fm.m) + f) == (Pow2(fm.m) + f) * Pow2(e - 1)
  {
    var p := Pow2(fm.m);
    assert Pow2(e) == 2 * Pow2(e - 1);
    hide Pow2;
    if f < p {
      DivUnique(e * p + f, p, e, f);
    } else {
      NextBinade(e, p, Pow2(e - 1));
      DivUnique(e * p + f, p, e + 1, 0);
    }
  }

  lemma NextBinade(e: nat, p: nat, k: nat)
    ensures e * p + p == (e + 1) * p && (p + 0) * (2 * k) == (p + p) * k
  {
    assert p * (2 * k) == 2 * (p * k) == p * k + p * k;
  }

  lemma Decomposed(fm: Format, v: Float) returns (f: nat)
    ensures f < Pow2(fm.m) && v.mag == Field(fm, v) * Pow2(fm.m) + f
    ensures Field(fm, v) >= 1 ==> Magnitude(fm, v.mag) == (Pow2(fm.m) + f) * Pow2(Field(fm, v) - 1)
    ensures Field(fm, v) == 0 ==> Magnitude(fm, v.mag) == f
  {
    DivMod(v.mag, Pow2(fm.m));
    f := v.mag % Pow2(fm.m);
    if Field(fm, v) >= 1 {
      MagnitudeAt(fm, Field(fm, v), f);
    }
  }

  lemma BinadeTop(p: nat, f: nat, k: nat)
    requires f < p && k > 0
    ensures (p + f) * k < p * (2 * k)
  {
    Scaled(p + f, 2 * p, k);
    assert (2 * p) * k == p * (2 * k);
  }

  lemma InBinade(fm: Format, v: Float)
    ensures Magnitude(fm, v.mag) < Pow2(Field(fm, v)) * Pow2(fm.m)
  {
    var f := Decomposed(fm, v);
    hide Magnitude;
    if Field(fm, v) == 0 {
      assert Pow2(0) * Pow2(fm.m) == Pow2(fm.m);
    } else {
      BinadeTop(Pow2(fm.m), f, Pow2(Field(fm, v) - 1));
    }
  }

  /** A magnitude whose exponent field is below the limit. */
  lemma BelowPower(fm: Format, v: Float, limit: nat)
    requires limit >= 1 && Field(fm, v) < limit
    ensures Magnitude(fm, v.mag) < Pow2(fm.m) * Pow2(limit - 1)
  {
    hide Magnitude, Pow2;
    InBinade(fm, v);
    PowMonotone(Field(fm, v), limit - 1);
    Scaled(Pow2(Field(fm, v)), Pow2(limit - 1), Pow2(fm.m));
  }

  lemma OneIs(fm: Format)
    requires ValidFormat(fm)
    ensures One(fm) == Pow2(fm.m) * Pow2(fm.bias - 1) && One(fm) == 2 * (Pow2(fm.m) * Pow2(fm.bias - 2))
    ensures Magnitude(fm, OneBits(fm)) == One(fm) && Magnitude(fm, 0) == 0
  {
    assert Pow2(fm.bias - 1) == 2 * Pow2(fm.bias - 2);
    hide Pow2, Magnitude;
    PowAdd(fm.bias - 1, fm.m);
    Product(Pow2(fm.m), Pow2(fm.bias - 1), Pow2(fm.bias - 2));
    MagnitudeAt(fm, fm.bias, 0);
    ZeroIs(fm);
  }

  lemma ZeroIs(fm: Format)
    ensures Magnitude(fm, 0) == 0
  {
    DivUnique(0, Pow2(fm.m), 0, 0);
  }

  lemma Product(p: int, q: int, h: int)
    requires q == 2 * h
    ensures q * p == p * q == 2 * (p * h)
  {
  }

  /** Magnitudes below one, and below one half. */
  lemma SmallMagnitude(fm: Format, v: Float)
    requires ValidFormat(fm) && Exponent(fm, v) < 0
    ensures Magnitude(fm, v.mag) < One(fm)
    ensures Exponent(fm, v) < -1 ==> 2 * Magnitude(fm, v.mag) < One(fm)
    ensures Exponent(fm, v) == -1 ==> 2 * Magnitude(fm, v.mag) >= One(fm)
    ensures Magnitude(fm, v.mag) == 0 <==> v.mag == 0
  {
    OneIs(fm);
    BelowPower(fm, v, fm.bias);
    var f := Decomposed(fm, v);
    if Exponent(fm, v) < -1 {
      BelowPower(fm, v, fm.bias - 1);
    } else {
      Scaled(Pow2(fm.m), Pow2(fm.m) + f, Pow2(fm.bias - 2));
    }
    if Field(fm, v) >= 1 {
      Scaled(0, Pow2(fm.m) + f, Pow2(Field(fm, v) - 1));
      Scaled(0, Field(fm, v), Pow2(fm.m));
    }
  }

  /** From the width of the mantissa on, everything is integral. */
  lemma LargeMagnitude(fm: Format, v: Float)
    requires ValidFormat(fm) && Exponent(fm, v) >= fm.m
    ensures Magnitude(fm, v.mag) % One(fm) == 0
  {
    var f := Decomposed(fm, v);
    var e := Field(fm, v);
    var rest := Pow2(e - fm.bias - fm.m);
    PowAdd(e - fm.bias - fm.m, fm.bias - 1 + fm.m);
    hide Pow2, Magnitude;
    Regrouped(Pow2(fm.m) + f, rest, One(fm));
    MultipleMod((Pow2(fm.m) + f) * rest, One(fm));
  }

  lemma Regrouped(a: int, b: int, c: int)
    ensures a * (b * c) == (a * b) * c
  {
  }

  // ---- Clearing the bits below the binary point --------------------------------------

  /** x down to a multiple of mask + 1. */
  function Clear(x: nat, mask: nat): nat {
    DivMod(x, mask + 1);
    assert (x / (mask + 1)) * (mask + 1) >= 0;
    x - x % (mask + 1)
  }

  lemma {:induction false} NoMask(x: nat)
    ensures And(x, 0) == 0 && AndNot(x, 0) == x
  {
    if x != 0 {
      NoMask(x / 2);
    }
  }

  /** The remainder takes its low bit from x and the rest from x / 2. */
  lemma RemainderBits(x: nat, p: nat)
    requires p > 0
    ensures x % (2 * p) == 2 * ((x / 2) % p) + x % 2
  {
    var h := x / 2;
    DivMod(h, p);
    assert x == (h / p) * (2 * p) + (2 * (h % p) + x % 2);
    DivUnique(x, 2 * p, h / p, 2 * (h % p) + x % 2);
  }

  /** On k low ones, the bitwise operations are remainder and what the remainder leaves. */
  lemma {:induction false} LowOnes(x: nat, k: nat)
    ensures And(x, Pow2(k) - 1) == x % Pow2(k) && AndNot(x, Pow2(k) - 1) == x - x % Pow2(k)
    decreases k
  {
    if k == 0 {
      NoMask(x);
      DivUnique(x, 1, x, 0);
    } else {
      var p := Pow2(k - 1);
      LowOnes(x / 2, k - 1);
      RemainderBits(x, p);
      assert (2 * p - 1) / 2 == p - 1;
    }
  }

  /** What & mask and & ~mask do to a pattern whose binary point is at exp. */
  lemma MaskedBits(fm: Format, exp: nat, x: nat)
    requires exp < fm.m
    ensures var mask := Mask(fm, exp); And(x, mask) == x % (mask + 1) && AndNot(x, mask) == Clear(x, mask)
  {
    MaskUnit(fm, exp);
    LowOnes(x, fm.m - exp);
  }

  lemma MultipleBelow(a: nat, p: nat, u: nat)
    requires u > 0 && a % u == 0 && p % u == 0 && a < p + u
    ensures a <= p
  {
    DivMod(a, u);
    DivMod(p, u);
    if a / u > p / u {
      NextMultiple(p / u, a / u, u);
    } else {
      NotAbove(p / u, a / u, u);
    }
  }

  /** Clearing low bits touches the fraction only. */
  lemma ClearFraction(e: nat, p: nat, w: nat, u: nat, g: nat)
    requires u > 0 && p == w * u
    ensures Clear(e * p + g, u - 1) == e * p + Clear(g, u - 1)
    ensures Clear(g, u - 1) % u == 0 && g - u < Clear(g, u - 1) <= g
  {
    DivMod(g, u);
    var q, r := g / u, g % u;
    assert e * p + g == (e * w + q) * u + r by {
      assert (e * w + q) * u == e * (w * u) + q * u;
    }
    DivUnique(e * p + g, u, e * w + q, r);
    MultipleMod(q, u);
  }

  /** What adding j below the binary point and clearing does to a number with a fractional part. */
  lemma Adjusted(fm: Format, v: Float, x: nat, j: nat) returns (d: int)
    requires ValidFormat(fm) && Exponent(fm, v) == x < fm.m && j < Pow2(fm.m - x)
    ensures j - Pow2(fm.m - x) < d <= j
    ensures var r := Clear(v.mag + j, Mask(fm, x)); var k := Pow2(fm.bias + x - 1);
      && One(fm) == Pow2(fm.m - x) * k
      && Magnitude(fm, r) == Magnitude(fm, v.mag) + d * k
      && Magnitude(fm, r) % One(fm) == 0
  {
    var e, p, u, w, k := fm.bias + x, Pow2(fm.m), Pow2(fm.m - x), Pow2(x), Pow2(fm.bias + x - 1);
    MaskUnit(fm, x);
    PowAdd(fm.m - x, x);
    PowAdd(fm.m - x, fm.bias + x - 1);
    var f := Decomposed(fm, v);
    ClearFraction(e, p, w, u, f + j);
    var f' := Clear(f + j, u - 1);
    MultipleMod(w, u);
    MultipleBelow(f', p, u);
    MagnitudeAt(fm, e, f');
    d := f' - f;
    AdjustedParts(p, u, w, k, f, f');
  }

  lemma AdjustedParts(p: nat, u: nat, w: nat, k: nat, f: nat, f': nat)
    requires u > 0 && k > 0 && p == u * w && f' % u == 0
    ensures (p + f') * k == (p + f) * k + (f' - f) * k
    ensures u * k > 0 && ((p + f') * k) % (u * k) == 0
  {
    DivMod(f', u);
    var q := f' / u;
    assert p + f' == (w + q) * u;
    assert (p + f') * k == (w + q) * (u * k);
    MultipleMod(w + q, u * k);
  }

  // ---- Rounding the magnitude down, up, and to the nearest ---------------------------

  lemma MaskedDown(fm: Format, v: Float, x: nat)
    requires ValidFormat(fm) && Exponent(fm, v) == x < fm.m
    ensures IsFloor(fm, Magnitude(fm, Clear(v.mag, Mask(fm, x))), Magnitude(fm, v.mag))
  {
    var u, k := Pow2(fm.m - x), Pow2(fm.bias + x - 1);
    var d := Adjusted(fm, v, x, 0);
    hide Magnitude, Clear, Pow2;
    ScaledBelow(u, d, k);
    Scaled(d, 0, k);
  }

  lemma MaskedUp(fm: Format, v: Float, x: nat)
    requires ValidFormat(fm) && Exponent(fm, v) == x < fm.m
    ensures IsCeil(fm, Magnitude(fm, Clear(v.mag + Mask(fm, x), Mask(fm, x))), Magnitude(fm, v.mag))
  {
    MaskUnit(fm, x);
    var u, k := Pow2(fm.m - x), Pow2(fm.bias + x - 1);
    var d := Adjusted(fm, v, x, u - 1);
    hide Magnitude, Clear, Pow2;
    Scaled(d, u, k);
    Scaled(0, d, k);
  }

  lemma MaskedNear(fm: Format, v: Float, x: nat)
    requires ValidFormat(fm) && Exponent(fm, v) == x < fm.m
    ensures IsRound(fm, Magnitude(fm, Clear(v.mag + 1 + Mask(fm, x) / 2, Mask(fm, x))), Magnitude(fm, v.mag))
  {
    MaskUnit(fm, x);
    var u, k := Pow2(fm.m - x), Pow2(fm.bias + x - 1);
    assert 1 + (u - 1) / 2 == u / 2;
    var d := Adjusted(fm, v, x, u / 2);
    hide Magnitude, Clear, Pow2;
    Scaled(2 * d, u, k);
    ScaledBelow(u, 2 * d, k);
    Doubled(d, k);
  }

  lemma MaskedZero(fm: Format, v: Float, x: nat)
    requires ValidFormat(fm) && Exponent(fm, v) == x < fm.m && v.mag % (Mask(fm, x) + 1) == 0
    ensures Magnitude(fm, v.mag) % One(fm) == 0
  {
    assert Clear(v.mag, Mask(fm, x)) == v.mag;
    MaskedDown(fm, v, x);
  }

  lemma Opposite(fm: Format, x: int)
    requires ValidFormat(fm) && x % One(fm) == 0
    ensures (-x) % One(fm) == 0
  {
    var one := One(fm);
    assert x == (x / one) * one;
    assert -x == (-(x / one)) * one;
    MultipleMod(-(x / one), one);
  }

  lemma OneIntegral(fm: Format)
    requires ValidFormat(fm)
    ensures Integral(fm, 0) && Integral(fm, One(fm)) && Integral(fm, -One(fm))
  {
    MultipleMod(0, One(fm));
    MultipleMod(1, One(fm));
    MultipleMod(-1, One(fm));
  }

  // ---- Results -----------------------------------------------------------------------

  /** floor returns the greatest integral value not above its argument. */
  lemma FloorCorrect(fm: Format, v: Float)
    requires ValidFormat(fm) && Finite(fm, v)
    ensures IsFloor(fm, Value(fm, Floor(fm, v)), Value(fm, v))
  {
    hide Magnitude, Clear, AndNot, Pow2, Mask, OneBits;
    var x := Exponent(fm, v);
    OneIs(fm);
    OneIntegral(fm);
    if x < 0 {
      SmallMagnitude(fm, v);
    } else if x < fm.m {
      MaskedBits(fm, x, v.mag + if v.neg then Mask(fm, x) else 0);
      MaskedDown(fm, v, x);
      MaskedUp(fm, v, x);
      if v.neg {
        Opposite(fm, Magnitude(fm, Floor(fm, v).mag));
      }
    } else {
      LargeMagnitude(fm, v);
      Opposite(fm, Magnitude(fm, v.mag));
    }
  }

  /** ceil(-v) is -floor(v), bit for bit. */
  lemma CeilOfNegative(fm: Format, v: Float)
    ensures Ceil(fm, Negate(v)) == Negate(Floor(fm, v)) && Floor(fm, Negate(v)) == Negate(Ceil(fm, v))
  {
    hide AndNot, Mask;
    assert Exponent(fm, Negate(v)) == Exponent(fm, v);
  }

  lemma ValueOfNegative(fm: Format, v: Float)
    ensures Value(fm, Negate(v)) == -Value(fm, v) && Negate(Negate(v)) == v
  {
  }

  /** ceil returns the least integral value not below its argument. */
  lemma CeilCorrect(fm: Format, v: Float)
    requires ValidFormat(fm) && Finite(fm, v)
    ensures IsCeil(fm, Value(fm, Ceil(fm, v)), Value(fm, v))
  {
    hide Value, Floor, Ceil;
    FloorCorrect(fm, Negate(v));
    CeilOfNegative(fm, Negate(v));
    ValueOfNegative(fm, v);
    ValueOfNegative(fm, Floor(fm, Negate(v)));
    Opposite(fm, Value(fm, Floor(fm, Negate(v))));
  }

  lemma TruncCorrect(fm: Format, v: Float)
    requires ValidFormat(fm) && Finite(fm, v)
    ensures IsTrunc(fm, Value(fm, Trunc(fm, v)), Value(fm, v))
  {
    hide Magnitude, Clear, AndNot, Pow2, Mask;
    var x := Exponent(fm, v);
    OneIs(fm);
    OneIntegral(fm);
    if x < 0 {
      SmallMagnitude(fm, v);
    } else if x < fm.m {
      MaskedBits(fm, x, v.mag);
      MaskedDown(fm, v, x);
      Opposite(fm, Magnitude(fm, Trunc(fm, v).mag));
    } else {
      LargeMagnitude(fm, v);
      Opposite(fm, Magnitude(fm, v.mag));
    }
  }

  /** round returns the nearest integral value, halves away from zero. */
  lemma RoundCorrect(fm: Format, v: Float)
    requires ValidFormat(fm) && Finite(fm, v)
    ensures IsRound(fm, Value(fm, Round(fm, v)), Value(fm, v))
  {
    hide Magnitude, Clear, Pow2, Mask, OneBits;
    var x := Exponent(fm, v);
    RoundMagnitude(fm, v);
    Opposite(fm, Magnitude(fm, Round(fm, v).mag));
  }

  lemma RoundMagnitude(fm: Format, v: Float)
    requires ValidFormat(fm)
    ensures IsRound(fm, Magnitude(fm, Round(fm, v).mag), Magnitude(fm, v.mag))
    ensures Round(fm, v).neg == v.neg
  {
    hide Magnitude, Clear, And, AndNot, Pow2, Mask, OneBits;
    var x := Exponent(fm, v);
    if x < 0 {
      OneIs(fm);
      OneIntegral(fm);
      SmallMagnitude(fm, v);
    } else if x < fm.m {
      MaskedBits(fm, x, v.mag);
      MaskedBits(fm, x, v.mag + 1 + Mask(fm, x) / 2);
      if And(v.mag, Mask(fm, x)) == 0 {
        MaskedZero(fm, v, x);
      } else {
        MaskedNear(fm, v, x);
      }
    } else {
      LargeMagnitude(fm, v);
    }
  }

  /** The sign bit always stays, so a zero result has the sign of the argument. */
  lemma SignKept(fm: Format, v: Float)
    ensures Floor(fm, v).neg == Ceil(fm, v).neg == Round(fm, v).neg == Trunc(fm, v).neg == v.neg
  {
  }

  /** Infinities and values that are not numbers come back unchanged. */
  lemma SpecialKept(fm: Format, v: Float)
    requires ValidFormat(fm) && !Finite(fm, v)
    ensures Floor(fm, v) == Ceil(fm, v) == Round(fm, v) == Trunc(fm, v) == v
  {
  }

  lemma FieldBelow(fm: Format, mag: nat, limit: nat)
    requires mag < limit * Pow2(fm.m)
    ensures Field(fm, Float(false, mag)) < limit
  {
    DivMod(mag, Pow2(fm.m));
    if mag / Pow2(fm.m) >= limit {
      NotAbove(mag / Pow2(fm.m), limit, Pow2(fm.m));
    }
  }

  /** The carry out of the mantissa stays in the exponent field: it neither makes an infinity nor reaches the sign bit. */
  lemma CarryStaysFinite(fm: Format, v: Float, x: nat, j: nat)
    requires ValidFormat(fm) && Exponent(fm, v) == x < fm.m && j < Pow2(fm.m - x)
    ensures Finite(fm, Float(v.neg, AndNot(v.mag + j, Mask(fm, x))))
  {
    MaskedBits(fm, x, v.mag + j);
    var e, p := fm.bias + x, Pow2(fm.m);
    var f := Decomposed(fm, v);
    PowMonotone(fm.m - x, fm.m);
    ClearedBelow(v.mag + j, Mask(fm, x));
    hide Pow2, Mask, AndNot, Clear, Magnitude;
    TwoMore(e, p);
    FieldBelow(fm, Clear(v.mag + j, Mask(fm, x)), e + 2);
  }

  lemma ClearedBelow(x: nat, mask: nat)
    ensures Clear(x, mask) <= x
  {
  }

  lemma TwoMore(e: nat, p: nat)
    ensures e * p + p + p == (e + 2) * p
  {
  }
}
