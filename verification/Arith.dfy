/** Alignment arithmetic shared by the allocator and the section layout. */
module Arith {

  predicate PowerOfTwo(a: int)
    decreases a
  {
    a == 1 || (a > 1 && a % 2 == 0 && PowerOfTwo(a / 2))
  }

  lemma MultipleMod(q: int, a: int)
    requires a > 0
    ensures (q * a) % a == 0
  {
    var m, r := (q * a) / a, (q * a) % a;
    assert q * a == m * a + r;
    assert r == (q - m) * a;
    assert q - m >= 1 ==> (q - m) * a >= a;
    assert q - m <= -1 ==> (q - m) * a <= -a;
  }

  /** Round up to a multiple of a. */
  function AlignUp(v: int, a: int): (r: int)
    requires a > 0
    ensures v <= r < v + a && r % a == 0
  {
    var q := (v + a - 1) / a;
    MultipleMod(q, a);
    q * a
  }

  lemma NextMultiple(p: int, q: int, a: int)
    requires a > 0 && q >= p + 1
    ensures q * a >= p * a + a
  {
    assert (q - p - 1) * a >= 0;
    assert (q - p - 1) * a == q * a - p * a - a;
  }

  /** Rounding up to a multiple does not pass a multiple. */
  lemma AlignUpBelow(v: int, w: int, a: int)
    requires a > 0 && v <= w && w % a == 0
    ensures AlignUp(v, a) <= w
  {
    var r := AlignUp(v, a);
    hide AlignUp;
    var q, p := r / a, w / a;
    assert r == q * a && w == p * a;
    if q >= p + 1 {
      NextMultiple(p, q, a);
    } else {
      NotAbove(p, q, a);
    }
  }

  lemma NotAbove(p: int, q: int, a: int)
    requires a > 0 && q <= p
    ensures q * a <= p * a
  {
    assert (p - q) * a >= 0;
    assert (p - q) * a == p * a - q * a;
  }

  lemma SumOfMultiples(v: int, w: int, a: int)
    requires a > 0 && v % a == 0 && w % a == 0
    ensures (v + w) % a == 0 && (v - w) % a == 0
  {
    var p, q := v / a, w / a;
    assert v == p * a && w == q * a;
    assert v + w == (p + q) * a && v - w == (p - q) * a;
    MultipleMod(p + q, a);
    MultipleMod(p - q, a);
  }

  /** Quotient and remainder of natural numbers. */
  lemma DivMod(x: int, d: int)
    requires x >= 0 && d > 0
    ensures x / d >= 0 && 0 <= x % d < d && x == (x / d) * d + x % d
  {
    var q := x / d;
    assert x == q * d + x % d;
    if q < 0 {
      NextMultiple(q, 0, d);
    }
  }

  /** There is only one quotient and one remainder. */
  lemma DivUnique(x: int, d: int, q: int, r: int)
    requires d > 0 && x == q * d + r && 0 <= r < d
    ensures x / d == q && x % d == r
  {
    var q', r' := x / d, x % d;
    assert x == q' * d + r';
    if q > q' {
      NextMultiple(q', q, d);
    } else if q < q' {
      NextMultiple(q, q', d);
    }
  }
}
