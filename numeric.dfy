/** Rounding of exact reals to integers, as math.ceil does on floats. */
module Numeric {

  /** `c` is the least integer not below `x`. */
  predicate IsCeiling(c: int, x: real) {
    x <= c as real && (c - 1) as real < x
  }

  /** math.ceil, written with the floor that Dafny's reals provide. */
  function Ceil(x: real): (c: int)
    ensures IsCeiling(c, x)
  {
    -((-x).Floor)
  }

  /** There is only one least integer not below `x`. */
  lemma CeilingUnique(c: int, d: int, x: real)
    requires IsCeiling(c, x) && IsCeiling(d, x)
    ensures c == d
  {
  }

  /** Whole numbers are left as they are. */
  lemma CeilOfInteger(n: int)
    ensures Ceil(n as real) == n
  {
    CeilingUnique(Ceil(n as real), n, n as real);
  }

  lemma ProductSign(a: real, b: real)
    ensures 0.0 <= a && 0.0 <= b ==> 0.0 <= a * b
    ensures a < 0.0 && 0.0 < b ==> a * b < 0.0
  {
  }

  /** Dividing first or multiplying first gives the same quotient. */
  lemma SlopeForm(a: real, b: real, d: real)
    requires d != 0.0
    ensures (a / d) * b == a * b / d
  {
    var q := a / d;
    assert q * d == a;
    assert (q * b) * d == a * b;
  }

  lemma FactorSign(a: real, d: real)
    requires d > 0.0
    ensures a * d <= 0.0 ==> a <= 0.0
    ensures a * d < 0.0 ==> a < 0.0
  {
  }

  /** A part of a positive whole, divided by the whole, lies in [0, 1]. */
  lemma FractionOfWhole(a: real, d: real)
    requires 0.0 <= a <= d && 0.0 < d
    ensures 0.0 <= a / d <= 1.0
    ensures 0.0 < a < d ==> 0.0 < a / d < 1.0
  {
    var q := a / d;
    assert q * d == a;
    assert (q - 1.0) * d == a - d;
    FactorSign(q - 1.0, d);
    FactorSign(-q, d);
  }

  /** Rounding up keeps the order of its arguments. */
  lemma CeilMonotone(x: real, y: real)
    requires x <= y
    ensures Ceil(x) <= Ceil(y)
  {
  }

  /** An integer at least `x` and less than `x + n` is at least the ceiling
      of `x` and less than the ceiling plus `n`. */
  lemma CeilingWithin(c: int, x: real, m: int, n: int)
    requires IsCeiling(c, x) && x <= m as real && m as real < x + n as real
    ensures c <= m && m - n < c
  {
  }

  /** Multiplying by a non-negative factor keeps order; multiplying by a
      negative one reverses strict order. */
  lemma ScaleOrder(k: real, a: real, b: real)
    ensures 0.0 <= k && a <= b ==> k * a <= k * b
    ensures k < 0.0 && a < b ==> k * b < k * a
  {
    ProductSign(k, b - a);
    SubtractProducts(k, b, a);
  }

  lemma SubtractProducts(k: real, a: real, b: real)
    ensures k * a - k * b == k * (a - b)
  {
  }
}
