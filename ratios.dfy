/**
 * Comparisons of Python's true-division quotients (`count / total`) with
 * constants and with each other, turned into comparisons of products.
 */
module Ratios {

  /** A product of two non-negative numbers is non-negative. */
  lemma ProductNonNegative(a: real, b: real)
    requires a >= 0.0 && b >= 0.0
    ensures a * b >= 0.0
  {
  }

  /** Comparing a quotient with a constant is comparing the numerator with the scaled denominator. */
  lemma QuotientAbove(a: real, b: real, c: real)
    requires b > 0.0
    ensures a / b > c <==> a > c * b
  {
    var q := a / b;
    assert q * b == a;
    if q > c {
      assert (q - c) * b > 0.0;
    } else {
      assert (c - q) * b >= 0.0;
    }
  }

  /** Quotients over the same positive denominator compare like their numerators. */
  lemma QuotientOrder(a: real, b: real, d: real)
    requires d > 0.0
    ensures a / d <= b / d <==> a <= b
  {
    var x := a / d;
    var y := b / d;
    assert x * d == a && y * d == b;
    assert (y - x) * d == b - a;
    if x <= y {
      assert (y - x) * d >= 0.0;
    } else {
      assert (x - y) * d > 0.0;
    }
  }
}
