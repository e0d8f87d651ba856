/** Exact integer model of JavaScript's `Math.round` on the non-negative
    rationals the quiz ever rounds. For x >= 0, `Math.round(x)` is
    floor(x + 1/2): the nearest integer, with halves rounded up. */
module Rounding {

  /** `Math.round(num / den)` for num >= 0 and den > 0. The ensures is the
      defining property of floor(num/den + 1/2), cleared of fractions. */
  function RoundDiv(num: nat, den: nat): (r: nat)
    requires den > 0
    ensures 2 * den * r <= 2 * num + den < 2 * den * (r + 1)
  {
    (2 * num + den) / (2 * den)
  }

  /** Multiplying by a positive factor preserves strict order backwards. */
  lemma CancelPositiveFactor(x: int, y: int, k: int)
    requires k > 0
    requires k * x < k * y
    ensures x < y
  {
  }

  /** There is exactly one integer satisfying the rounding property. */
  lemma RoundDivUnique(num: nat, den: nat, r: nat)
    requires den > 0
    requires 2 * den * r <= 2 * num + den < 2 * den * (r + 1)
    ensures RoundDiv(num, den) == r
  {
    var q := RoundDiv(num, den);
    CancelPositiveFactor(q, r + 1, 2 * den);
    CancelPositiveFactor(r, q + 1, 2 * den);
  }

  /** Rounding is monotone in the numerator. */
  lemma RoundDivMonotone(a: nat, b: nat, den: nat)
    requires den > 0 && a <= b
    ensures RoundDiv(a, den) <= RoundDiv(b, den)
  {
    var ra, rb := RoundDiv(a, den), RoundDiv(b, den);
    CancelPositiveFactor(ra, rb + 1, 2 * den);
  }

  /** A quotient known to be at most k rounds to at most k. */
  lemma RoundDivAtMost(num: nat, den: nat, k: nat)
    requires den > 0
    ensures num <= k * den ==> RoundDiv(num, den) <= k
  {
    if num <= k * den {
      assert 2 * num + den < 2 * den * (k + 1) by {
        assert 2 * den * (k + 1) == 2 * (k * den) + 2 * den;
      }
      RoundDivMonotone(num, k * den, den);
      RoundDivUnique(k * den, den, k);
    }
  }

  /** `Math.round(part / whole * 100)`: a percentage rounded to the nearest
      integer, and at most 100 whenever the part does not exceed the whole. */
  function Percent(part: nat, whole: nat): (r: nat)
    requires whole > 0
    ensures part <= whole ==> r <= 100
    ensures 2 * whole * r <= 200 * part + whole < 2 * whole * (r + 1)
  {
    RoundDivAtMost(100 * part, whole, 100);
    RoundDiv(100 * part, whole)
  }

  /** A larger part of the same whole never gives a smaller percentage. */
  lemma PercentMonotone(a: nat, b: nat, whole: nat)
    requires whole > 0 && a <= b
    ensures Percent(a, whole) <= Percent(b, whole)
  {
    RoundDivMonotone(100 * a, 100 * b, whole);
  }
}
