/** Facts about multiplication that the size and offset proofs share. */
module Arithmetic {

  /** a <= b and k >= 0 give a * k <= b * k. */
  lemma MulMonotone(a: int, b: int, k: int)
    requires a <= b && 0 <= k
    ensures a * k <= b * k
  {
    assert b * k - a * k == (b - a) * k;
  }

  /** a * k <= b * k with k > 0 gives a <= b. */
  lemma CancelFactor(a: int, b: int, k: int)
    requires k > 0 && a * k <= b * k
    ensures a <= b
  {
  }

  /** a * k < b * k with k > 0 gives a < b. */
  lemma CancelFactorStrict(a: int, b: int, k: int)
    requires k > 0 && a * k < b * k
    ensures a < b
  {
  }

  /** x <= y and d > 0 give x * d <= y * d over the reals. */
  lemma RealScale(x: real, y: real, d: real)
    requires d > 0.0 && x <= y
    ensures x * d <= y * d
  {
  }

  /** x < y and d > 0 give x * d < y * d over the reals. */
  lemma RealScaleStrict(x: real, y: real, d: real)
    requires d > 0.0 && x < y
    ensures x * d < y * d
  {
  }

}
