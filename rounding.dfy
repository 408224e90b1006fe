/** Integer rounding in the manner of JavaScript's Math.round, which rounds
    to the nearest integer and sends halves toward +infinity. */
module Rounding {

  /** r is num / den rounded to the nearest integer, halves upward:
      r <= num / den + 1/2 < r + 1. */
  predicate IsRoundedQuotient(num: int, den: int, r: int)
    requires den > 0
  {
    2 * den * r <= 2 * num + den < 2 * den * r + 2 * den
  }

  /** Math.round(num / den) for integers, with den > 0. */
  function RoundRatio(num: int, den: int): (r: int)
    requires den > 0
    ensures IsRoundedQuotient(num, den, r)
  {
    (2 * num + den) / (2 * den)
  }

  /** At most one integer is the rounded quotient. */
  lemma RoundedQuotientUnique(num: int, den: int, r1: int, r2: int)
    requires den > 0
    requires IsRoundedQuotient(num, den, r1) && IsRoundedQuotient(num, den, r2)
    ensures r1 == r2
  {
    if r1 < r2 {
      MulMonotone(2 * den, r1 + 1, r2);
    } else if r2 < r1 {
      MulMonotone(2 * den, r2 + 1, r1);
    }
  }

  /** Rounding a quotient that is already an integer gives that integer. */
  lemma RoundRatioExact(k: int, den: int)
    requires den > 0
    ensures RoundRatio(k * den, den) == k
  {
    RoundedQuotientUnique(k * den, den, RoundRatio(k * den, den), k);
  }

  lemma MulMonotone(a: int, b: int, c: int)
    requires a > 0 && b <= c
    ensures a * b <= a * c
  {
    assert a * c - a * b == a * (c - b);
  }
}
