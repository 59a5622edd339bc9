/**
 * Python 3's one-argument `round`, applied to exact real numbers: the nearest
 * integer, and on a tie (a fractional part of exactly one half) the even one.
 */
module Rounding {

  /** `n` is `x` rounded to the nearest integer, a tie going to the even one. */
  predicate IsRounding(x: real, n: int)
  {
    && n as real - 0.5 <= x <= n as real + 0.5
    && ((x == n as real - 0.5 || x == n as real + 0.5) ==> n % 2 == 0)
  }

  /** The rounding is the floor of `x` or the integer above it. */
  lemma RoundingExists(x: real)
    ensures IsRounding(x, x.Floor) || IsRounding(x, x.Floor + 1)
  {
  }

  /** Two integers that both round `x` are the same: on a tie only one of them is even. */
  lemma RoundingUnique(x: real)
    ensures forall m, n :: IsRounding(x, m) && IsRounding(x, n) ==> m == n
  {
  }

  function Round(x: real): (n: int)
    ensures IsRounding(x, n)
  {
    RoundingExists(x);
    RoundingUnique(x);
    var n :| IsRounding(x, n);
    n
  }

  /** Rounding never reverses the order of two numbers. */
  lemma RoundMonotone(x: real, y: real)
    requires x <= y
    ensures Round(x) <= Round(y)
  {
  }

  /** An integer rounds to itself. */
  lemma RoundInt(k: int)
    ensures Round(k as real) == k
  {
  }

  /** A positive number at most one half rounds to zero (the tie 0.5 goes to the even 0). */
  lemma RoundSmall(x: real)
    requires 0.0 < x <= 0.5
    ensures Round(x) == 0
  {
  }
}
