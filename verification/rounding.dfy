/**
  Rounding of an index value to two decimal places.

  The program rounds every interpolated index with `round(x, 2)`. Here the
  rounding is done on exact rationals, halves going up: the result is the
  unique multiple of 1/100 in the half-open window (x - 1/200, x + 1/200].
  The proofs about the interpolator need only two facts of it: it is
  monotone and it leaves integers (indeed all hundredths) unchanged.
 */
module Rounding {

  /** True iff `x` is a whole number of hundredths. */
  predicate IsHundredths(x: real) {
    (x * 100.0).Floor as real == x * 100.0
  }

  /** `x` rounded to two decimal places, halves rounded up. */
  function Round2(x: real): (r: real)
    ensures IsHundredths(r)
    ensures x - 0.005 < r <= x + 0.005
  {
    (x * 100.0 + 0.5).Floor as real / 100.0
  }

  /** Rounding never reverses the order of two values. */
  lemma Round2Monotone(x: real, y: real)
    requires x <= y
    ensures Round2(x) <= Round2(y)
  {
    assert (x * 100.0 + 0.5).Floor <= (y * 100.0 + 0.5).Floor;
  }

  /** A value that already has at most two decimals is left as it is. */
  lemma Round2OfHundredths(k: int)
    ensures Round2(k as real / 100.0) == k as real / 100.0
  {
    var x := k as real / 100.0;
    assert x * 100.0 + 0.5 == k as real + 0.5;
    assert (k as real + 0.5).Floor == k;
  }

  /** In particular every integer is a fixed point of the rounding. */
  lemma Round2OfInteger(n: int)
    ensures Round2(n as real) == n as real
  {
    Round2OfHundredths(100 * n);
    assert (100 * n) as real / 100.0 == n as real;
  }

  /** A value between two integers stays between them once rounded. */
  lemma Round2Between(x: real, lo: int, hi: int)
    requires lo as real <= x <= hi as real
    ensures lo as real <= Round2(x) <= hi as real
  {
    Round2Monotone(lo as real, x);
    Round2Monotone(x, hi as real);
    Round2OfInteger(lo);
    Round2OfInteger(hi);
  }
}
