/**
  Exact model of PHP's `round()` on the quotient of two integers: round half
  away from zero. The score service divides two sums and rounds; working on
  the integer numerator and denominator keeps the model exact.
 */
module Rounding {

  /**
    `r` is the quotient `n / d` (with `d > 0`) rounded to the nearest integer:
    `r` is at most one half away from `n / d`, and exactly one half away only
    upwards for a non-negative quotient and downwards for a negative one.
   */
  predicate RoundsHalfAwayTo(n: int, d: int, r: int)
    requires d > 0
  {
    && 2 * n - d <= 2 * (r * d) <= 2 * n + d
    && (2 * (r * d) == 2 * n + d ==> n >= 0)
    && (2 * (r * d) == 2 * n - d ==> n < 0)
  }

  /** Euclidean division by a positive divisor brackets the dividend. */
  lemma DivBrackets(a: int, b: int)
    requires b > 0
    ensures b * (a / b) <= a < b * (a / b) + b
  {
  }

  /** For a non-negative dividend, `(2n + d) / 2d` rounds `n / d` and is never a half below it. */
  lemma HalfUpQuotient(n: int, d: int)
    requires n >= 0 && d > 0
    ensures RoundsHalfAwayTo(n, d, (2 * n + d) / (2 * d))
    ensures 2 * n - d < 2 * ((2 * n + d) / (2 * d) * d)
  {
    var q := (2 * n + d) / (2 * d);
    DivBrackets(2 * n + d, 2 * d);
    assert (2 * d) * q == 2 * (q * d);
  }

  /** `round(n / d)`, halves away from zero; a negative divisor flips both signs first. */
  function RoundHalfAway(n: int, d: int): (r: int)
    requires d != 0
    ensures d > 0 ==> RoundsHalfAwayTo(n, d, r)
    ensures d < 0 ==> RoundsHalfAwayTo(-n, -d, r)
    decreases if d < 0 then 1 else 0
  {
    if d < 0 then RoundHalfAway(-n, -d)
    else if n >= 0 then
      HalfUpQuotient(n, d);
      (2 * n + d) / (2 * d)
    else
      var q := (2 * -n + d) / (2 * d);
      HalfUpQuotient(-n, d);
      assert -q * d == -(q * d);
      -q
  }

  /** Products with a positive factor keep a gap of at least that factor. */
  lemma MulStep(a: int, b: int, d: int)
    requires d > 0 && a < b
    ensures a * d + d <= b * d
  {
    var k := b - a - 1;
    assert b * d == a * d + d + k * d;
    assert k * d >= 0;
  }

  /** At most one integer satisfies the rounding relation, so it pins the result down. */
  lemma RoundingIsUnique(n: int, d: int, r1: int, r2: int)
    requires d > 0
    requires RoundsHalfAwayTo(n, d, r1) && RoundsHalfAwayTo(n, d, r2)
    ensures r1 == r2
  {
    if r1 < r2 {
      MulStep(r1, r2, d);
    } else if r2 < r1 {
      MulStep(r2, r1, d);
    }
  }

  /** A quotient between `lo` and `hi` rounds to a value between them. */
  lemma RoundingStaysInRange(n: int, d: int, lo: int, hi: int)
    requires d > 0 && lo <= hi
    requires lo * d <= n <= hi * d
    ensures lo <= RoundHalfAway(n, d) <= hi
  {
    var r := RoundHalfAway(n, d);
    if r > hi {
      MulStep(hi, r, d);
    } else if r < lo {
      MulStep(r, lo, d);
    }
  }
}
