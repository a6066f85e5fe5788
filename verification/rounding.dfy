/**
 * The integer arithmetic that turns an accumulated tap sum into a channel
 * value: `Math.round(sum / divisor)` on the exact quotient, then a clamp into
 * the byte range.
 */
module Rounding {

  function Abs(a: int): nat { if a < 0 then -a else a }

  /** Distance between two integers. */
  function Dist(a: int, b: int): nat { Abs(a - b) }

  /**
   * `Math.round(n / d)`: the nearest integer to the rational `n / d`, ties
   * going up, i.e. `floor(n / d + 1/2)`. The result `r` satisfies
   * `r - 1/2 <= n / d < r + 1/2`, written without fractions for either sign
   * of `d`.
   */
  function RoundHalfUp(n: int, d: int): (r: int)
    requires d != 0
    ensures d > 0 ==> d * (2 * r - 1) <= 2 * n < d * (2 * r + 1)
    ensures d < 0 ==> d * (2 * r + 1) < 2 * n <= d * (2 * r - 1)
  {
    var num := if d > 0 then 2 * n + d else -2 * n - d;
    var den := if d > 0 then 2 * d else -2 * d;
    var q := num / den;
    assert num == den * q + num % den && 0 <= num % den < den;
    q
  }

  /** Euclidean division is determined by quotient and remainder. */
  lemma DivUnique(num: int, den: int, q: int, rem: int)
    requires den > 0 && 0 <= rem < den && num == den * q + rem
    ensures num / den == q
  {
    var q' := num / den;
    var rem' := num % den;
    assert den * q' + rem' == den * q + rem;
    assert den * (q - q') == rem' - rem;
    if q' < q {
      MulAtLeast(den, q - q');
    } else if q' > q {
      MulAtLeast(den, q' - q);
    }
  }

  lemma MulAtLeast(a: int, b: int)
    requires a > 0 && b >= 1
    ensures a * b >= a
  {
  }

  /** An exact multiple rounds to its quotient. */
  lemma RoundExact(b: int, d: int)
    requires d != 0
    ensures RoundHalfUp(b * d, d) == b
  {
    if d > 0 {
      assert 2 * (b * d) + d == (2 * d) * b + d;
      DivUnique(2 * (b * d) + d, 2 * d, b, d);
    } else {
      assert -2 * (b * d) - d == (-2 * d) * b + (-d);
      DivUnique(-2 * (b * d) - d, -2 * d, b, -d);
    }
  }

  /**
   * Clamps into `[0, 255]`: the result is the value of that range nearest
   * to `t`.
   */
  function Clamp(t: int): (r: int)
    ensures 0 <= r <= 255
    ensures forall v :: 0 <= v <= 255 ==> Dist(r, t) <= Dist(v, t)
  {
    if t > 255 then 255 else if t < 0 then 0 else t
  }
}
