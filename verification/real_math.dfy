/** The few `f32` operations the geometry uses, over exact reals. */
module RealMath {

  /** Smallest integer not below `x` (`f32::ceil`). */
  function Ceil(x: real): (n: int)
    ensures x <= n as real < x + 1.0
  {
    -((-x).Floor)
  }

  /** Nearest integer, halves rounded away from zero (`f32::round`). */
  function Round(x: real): (n: int)
    ensures x - 0.5 <= n as real <= x + 0.5
    ensures x >= 0.0 ==> x - 0.5 < n as real
    ensures x < 0.0 ==> n as real < x + 0.5
  {
    if x >= 0.0 then (x + 0.5).Floor else -((-x + 0.5).Floor)
  }

  /** Larger of two values (`f32::max`, NaN aside). */
  function Max(a: real, b: real): (m: real)
    ensures m >= a && m >= b
    ensures m == a || m == b
  {
    if a >= b then a else b
  }

  predicate IsInteger(x: real) {
    x == x.Floor as real
  }

  /** Rounding is monotone. */
  lemma RoundMonotone(x: real, y: real)
    requires x <= y
    ensures Round(x) <= Round(y)
  {
    if x >= 0.0 {
      assert (x + 0.5).Floor <= (y + 0.5).Floor;
    } else if y >= 0.0 {
      assert Round(x) <= 0 <= Round(y);
    } else {
      assert (-y + 0.5).Floor <= (-x + 0.5).Floor;
    }
  }

  /** Rounding leaves integers alone. */
  lemma RoundInteger(n: int)
    ensures Round(n as real) == n
  {
  }

  /** Clamping below by an integer commutes with rounding: for an integer
      floor `n`, `max(round(t), n) == round(max(t, n))`. */
  lemma {:induction false} MaxRoundCommute(t: real, n: int)
    ensures Max(Round(t) as real, n as real) == Round(Max(t, n as real)) as real
  {
    RoundInteger(n);
    if t >= n as real {
      RoundMonotone(n as real, t);
    } else {
      RoundMonotone(t, n as real);
    }
  }
}
