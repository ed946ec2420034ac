/** JavaScript's `Math.round`, taken on exact rational arguments.

    Every handicap figure of the tracker is produced as `Math.round(x * k) / k`
    for a scale k of 10 or 100; the per-hole par is `Math.round(par / holes)`
    with no scale. The model keeps the rounded figure as the integer
    `Math.round(x * k)`, a count of tenths or hundredths, and computes it from
    an integer numerator and denominator, so no floating point is involved. */
module Rounding {

  /** `v` is `Math.round(x)`: the integer with `v <= x + 1/2 < v + 1`, that is
      `floor(x + 1/2)`. Halves therefore round toward positive infinity, so
      -12.5 rounds to -12 and 12.5 to 13. */
  ghost predicate IsJsRound(x: real, v: int) {
    v as real <= x + 0.5 < v as real + 1.0
  }

  /** `Math.round(n / d)` for integers `n` and `d`, with the rational `n / d`
      taken exactly. */
  function RoundDiv(n: int, d: int): (v: int)
    requires d != 0
    ensures IsJsRound(n as real / d as real, v)
    ensures d > 0 ==> 2 * d * v <= 2 * n + d < 2 * d * v + 2 * d
  {
    if d > 0 then
      FloorHalfCorrect(n, d);
      (2 * n + d) / (2 * d)
    else
      FloorHalfCorrect(-n, -d);
      assert (-n) as real / (-d) as real == n as real / d as real;
      (2 * -n + -d) / (2 * -d)
  }

  /** For a positive denominator, the floor of `(2n + d) / 2d` is `Math.round(n / d)`. */
  lemma FloorHalfCorrect(n: int, d: int)
    requires d > 0
    ensures IsJsRound(n as real / d as real, (2 * n + d) / (2 * d))
    ensures 2 * d * ((2 * n + d) / (2 * d)) <= 2 * n + d < 2 * d * ((2 * n + d) / (2 * d)) + 2 * d
  {
    var q := (2 * n + d) / (2 * d);
    var m := (2 * n + d) % (2 * d);
    assert 2 * n + d == 2 * d * q + m && 0 <= m < 2 * d;
    var x := n as real / d as real;
    var dd := (2 * d) as real;
    assert x * d as real == n as real;
    // x + 1/2 - q == m / 2d, which lies in [0, 1).
    var frac := m as real / dd;
    assert frac * dd == m as real;
    if frac >= 1.0 {
      ScaleMonotone(1.0, frac, dd);
      assert false;
    }
    ScaleMonotone(0.0, frac, dd);
    assert (x + 0.5 - q as real) * dd == m as real;
    ScaleCancel(x + 0.5 - q as real, frac, dd);
  }

  /** Multiplying by a positive real keeps order. */
  lemma ScaleMonotone(a: real, b: real, c: real)
    requires a <= b && c > 0.0
    ensures a * c <= b * c
  {
  }

  /** A nonzero common factor cancels. */
  lemma ScaleCancel(a: real, b: real, c: real)
    requires c != 0.0 && a * c == b * c
    ensures a == b
  {
  }

  /** `Math.round` is monotone: a larger argument never rounds to a smaller integer. */
  lemma JsRoundMonotone(x: real, y: real, v: int, w: int)
    requires x <= y && IsJsRound(x, v) && IsJsRound(y, w)
    ensures v <= w
  {
  }

  /** `Math.round` has exactly one result. */
  lemma JsRoundUnique(x: real, v: int, w: int)
    requires IsJsRound(x, v) && IsJsRound(x, w)
    ensures v == w
  {
  }

  /** Halves round toward positive infinity: -0.125 at two decimals is
      -12.5 hundredths, which rounds to -12 (-0.12), while 0.125 gives 13. */
  lemma HalvesRoundUp()
    ensures RoundDiv(-125, 10) == -12
    ensures RoundDiv(125, 10) == 13
  {
  }
}
