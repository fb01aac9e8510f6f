/** Rounding to six decimal digits over exact reals, ties to even. */
module Rounding {

  const SCALE := 1000000.0

  function RoundHalfEven(y: real): (n: int)
    ensures y - 0.5 <= n as real <= y + 0.5
  {
    var f := y.Floor;
    var d := y - f as real;
    if d < 0.5 || (d == 0.5 && f % 2 == 0) then f else f + 1
  }

  function Round6(x: real): real {
    RoundHalfEven(x * SCALE) as real / SCALE
  }

  /** A value that overshoots the unit interval by less than half a digit still rounds into it. */
  lemma RoundIntoUnit(x: real)
    requires 0.0 <= x <= 1.0000004
    ensures 0.0 <= Round6(x) <= 1.0
  {
  }

  /** Rounding keeps the order of values. */
  lemma RoundMonotone(x: real, y: real)
    requires x <= y
    ensures Round6(x) <= Round6(y)
  {
    if x < y {
      WholesOrdered(RoundHalfEven(x * SCALE), RoundHalfEven(y * SCALE), x * SCALE, y * SCALE);
      QuotientMonotone(RoundHalfEven(x * SCALE) as real, RoundHalfEven(y * SCALE) as real, SCALE);
    }
  }

  lemma WholesOrdered(m: int, n: int, x: real, y: real)
    requires x < y && m as real <= x + 0.5 && y - 0.5 <= n as real
    ensures m <= n
  {
    assert (m - n) as real < 1.0;
  }

  lemma QuotientMonotone(x: real, y: real, w: real)
    requires x <= y && 0.0 < w
    ensures x / w <= y / w
  {
    assert y / w - x / w == (y - x) / w;
  }
}
