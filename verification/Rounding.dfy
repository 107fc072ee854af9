/** Clamping, and rounding to a fixed number of decimals as `toFixed` does, over exact reals. */
module Rounding {
  function Clamp01(x: real): real { if x < 0.0 then 0.0 else if x > 1.0 then 1.0 else x }

  /** The nearest hundredth; ties go away from zero. */
  function Fixed2(x: real): (r: real)
    ensures x - 0.005 <= r <= x + 0.005
  {
    if x < 0.0 then -((-x * 100.0 + 0.5).Floor as real / 100.0) else (x * 100.0 + 0.5).Floor as real / 100.0
  }

  /** The nearest thousandth; ties go away from zero.  Values from 0 to 1 stay there. */
  function Fixed3(x: real): (r: real)
    ensures x - 0.0005 <= r <= x + 0.0005
    ensures 0.0 <= x <= 1.0 ==> 0.0 <= r <= 1.0
  {
    if x < 0.0 then -((-x * 1000.0 + 0.5).Floor as real / 1000.0) else (x * 1000.0 + 0.5).Floor as real / 1000.0
  }

  /** Rounding keeps the order. */
  lemma Fixed3Rises(x: real, y: real)
    requires x <= y
    ensures Fixed3(x) <= Fixed3(y)
  {
    if x >= 0.0 {
      assert (x * 1000.0 + 0.5).Floor <= (y * 1000.0 + 0.5).Floor;
    } else if y < 0.0 {
      assert (-y * 1000.0 + 0.5).Floor <= (-x * 1000.0 + 0.5).Floor;
    } else {
      assert (-x * 1000.0 + 0.5).Floor >= 0 && (y * 1000.0 + 0.5).Floor >= 0;
    }
  }

  /** A whole number of thousandths is not changed. */
  lemma Fixed3Keeps(n: nat)
    ensures Fixed3(n as real / 1000.0) == n as real / 1000.0
  {
    assert (n as real + 0.5).Floor == n;
  }

  /** A part of a total is a share between 0 and 1. */
  lemma ShareWithin(part: real, total: real)
    requires 0.0 <= part <= total && total > 0.0
    ensures 0.0 <= part / total <= 1.0
  {
  }

  lemma Scale(m: real, e: real, h: real)
    requires m > 0.0 && -h <= e <= h
    ensures -(h * m) <= e * m <= h * m
  {
  }

  lemma Quotient(x: real, m: real)
    requires m > 0.0
    ensures x / m * m == x
  {
  }
}
