/** Extremes and rounding, and the few facts about products and quotients that the other modules
    lean on. */
module Arithmetic {

  function Max(a: int, b: int): int {
    if a >= b then a else b
  }

  function Min(a: int, b: int): int {
    if a <= b then a else b
  }

  function RMax(a: real, b: real): real {
    if a >= b then a else b
  }

  function RMin(a: real, b: real): real {
    if a <= b then a else b
  }

  /** A non-negative amount to the nearest whole cent, halves up: toFixed(2), or what a numeric(15,2)
      column keeps. */
  function Cents(x: real): int {
    (x + 0.5).Floor
  }

  lemma MulLe(d: int, x: int, y: int)
    requires d >= 0 && x <= y
    ensures d * x <= d * y
  {
    assert d * (y - x) >= 0;
  }

  lemma MulCancelLt(d: int, x: int, y: int)
    requires d > 0 && d * x < d * y
    ensures x < y
  {
    if y <= x {
      MulLe(d, y, x);
    }
  }

  /** The quotient is the only q with d*q <= a < d*q + d. */
  lemma DivIs(a: int, d: int, q: int)
    requires d > 0 && d * q <= a < d * q + d
    ensures a / d == q
  {
    assert d * (q + 1) == d * q + d;
    assert d * (a / d + 1) == d * (a / d) + d;
    MulCancelLt(d, q, a / d + 1);
    MulCancelLt(d, a / d, q + 1);
  }

  lemma DivMinusOne(a: int, d: int)
    requires d > 0
    ensures (a - d) / d == a / d - 1
  {
    assert d * (a / d - 1) == d * (a / d) - d;
    DivIs(a - d, d, a / d - 1);
  }

  lemma DivMonotone(a: int, b: int, d: int)
    requires a <= b && d > 0
    ensures a / d <= b / d
  {
    assert d * (b / d + 1) == d * (b / d) + d;
    MulCancelLt(d, a / d, b / d + 1);
  }
}
