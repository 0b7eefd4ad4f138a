/**
 Decimal rounding in exact arithmetic: Python's `round` sends a tie to the even neighbour, SQLite's ROUND
 sends it away from zero.
 */
module Rounding {

  function Abs(x: real): (r: real)
    ensures r >= 0.0
  {
    if x < 0.0 then -x else x
  }

  /** `max(0.0, x)`. */
  function Max0(x: real): (r: real)
    ensures r >= 0.0 && r >= x
  {
    if x > 0.0 then x else 0.0
  }

  /** Python's `round(x)`: nearest integer, a tie goes to the even one. */
  function HalfEven(x: real): (r: int)
    ensures x - 0.5 <= r as real <= x + 0.5
    ensures x - r as real == 0.5 || r as real - x == 0.5 ==> r % 2 == 0
  {
    var f := x.Floor;
    var d := x - f as real;
    if d < 0.5 || (d == 0.5 && f % 2 == 0) then f else f + 1
  }

  /** SQLite's ROUND(x): nearest integer, a tie goes away from zero. */
  function HalfAway(x: real): (r: int)
    ensures x - 0.5 <= r as real <= x + 0.5
    ensures x - r as real == 0.5 ==> x < 0.0
    ensures r as real - x == 0.5 ==> x >= 0.0
  {
    if x >= 0.0 then (x + 0.5).Floor else -((-x + 0.5).Floor)
  }

  /** Python's `round(x, 1)`. */
  function Round1(x: real): (r: real)
    ensures x - 0.05 <= r <= x + 0.05
  {
    HalfEven(10.0 * x) as real / 10.0
  }

  /** Python's `round(x, 2)`. */
  function Round2(x: real): (r: real)
    ensures x - 0.005 <= r <= x + 0.005
  {
    HalfEven(100.0 * x) as real / 100.0
  }

  /** Python's `round(x, 3)`. */
  function Round3(x: real): (r: real)
    ensures x - 0.0005 <= r <= x + 0.0005
  {
    HalfEven(1000.0 * x) as real / 1000.0
  }

  lemma HalfEvenMonotone(x: real, y: real)
    requires x <= y
    ensures HalfEven(x) <= HalfEven(y)
  {
  }

  lemma Round2Monotone(x: real, y: real)
    requires x <= y
    ensures Round2(x) <= Round2(y)
  {
    HalfEvenMonotone(100.0 * x, 100.0 * y);
  }
}
