/**
 * The two roundings of the repository: Python 2's `round` (half away from
 * zero) followed by `int`, in the AOI overlay script, and arcpy's `Int`
 * (truncation toward zero) applied to `x * 10000 + 0.5` when a richness
 * tally is saved.
 */
module Rounding {
  /** `int(x)` / arcpy `Int(x)`: the integer part, truncating toward zero. */
  function Trunc(x: real): (r: int)
    ensures x >= 0.0 ==> r as real <= x < r as real + 1.0
    ensures x < 0.0 ==> r as real - 1.0 < x <= r as real
  {
    if x >= 0.0 then x.Floor else -((-x).Floor)
  }

  /** Python 2 `round(x)`: to the nearest integer, halves away from zero. */
  function RoundHalfAway(x: real): (r: int)
    ensures x >= 0.0 ==> r as real - 0.5 <= x < r as real + 0.5
    ensures x < 0.0 ==> r as real - 0.5 < x <= r as real + 0.5
  {
    if x >= 0.0 then (x + 0.5).Floor else -((-x + 0.5).Floor)
  }

  /** Rounding keeps a value of 0..100 inside 0..100. */
  lemma RoundPercent(x: real)
    requires 0.0 <= x <= 100.0
    ensures 0 <= RoundHalfAway(x) <= 100
  {
  }

  /**
   * `Int(x * 10000 + 0.5)` on a non-negative value is x rounded to four
   * decimal places, halves up: its distance to 10000 x is at most one half.
   */
  lemma FixedPointRounds(x: real)
    requires x >= 0.0
    ensures var r := Trunc(x * 10000.0 + 0.5) as real; r - 0.5 <= x * 10000.0 < r + 0.5
  {
  }
}
