/**
 * The value of a sexagesimal number written as integer digits and
 * fractional digits (kanon's `Sexagesimal(left, right)`), as an exact real.
 */
module Sexagesimal {

  /** The integer part, most significant digit first. */
  function IntegerValue(ds: seq<int>): int
    decreases |ds|
  {
    if |ds| == 0 then 0 else IntegerValue(ds[..|ds| - 1]) * 60 + ds[|ds| - 1]
  }

  /** The fractional part: digit j weighs 60^-(j+1). */
  function FractionValue(ds: seq<int>): real
    decreases |ds|
  {
    if |ds| == 0 then 0.0 else (ds[0] as real + FractionValue(ds[1..])) / 60.0
  }

  /** The value of the positive number with digits `left ; right`. */
  function Value(left: seq<int>, right: seq<int>): real
  {
    IntegerValue(left) as real + FractionValue(right)
  }
}
