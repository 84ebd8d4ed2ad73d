/**
 * Exact angle arithmetic: the reduction `mod` (Python's `x % 360` on a
 * degree quantity) and the sexagesimal shift `>> k`, which divides by 60^k.
 */
module Angles {

  /** Python's `x % 360`: the remainder takes the sign of the divisor. */
  function Mod360(x: real): (r: real)
    ensures 0.0 <= r < 360.0
  {
    x - 360.0 * ((x / 360.0).Floor as real)
  }

  /** Two angles that differ by a whole number of turns reduce alike. */
  lemma ModCongruent(x: real, y: real, k: int)
    requires x - y == (k as real) * 360.0
    ensures Mod360(x) == Mod360(y)
  {
    assert x / 360.0 == y / 360.0 + k as real;
    assert (x / 360.0).Floor == (y / 360.0).Floor + k;
  }

  /** An angle already in [0,360) is its own reduction. */
  lemma ModOfInRange(x: real)
    requires 0.0 <= x < 360.0
    ensures Mod360(x) == x
  {
    assert (x / 360.0).Floor == 0;
  }

  /** A value in [0,360) congruent to x is the reduction of x. */
  lemma ModUnique(x: real, y: real, k: int)
    requires 0.0 <= y < 360.0
    requires x - y == (k as real) * 360.0
    ensures Mod360(x) == y
  {
    ModCongruent(x, y, k);
    ModOfInRange(y);
  }

  /** x and its reduction differ by a whole number of turns. */
  lemma ModDifference(x: real) returns (k: int)
    ensures x - Mod360(x) == (k as real) * 360.0
  {
    k := (x / 360.0).Floor;
  }

  /** Reducing is idempotent. */
  lemma ModIdempotent(x: real)
    ensures Mod360(Mod360(x)) == Mod360(x)
  {
    ModOfInRange(Mod360(x));
  }

  /** Reducing an operand first does not change the reduction of a sum. */
  lemma ModAddLeft(x: real, y: real)
    ensures Mod360(Mod360(x) + y) == Mod360(x + y)
  {
    var k := ModDifference(x);
    ModCongruent(x + y, Mod360(x) + y, k);
  }

  /** Reducing both operands first does not change the reduction of a difference. */
  lemma ModSub(x: real, y: real)
    ensures Mod360(Mod360(x) - Mod360(y)) == Mod360(x - y)
  {
    var kx := ModDifference(x);
    var ky := ModDifference(y);
    ModCongruent(x - y, Mod360(x) - Mod360(y), kx - ky);
  }

  /** Reducing the subtrahend first does not change the reduction of a difference. */
  lemma ModSubRight(x: real, y: real)
    ensures Mod360(x - Mod360(y)) == Mod360(x - y)
  {
    var k := ModDifference(y);
    ModCongruent(x - Mod360(y), x - y, k);
  }

  /** A product of non-negative reals is non-negative. */
  lemma ProductNonNegative(x: real, y: real)
    requires 0.0 <= x && 0.0 <= y
    ensures 0.0 <= x * y
  {
  }

  /** A quotient of positive reals is positive. */
  lemma PositiveQuotient(n: real, d: real)
    requires 0.0 < n && 0.0 < d
    ensures n / d > 0.0
  {
  }

  /** A positive real divided by a greater one is below one. */
  lemma QuotientBelowOne(n: real, d: real)
    requires 0.0 < n < d
    ensures n / d < 1.0
  {
    PositiveQuotient(d - n, d);
    assert d / d == 1.0;
    assert (d - n) / d == d / d - n / d;
  }

  /** 60^n for a natural n. */
  function Pow60Nat(n: nat): (r: real)
    ensures r >= 1.0
  {
    if n == 0 then 1.0 else 60.0 * Pow60Nat(n - 1)
  }

  /** 60^k for any integer k. */
  function Pow60(k: int): (r: real)
    ensures r > 0.0
  {
    if k >= 0 then Pow60Nat(k) else 1.0 / Pow60Nat(-k)
  }

  /** The sexagesimal shift `x >> k`: k places to the right, i.e. division by 60^k. */
  function Shift(x: real, k: int): real
  {
    x / Pow60(k)
  }

  /**
   * The sum over the digits `ds` of `tab(d_i) >> (i + base)`: the place-value
   * aligned table contributions that both versions of `position_from_table`
   * accumulate (they differ only in `base`).
   */
  function ShiftedSum(ds: seq<int>, tab: real -> real, base: int): real
    decreases |ds|
  {
    if |ds| == 0 then 0.0
    else ShiftedSum(ds[..|ds| - 1], tab, base) + Shift(tab(ds[|ds| - 1] as real), |ds| - 1 + base)
  }

  /** Splitting the digits splits the sum; the second part's places start |a| further right. */
  lemma {:induction false} ShiftedSumAppend(a: seq<int>, b: seq<int>, tab: real -> real, base: int)
    ensures ShiftedSum(a + b, tab, base) == ShiftedSum(a, tab, base) + ShiftedSum(b, tab, base + |a|)
    decreases |b|
  {
    if |b| == 0 {
      assert a + b == a;
    } else {
      var b' := b[..|b| - 1];
      assert (a + b)[..|a + b| - 1] == a + b';
      assert (a + b)[|a + b| - 1] == b[|b| - 1];
      ShiftedSumAppend(a, b', tab, base);
    }
  }

  /** Digit i contributes exactly `tab(d_i) >> (i + base)`. */
  lemma ShiftedSumDigit(ds: seq<int>, tab: real -> real, base: int, i: nat)
    requires i < |ds|
    ensures ShiftedSum(ds, tab, base)
         == ShiftedSum(ds[..i], tab, base) + Shift(tab(ds[i] as real), i + base)
            + ShiftedSum(ds[i + 1..], tab, base + i + 1)
  {
    assert ds == ds[..i] + ds[i..];
    ShiftedSumAppend(ds[..i], ds[i..], tab, base);
    assert ds[i..] == [ds[i]] + ds[i + 1..];
    ShiftedSumAppend([ds[i]], ds[i + 1..], tab, base + i);
    assert ([ds[i]])[..0] == [];
    assert ShiftedSum([ds[i]], tab, base + i) == Shift(tab(ds[i] as real), i + base);
  }
}
