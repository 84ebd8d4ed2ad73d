/**
 * The current mean-motion rule: a day count written in sexagesimal digits is
 * turned into a mean position by adding, to a radix, one table value per
 * digit shifted so that the units digit always lands at the same place.
 */
module CoreUtils {
  import opened Angles

  /** A day count as its sexagesimal digits, most significant first (`ndays[:]`). */
  type Days = seq<int>

  /** A mean motion: a day count to an angle. */
  type Motion = Days -> real

  /** The default number of extra places every table value is shifted right. */
  const DefaultZodiacOffset: int := 4

  /**
   * The place of digit 0 among |ds| digits: digit i is shifted
   * `(i + 4 - |ds|) + zodiacOffset` places.
   */
  function Base(ds: Days, zodiacOffset: int): int
  {
    4 - |ds| + zodiacOffset
  }

  /** The mean position `position_from_table` computes, reduced to [0,360). */
  function Position(ds: Days, tab: real -> real, radix: real, zodiacOffset: int): real
  {
    Mod360(radix + ShiftedSum(ds, tab, Base(ds, zodiacOffset)))
  }

  /** The accumulating loop of `position_from_table`, then the reduction mod 360. */
  method PositionFromTable(ndays: Days, tab: real -> real, radix: real, zodiacOffset: int := DefaultZodiacOffset)
    returns (result: real)
    ensures result == Position(ndays, tab, radix, zodiacOffset)
    ensures 0.0 <= result < 360.0
  {
    result := radix;
    for i := 0 to |ndays|
      invariant result == radix + ShiftedSum(ndays[..i], tab, Base(ndays, zodiacOffset))
    {
      assert ndays[..i + 1][..i] == ndays[..i];
      result := result + Shift(tab(ndays[i] as real), (i + 4 - |ndays|) + zodiacOffset);
    }
    assert ndays[..|ndays|] == ndays;
    result := Mod360(result);
  }

  /** With no digits the position is the radix reduced mod 360. */
  lemma PositionNoDigits(tab: real -> real, radix: real, zodiacOffset: int)
    ensures Position([], tab, radix, zodiacOffset) == Mod360(radix)
  {
  }

  /** Digit i contributes its table value shifted `(i + 4 - |ds|) + zodiacOffset` places. */
  lemma PositionDigit(ds: Days, tab: real -> real, radix: real, zodiacOffset: int, i: nat)
    requires i < |ds|
    ensures Position(ds, tab, radix, zodiacOffset)
         == Mod360(radix + ShiftedSum(ds[..i], tab, Base(ds, zodiacOffset))
                         + Shift(tab(ds[i] as real), (i + 4 - |ds|) + zodiacOffset)
                         + ShiftedSum(ds[i + 1..], tab, Base(ds, zodiacOffset) + i + 1))
  {
    ShiftedSumDigit(ds, tab, Base(ds, zodiacOffset), i);
  }

  /** The last (units) digit is shifted `3 + zodiacOffset` places whatever the digit count. */
  lemma PositionLastDigit(ds: Days, tab: real -> real, radix: real, zodiacOffset: int)
    requires |ds| > 0
    ensures Position(ds, tab, radix, zodiacOffset)
         == Mod360(radix + ShiftedSum(ds[..|ds| - 1], tab, Base(ds, zodiacOffset))
                         + Shift(tab(ds[|ds| - 1] as real), 3 + zodiacOffset))
  {
  }

  /**
   * Digits are aligned at the units end: a new leading digit adds one term
   * and every existing digit keeps its place.
   */
  lemma PositionLeadingDigit(d: int, ds: Days, tab: real -> real, radix: real, zodiacOffset: int)
    ensures Position([d] + ds, tab, radix, zodiacOffset)
         == Mod360(radix + Shift(tab(d as real), 3 - |ds| + zodiacOffset)
                         + ShiftedSum(ds, tab, Base(ds, zodiacOffset)))
  {
    ShiftedSumAppend([d], ds, tab, Base([d] + ds, zodiacOffset));
    assert [d][..0] == [];
  }

  /** `mean_motion(id, radix)`: the closure applying `position_from_table` with the table and radix. */
  function MeanMotion(tab: real -> real, radix: real, zodiacOffset: int := DefaultZodiacOffset): (m: Motion)
    ensures forall days :: 0.0 <= m(days) < 360.0
  {
    (days: Days) => Position(days, tab, radix, zodiacOffset)
  }
}
