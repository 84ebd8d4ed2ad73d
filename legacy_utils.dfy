/**
 * The older mean-motion rule: digit i of the day count is shifted
 * `i + zodiacOffset` places, counted from the most significant digit, so
 * the places do not depend on how many digits the day count has.
 */
module LegacyUtils {
  import opened Angles
  import CoreUtils

  /** The mean position the older `position_from_table` computes, reduced to [0,360). */
  function Position(ds: CoreUtils.Days, tab: real -> real, radix: real, zodiacOffset: int): real
  {
    Mod360(radix + ShiftedSum(ds, tab, zodiacOffset))
  }

  /** The older accumulating loop, then the reduction mod 360. */
  method PositionFromTable(ndays: CoreUtils.Days, tab: real -> real, radix: real, zodiacOffset: int := CoreUtils.DefaultZodiacOffset)
    returns (result: real)
    ensures result == Position(ndays, tab, radix, zodiacOffset)
    ensures 0.0 <= result < 360.0
  {
    result := radix;
    for i := 0 to |ndays|
      invariant result == radix + ShiftedSum(ndays[..i], tab, zodiacOffset)
    {
      assert ndays[..i + 1][..i] == ndays[..i];
      result := result + Shift(tab(ndays[i] as real), i + zodiacOffset);
    }
    assert ndays[..|ndays|] == ndays;
    result := Mod360(result);
  }

  /** With no digits the position is the radix reduced mod 360. */
  lemma PositionNoDigits(tab: real -> real, radix: real, zodiacOffset: int)
    ensures Position([], tab, radix, zodiacOffset) == Mod360(radix)
  {
  }

  /** Digit i contributes its table value shifted `i + zodiacOffset` places. */
  lemma PositionDigit(ds: CoreUtils.Days, tab: real -> real, radix: real, zodiacOffset: int, i: nat)
    requires i < |ds|
    ensures Position(ds, tab, radix, zodiacOffset)
         == Mod360(radix + ShiftedSum(ds[..i], tab, zodiacOffset)
                         + Shift(tab(ds[i] as real), i + zodiacOffset)
                         + ShiftedSum(ds[i + 1..], tab, zodiacOffset + i + 1))
  {
    ShiftedSumDigit(ds, tab, zodiacOffset, i);
  }

  /**
   * Digits are aligned at the most significant end: a new trailing digit adds
   * one term and every existing digit keeps its place.
   */
  lemma PositionTrailingDigit(ds: CoreUtils.Days, d: int, tab: real -> real, radix: real, zodiacOffset: int)
    ensures Position(ds + [d], tab, radix, zodiacOffset)
         == Mod360(radix + ShiftedSum(ds, tab, zodiacOffset) + Shift(tab(d as real), |ds| + zodiacOffset))
  {
    ShiftedSumAppend(ds, [d], tab, zodiacOffset);
    assert [d][..0] == [];
  }

  /**
   * The two rules agree when the older offset is moved by `4 - |ds|`; in
   * particular they add identical terms for a four-digit day count.
   */
  lemma AgreesWithCore(ds: CoreUtils.Days, tab: real -> real, radix: real, zodiacOffset: int)
    ensures CoreUtils.Position(ds, tab, radix, zodiacOffset) == Position(ds, tab, radix, zodiacOffset + 4 - |ds|)
    ensures |ds| == 4 ==> CoreUtils.Position(ds, tab, radix, zodiacOffset) == Position(ds, tab, radix, zodiacOffset)
  {
  }

  /** `mean_motion(id, radix, **kwargs)`: the closure forwarding the zodiac offset. */
  function MeanMotion(tab: real -> real, radix: real, zodiacOffset: int := CoreUtils.DefaultZodiacOffset): (m: CoreUtils.Motion)
    ensures forall days :: 0.0 <= m(days) < 360.0
  {
    (days: CoreUtils.Days) => Position(days, tab, radix, zodiacOffset)
  }
}
