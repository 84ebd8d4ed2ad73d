/**
 * The Sun's true position in the older version: the same pipeline over the
 * older mean-motion rule, with fixed tables and radices, where each
 * subtraction adds a whole turn exactly when the minuend is the smaller
 * operand instead of reducing mod 360.
 */
module LegacySun {
  import opened Angles
  import Sexagesimal
  import CoreUtils
  import LegacyUtils
  import Sun

  /** Table identifiers: mean Sun, fixed stars, access and recess, its equation, the Sun's equation. */
  const MeanSunTable: int := 193
  const FixedStarsTable: int := 236
  const AccessRecessTable: int := 237
  const AccessRecessEquationTable: int := 238
  const SunEquationTable: int := 19

  /** Radices 4,38;21,0,30,28 and 5,59;12,34 degrees, and 0 for the fixed stars. */
  const MeanSunRadix: real := Sexagesimal.Value([4, 38], [21, 0, 30, 28])
  const FixedStarsRadix: real := 0.0
  const AccessRecessRadix: real := Sexagesimal.Value([5, 59], [12, 34])

  /** The access and recess motion is shifted two places instead of four. */
  const AccessRecessOffset: int := 2

  /** `a + (360 if a < b else 0) - b`. */
  function WrapSub(a: real, b: real): (r: real)
    ensures r == a - b + 360.0 <==> a < b
  {
    a + (if a < b then 360.0 else 0.0) - b
  }

  /** The conditional wrap is always congruent to the plain difference. */
  lemma WrapSubCongruent(a: real, b: real)
    ensures Mod360(WrapSub(a, b)) == Mod360(a - b)
  {
    if a < b {
      ModCongruent(WrapSub(a, b), a - b, 1);
    }
  }

  /** With both operands in [0,360) the conditional wrap is the reduction mod 360. */
  lemma WrapSubIsMod(a: real, b: real)
    requires 0.0 <= a < 360.0 && 0.0 <= b < 360.0
    ensures 0.0 <= WrapSub(a, b) < 360.0
    ensures WrapSub(a, b) == Mod360(a - b)
  {
    WrapSubCongruent(a, b);
    ModOfInRange(WrapSub(a, b));
  }

  /** The intermediate values of the older `sun_true_pos`. */
  datatype LegacySunPosition = LegacySunPosition(
    meanSun: real, meanFixedStar: real, accessRecess: real, eqAccessRecess: real,
    apogee: real, meanArgument: real, equation: real, truePosition: real)

  /** The older `sun_true_pos`; `read` stands for `read_dishas`, the table fetch. */
  function LegacySunStages(read: int -> (real -> real), days: CoreUtils.Days): (s: LegacySunPosition)
    ensures s.meanSun == LegacyUtils.Position(days, read(MeanSunTable), MeanSunRadix, CoreUtils.DefaultZodiacOffset)
    ensures s.meanFixedStar == LegacyUtils.Position(days, read(FixedStarsTable), FixedStarsRadix, CoreUtils.DefaultZodiacOffset)
    ensures s.accessRecess == LegacyUtils.Position(days, read(AccessRecessTable), AccessRecessRadix, AccessRecessOffset)
    ensures s.eqAccessRecess == read(AccessRecessEquationTable)(s.accessRecess)
    ensures s.apogee == s.meanFixedStar + s.eqAccessRecess + Sun.SunApogeeRadix
    ensures s.meanArgument == WrapSub(s.meanSun, s.apogee)
    ensures s.equation == read(SunEquationTable)(s.meanArgument)
    ensures s.truePosition == WrapSub(s.meanSun, s.equation)
    ensures Mod360(s.meanArgument) == Mod360(s.meanSun - s.apogee)
    ensures Mod360(s.truePosition) == Mod360(s.meanSun - s.equation)
  {
    var meanSun := LegacyUtils.MeanMotion(read(MeanSunTable), MeanSunRadix)(days);
    var meanFixedStar := LegacyUtils.MeanMotion(read(FixedStarsTable), FixedStarsRadix)(days);
    var accessRecess := LegacyUtils.MeanMotion(read(AccessRecessTable), AccessRecessRadix, AccessRecessOffset)(days);
    var eqAccessRecess := read(AccessRecessEquationTable)(accessRecess);
    var apogee := meanFixedStar + eqAccessRecess + Sun.SunApogeeRadix;
    var meanArg := WrapSub(meanSun, apogee);
    var eq := read(SunEquationTable)(meanArg);
    var truePos := WrapSub(meanSun, eq);
    WrapSubCongruent(meanSun, apogee);
    WrapSubCongruent(meanSun, eq);
    LegacySunPosition(meanSun, meanFixedStar, accessRecess, eqAccessRecess, apogee, meanArg, eq, truePos)
  }

  /**
   * The older pipeline agrees with the current reductions whenever the
   * apogee and the equation lie in [0,360) (the mean position always does).
   */
  lemma AgreesWithModVersion(read: int -> (real -> real), days: CoreUtils.Days)
    requires var s := LegacySunStages(read, days); 0.0 <= s.apogee < 360.0 && 0.0 <= s.equation < 360.0
    ensures var s := LegacySunStages(read, days);
      && s.meanArgument == Mod360(s.meanSun - s.apogee)
      && s.truePosition == Mod360(s.meanSun - s.equation)
      && 0.0 <= s.meanArgument < 360.0 && 0.0 <= s.truePosition < 360.0
  {
    var s := LegacySunStages(read, days);
    WrapSubIsMod(s.meanSun, s.apogee);
    WrapSubIsMod(s.meanSun, s.equation);
  }

  /** An apogee past a whole turn makes the older mean argument negative (here -30 degrees). */
  lemma ApogeePastTurn()
    ensures WrapSub(10.0, 400.0) == -30.0 && Mod360(10.0 - 400.0) == 330.0
  {
    ModUnique(10.0 - 400.0, 330.0, -2);
  }
}
