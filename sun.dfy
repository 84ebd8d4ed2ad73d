/**
 * The Sun's true position in the current version: mean position, apogee,
 * mean argument reduced mod 360, equation lookup, and the true position
 * reduced mod 360. The same pipeline is the `sun_true_pos` of
 * true_position.py.
 */
module Sun {
  import opened Wrappers
  import opened Angles
  import Sexagesimal
  import CoreUtils
  import TableClasses

  /** `SUN_APOGEE`: the constant 1,11;25,23 degrees. */
  const SunApogeeRadix: real := Sexagesimal.Value([1, 11], [25, 23])

  /** The constant written out: 71 degrees, 25 minutes, 23 seconds. */
  lemma SunApogeeRadixValue()
    ensures SunApogeeRadix == 71.0 + 25.0 / 60.0 + 23.0 / 3600.0
  {
    assert [1, 11][..1] == [1];
    assert [1][..0] == [];
    assert Sexagesimal.IntegerValue([1, 11]) == 71;
    assert [25, 23][1..] == [23];
    assert [23][1..] == [];
    assert Sexagesimal.FractionValue([25, 23]) == (25.0 + 23.0 / 60.0) / 60.0;
  }

  /** The intermediate values of `sun_true_pos`. */
  datatype SunPosition = SunPosition(meanSun: real, apogee: real, meanArgument: real, equation: real, truePosition: real)

  /** Reducing a difference and adding the subtrahend back gives the minuend, mod 360. */
  lemma ModSubAdd(a: real, b: real)
    ensures Mod360(Mod360(a - b) + b) == Mod360(a)
  {
    ModAddLeft(a - b, b);
  }

  /**
   * `sun_true_pos` at a day count: all three mean motions are evaluated at
   * the same day count, the apogee is the fixed-star position plus
   * `SUN_APOGEE`, the equation is looked up at the mean argument.
   */
  function SunStages(fs: TableClasses.FixedStars, sunMotion: CoreUtils.Motion, sunEquation: TableClasses.Tab,
                     days: CoreUtils.Days): (s: SunPosition)
    ensures s.meanSun == sunMotion(days)
    ensures s.apogee == TableClasses.StellarPosition(fs, days) + SunApogeeRadix
    ensures 0.0 <= s.meanArgument < 360.0 && Mod360(s.meanArgument + s.apogee) == Mod360(s.meanSun)
    ensures s.equation == sunEquation(s.meanArgument)
    ensures 0.0 <= s.truePosition < 360.0 && Mod360(s.truePosition + s.equation) == Mod360(s.meanSun)
  {
    var meanSun := sunMotion(days);
    var meanFixedStar := fs.meanMotion(days);
    var accessRecess := fs.accessRecessMM(days);
    var eqAccessRecess := fs.accessRecessEq(accessRecess);
    var apogee := meanFixedStar + eqAccessRecess + SunApogeeRadix;
    var meanArg := Mod360(meanSun - apogee);
    var eq := sunEquation(meanArg);
    ModSubAdd(meanSun, apogee);
    ModSubAdd(meanSun, eq);
    SunPosition(meanSun, apogee, meanArg, eq, Mod360(meanSun - eq))
  }

  /** The true longitude of the Sun, in [0,360). */
  function SunTruePos(fs: TableClasses.FixedStars, sunMotion: CoreUtils.Motion, sunEquation: TableClasses.Tab,
                      days: CoreUtils.Days): (r: real)
    ensures 0.0 <= r < 360.0
  {
    SunStages(fs, sunMotion, sunEquation, days).truePosition
  }

  /** When the mean position is at least the equation and less than a turn above it, no wrap happens. */
  lemma SunTruePosNoWrap(fs: TableClasses.FixedStars, sunMotion: CoreUtils.Motion, sunEquation: TableClasses.Tab,
                         days: CoreUtils.Days)
    requires var s := SunStages(fs, sunMotion, sunEquation, days); 0.0 <= s.meanSun - s.equation < 360.0
    ensures var s := SunStages(fs, sunMotion, sunEquation, days); s.truePosition == s.meanSun - s.equation
  {
    var s := SunStages(fs, sunMotion, sunEquation, days);
    ModOfInRange(s.meanSun - s.equation);
  }

  /**
   * The constant `SUN_APOGEE` is what a table set's Sun would give through
   * `get_apogee` when its apogee radix is 1,11;25,23.
   */
  lemma SunApogeeAsTableSet(sun: TableClasses.Planet, fs: TableClasses.FixedStars, sunEquation: TableClasses.Tab,
                            days: CoreUtils.Days)
    requires sun.Sun? && sun.sunApogeeRadix == SunApogeeRadix
    ensures TableClasses.GetApogee(sun, fs, sun, days)
         == Some(SunStages(fs, sun.sunMeanMotion, sunEquation, days).apogee)
  {
    TableClasses.SunApogee(sun, fs, days);
  }
}
