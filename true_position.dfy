/**
 * The unfinished Moon pipeline of true_position.py (its `sun_true_pos` is
 * the pipeline of the Sun module). It computes the mean positions, the
 * doubled elongation ("moon center"), the centre equation and minuta
 * proportionalia at the moon center, the true argument and the argument
 * equation; it returns nothing.
 */
module TruePosition {
  import CoreUtils
  import TableClasses

  /** The intermediate values of `moon_true_pos`. */
  datatype MoonStages = MoonStages(
    meanMoon: real, meanSun: real, meanArgument: real, moonCenter: real,
    centerEquation: real, minProp: real, trueArgument: real, argEquation: real)

  /**
   * `moon_true_pos` as written. The conditional expression binds looser
   * than the product, so the far-side branch adds the constant -1 rather
   * than the negated centre equation.
   */
  function MoonTruePos(moon: TableClasses.Moon, sunMotion: CoreUtils.Motion, days: CoreUtils.Days): (m: MoonStages)
    ensures m.meanMoon == moon.meanMotion(days) && m.meanSun == sunMotion(days) && m.meanArgument == moon.meanArgument(days)
    ensures m.moonCenter == (m.meanMoon - m.meanSun) * 2.0
    ensures m.centerEquation == moon.equationCenter(m.moonCenter) && m.minProp == moon.minutaProportionalia(m.moonCenter)
    ensures m.moonCenter < 180.0 ==> m.trueArgument == m.meanArgument + m.centerEquation
    ensures m.moonCenter >= 180.0 ==> m.trueArgument == m.meanArgument - 1.0
    ensures m.argEquation == moon.equationArg(m.trueArgument)
  {
    var meanMoon := moon.meanMotion(days);
    var meanSun := sunMotion(days);
    var meanArg := moon.meanArgument(days);
    var moonCenter := (meanMoon - meanSun) * 2.0;
    var centerEq := moon.equationCenter(moonCenter);
    var minProp := moon.minutaProportionalia(moonCenter);
    var trueArg := meanArg + (if moonCenter < 180.0 then centerEq * 1.0 else -1.0);
    var argEq := moon.equationArg(trueArg);
    MoonStages(meanMoon, meanSun, meanArg, moonCenter, centerEq, minProp, trueArg, argEq)
  }

  /** The moon center is not reduced: with mean positions in [0,360) it ranges over (-720,720). */
  lemma MoonCenterUnreduced(moon: TableClasses.Moon, sunMotion: CoreUtils.Motion, days: CoreUtils.Days)
    requires 0.0 <= moon.meanMotion(days) < 360.0 && 0.0 <= sunMotion(days) < 360.0
    ensures -720.0 < MoonTruePos(moon, sunMotion, days).moonCenter < 720.0
  {
  }

  /** On the far side the true argument as written does not depend on the centre equation at all. */
  lemma FarSideIgnoresCenterEquation(moon: TableClasses.Moon, other: TableClasses.Tab,
                                     sunMotion: CoreUtils.Motion, days: CoreUtils.Days)
    requires MoonTruePos(moon, sunMotion, days).moonCenter >= 180.0
    ensures MoonTruePos(moon.(equationCenter := other), sunMotion, days).trueArgument
         == MoonTruePos(moon, sunMotion, days).trueArgument
  {
  }

  /**
   * The sign-flip the `* 1` evidently aims at: the centre equation is added
   * on the near side and subtracted on the far side.
   */
  function MoonTruePosCorrected(moon: TableClasses.Moon, sunMotion: CoreUtils.Motion, days: CoreUtils.Days): (m: MoonStages)
    ensures m.meanMoon == moon.meanMotion(days) && m.meanSun == sunMotion(days) && m.meanArgument == moon.meanArgument(days)
    ensures m.moonCenter == (m.meanMoon - m.meanSun) * 2.0
    ensures m.centerEquation == moon.equationCenter(m.moonCenter) && m.minProp == moon.minutaProportionalia(m.moonCenter)
    ensures m.trueArgument == m.meanArgument + (if m.moonCenter < 180.0 then m.centerEquation else -m.centerEquation)
    ensures m.argEquation == moon.equationArg(m.trueArgument)
  {
    var meanMoon := moon.meanMotion(days);
    var meanSun := sunMotion(days);
    var meanArg := moon.meanArgument(days);
    var moonCenter := (meanMoon - meanSun) * 2.0;
    var centerEq := moon.equationCenter(moonCenter);
    var minProp := moon.minutaProportionalia(moonCenter);
    var trueArg := meanArg + centerEq * (if moonCenter < 180.0 then 1.0 else -1.0);
    var argEq := moon.equationArg(trueArg);
    MoonStages(meanMoon, meanSun, meanArg, moonCenter, centerEq, minProp, trueArg, argEq)
  }

  /** In the corrected pipeline the true argument is the mean argument moved by exactly the centre equation. */
  lemma CorrectedMovesByCenterEquation(moon: TableClasses.Moon, sunMotion: CoreUtils.Motion, days: CoreUtils.Days)
    ensures var m := MoonTruePosCorrected(moon, sunMotion, days);
      (m.moonCenter < 180.0 ==> m.trueArgument - m.meanArgument == m.centerEquation)
      && (m.moonCenter >= 180.0 ==> m.trueArgument - m.meanArgument == -m.centerEquation)
  {
  }

  /** The two agree on the near side, and on the far side only when the centre equation is 1. */
  lemma CorrectedAgreesIff(moon: TableClasses.Moon, sunMotion: CoreUtils.Motion, days: CoreUtils.Days)
    ensures var m := MoonTruePos(moon, sunMotion, days);
      var c := MoonTruePosCorrected(moon, sunMotion, days);
      m.trueArgument == c.trueArgument <==> (m.moonCenter < 180.0 || m.centerEquation == 1.0)
  {
  }

  /**
   * A concrete input: mean Moon 100, mean Sun 0 (moon center 200) and a
   * centre equation of 5 give a true argument 1 below the mean argument as
   * written, 5 below it as intended.
   */
  lemma FarSideExample(meanArgument: CoreUtils.Motion, tables: TableClasses.Tab, days: CoreUtils.Days)
    ensures var moon := TableClasses.Moon((d: CoreUtils.Days) => 100.0, meanArgument, (x: real) => 5.0, tables, tables, tables);
      var sunMotion := (d: CoreUtils.Days) => 0.0;
      && MoonTruePos(moon, sunMotion, days).trueArgument == meanArgument(days) - 1.0
      && MoonTruePosCorrected(moon, sunMotion, days).trueArgument == meanArgument(days) - 5.0
  {
  }
}
