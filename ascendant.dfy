/**
 * The ascendant: the oblique ascensions of the Sun's rising and setting
 * points at the observer's latitude, the diurnal arc between them, its
 * midpoint, and the longitude whose oblique ascension that midpoint is.
 */
module Ascendant {
  import opened Wrappers
  import opened Angles
  import CoreUtils
  import TableClasses
  import Sun

  /** The intermediate values of `ascendant`. */
  datatype Ascension = Ascension(sun: real, rising: real, setting: real, diurnalArc: real, ascensionDegree: real)

  /**
   * The rising and setting oblique ascensions of the Sun's longitude `sun`
   * (setting at the opposite point), the diurnal arc and its midpoint.
   * None when there is no oblique ascension table.
   */
  function AscensionOf(oa: TableClasses.ObliqueAscension, get: TableClasses.Lookup, sun: real, latitude: real)
    : (a: Option<Ascension>)
    ensures a.None? <==> oa.tables == map[]
    ensures a.Some? ==>
      && a.value.sun == sun
      && Some(a.value.rising) == TableClasses.Get(oa, get, sun, latitude)
      && Some(a.value.setting) == TableClasses.Get(oa, get, Mod360(sun + 180.0), latitude)
    ensures a.Some? ==> 0.0 <= a.value.diurnalArc < 360.0 && 0.0 <= a.value.ascensionDegree < 360.0
  {
    var rising := TableClasses.Get(oa, get, sun, latitude);
    var setting := TableClasses.Get(oa, get, Mod360(sun + 180.0), latitude);
    if rising.None? || setting.None? then None
    else
      var arc := Mod360(setting.value - rising.value);
      Some(Ascension(sun, rising.value, setting.value, arc, Mod360(rising.value + arc / 2.0)))
  }

  /**
   * The ascension degree halves the diurnal arc: it lies half the arc past
   * the rising point and half the arc before the setting point.
   */
  lemma MidpointOfArc(oa: TableClasses.ObliqueAscension, get: TableClasses.Lookup, sun: real, latitude: real)
    requires oa.tables != map[]
    ensures var a := AscensionOf(oa, get, sun, latitude).value;
      && Mod360(a.ascensionDegree - a.rising) == a.diurnalArc / 2.0
      && Mod360(a.setting - a.ascensionDegree) == a.diurnalArc / 2.0
  {
    var a := AscensionOf(oa, get, sun, latitude).value;
    var half := a.diurnalArc / 2.0;
    var k1 := ModDifference(a.rising + half);
    ModUnique(a.ascensionDegree - a.rising, half, -k1);
    var k2 := ModDifference(a.setting - a.rising);
    ModUnique(a.setting - a.ascensionDegree, half, k2 + k1);
  }

  /** `ascendant(days, latitude)`: the reverse oblique ascension at the ascension degree, same latitude. */
  function AscendantOf(oa: TableClasses.ObliqueAscension, get: TableClasses.Lookup, fs: TableClasses.FixedStars,
                       sunMotion: CoreUtils.Motion, sunEquation: TableClasses.Tab, days: CoreUtils.Days, latitude: real)
    : (r: Option<real>)
    ensures oa.tables == map[] ==> r.None?
    ensures oa.tables != map[] ==>
      var a := AscensionOf(oa, get, Sun.SunTruePos(fs, sunMotion, sunEquation, days), latitude).value;
      r == TableClasses.ReverseLookup(oa, get, a.ascensionDegree, latitude)
  {
    match AscensionOf(oa, get, Sun.SunTruePos(fs, sunMotion, sunEquation, days), latitude)
    case None => None
    case Some(a) => TableClasses.ReverseLookup(oa, get, a.ascensionDegree, latitude)
  }

  /** The day count enters only through the Sun's true longitude. */
  lemma AscendantThroughSun(oa: TableClasses.ObliqueAscension, get: TableClasses.Lookup, fs: TableClasses.FixedStars,
                            sunMotion: CoreUtils.Motion, sunEquation: TableClasses.Tab,
                            days1: CoreUtils.Days, days2: CoreUtils.Days, latitude: real)
    requires Sun.SunTruePos(fs, sunMotion, sunEquation, days1) == Sun.SunTruePos(fs, sunMotion, sunEquation, days2)
    ensures AscendantOf(oa, get, fs, sunMotion, sunEquation, days1, latitude)
         == AscendantOf(oa, get, fs, sunMotion, sunEquation, days2, latitude)
  {
  }
}
