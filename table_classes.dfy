/**
 * The table components of a table set: the celestial bodies with their
 * mean motions and tables, the oblique ascension tables sampled at several
 * latitudes (bracketed and blended linearly), the right ascension table,
 * apogee composition and the inferior planets' fallback to the Sun.
 *
 * An `HTable` is a two-column table (`index`, `values`); `HTable.get`, with
 * its interpolation and symmetries, is the uninterpreted `Lookup` parameter.
 */
module TableClasses {
  import opened Wrappers
  import opened Angles
  import CoreUtils

  /** A table lookup `real -> real` (a body's `read_table_input(...)` table). */
  type Tab = real -> real

  /** A two-column table: the argument column and the value column. */
  datatype Table = Table(index: seq<real>, values: seq<real>)

  /** `HTable.get` on a table. */
  type Lookup = (Table, real) -> real

  /** `reverse_table`: the copy indexed by the value column. */
  function ReverseTable(t: Table): (r: Table)
    ensures r.index == t.values && r.values == t.index
  {
    Table(t.values, t.index)
  }

  // ---------------------------------------------------------------------
  // Least and greatest element of a finite set of latitudes

  /** A non-empty set has an element. */
  lemma Inhabited(s: set<real>)
    requires s != {}
    ensures exists y :: y in s
  {
    if forall y :: y !in s {
      assert false;
    }
  }

  lemma {:induction false} MinWitness(s: set<real>) returns (m: real)
    requires s != {}
    ensures m in s && forall y | y in s :: m <= y
    decreases |s|
  {
    Inhabited(s);
    var x :| x in s;
    var rest := s - {x};
    if rest == {} {
      m := x;
      forall y | y in s
        ensures m <= y
      {
        assert y !in rest;
      }
    } else {
      var m' := MinWitness(rest);
      m := if x < m' then x else m';
      forall y | y in s
        ensures m <= y
      {
        if y != x {
          assert y in rest;
        }
      }
    }
  }

  lemma {:induction false} MaxWitness(s: set<real>) returns (m: real)
    requires s != {}
    ensures m in s && forall y | y in s :: y <= m
    decreases |s|
  {
    Inhabited(s);
    var x :| x in s;
    var rest := s - {x};
    if rest == {} {
      m := x;
      forall y | y in s
        ensures y <= m
      {
        assert y !in rest;
      }
    } else {
      var m' := MaxWitness(rest);
      m := if m' < x then x else m';
      forall y | y in s
        ensures y <= m
      {
        if y != x {
          assert y in rest;
        }
      }
    }
  }

  lemma MinExists(s: set<real>)
    requires s != {}
    ensures exists m :: m in s && forall y | y in s :: m <= y
  {
    var m := MinWitness(s);
  }

  lemma MaxExists(s: set<real>)
    requires s != {}
    ensures exists m :: m in s && forall y | y in s :: y <= m
  {
    var m := MaxWitness(s);
  }

  /** Python's `min` on a non-empty collection of latitudes. */
  function Min(s: set<real>): (m: real)
    requires s != {}
    ensures m in s && forall y | y in s :: m <= y
  {
    MinExists(s);
    var m :| m in s && forall y | y in s :: m <= y; m
  }

  /** Python's `max` on a non-empty collection of latitudes. */
  function Max(s: set<real>): (m: real)
    requires s != {}
    ensures m in s && forall y | y in s :: y <= m
  {
    MaxExists(s);
    var m :| m in s && forall y | y in s :: y <= m; m
  }

  // ---------------------------------------------------------------------
  // Oblique ascension

  /** The tables of oblique ascension, keyed by the latitude they are computed for. */
  datatype ObliqueAscension = ObliqueAscension(tables: map<real, Table>)

  /** The result of `_find_index`: the lower latitude, the upper one if blending, the ratio. */
  datatype Bracket = Bracket(lower: real, upper: Option<real>, ratio: real)

  /** The sampled latitudes below the query. */
  function Below(tables: map<real, Table>, lat: real): set<real>
  {
    set k | k in tables && k < lat
  }

  /** The sampled latitudes above the query. */
  function Above(tables: map<real, Table>, lat: real): set<real>
  {
    set k | k in tables && k > lat
  }

  /**
   * `_find_index`. None stands for the ValueError `min` raises on an empty
   * table dictionary; the latitudes it returns are always sampled ones.
   */
  function FindIndex(tables: map<real, Table>, lat: real): (b: Option<Bracket>)
    ensures b.None? <==> tables == map[]
    ensures b.Some? ==> b.value.lower in tables
    ensures b.Some? && b.value.upper.Some? ==> b.value.upper.value in tables
  {
    if tables == map[] then None
    else if lat in tables then Some(Bracket(lat, None, 0.0))
    else if lat < Min(tables.Keys) then Some(Bracket(Min(tables.Keys), None, 0.0))
    else if lat > Max(tables.Keys) then Some(Bracket(Max(tables.Keys), None, 0.0))
    else
      assert Min(tables.Keys) in Below(tables, lat);
      assert Max(tables.Keys) in Above(tables, lat);
      var lower := Max(Below(tables, lat));
      var upper := Min(Above(tables, lat));
      Some(Bracket(lower, Some(upper), (lat - lower) / (upper - lower)))
  }

  /** The query lies outside the sampled range or on a sampled latitude. */
  predicate Unblended(tables: map<real, Table>, lat: real)
  {
    lat in tables || (forall k | k in tables :: lat < k) || (forall k | k in tables :: k < lat)
  }

  /** A sampled latitude is returned as is, with no upper bracket. */
  lemma FindIndexSampled(tables: map<real, Table>, lat: real)
    requires lat in tables
    ensures FindIndex(tables, lat) == Some(Bracket(lat, None, 0.0))
  {
  }

  /** Below every sampled latitude the least one is used, unblended. */
  lemma FindIndexBelow(tables: map<real, Table>, lat: real)
    requires tables != map[]
    requires forall k | k in tables :: lat < k
    ensures FindIndex(tables, lat) == Some(Bracket(Min(tables.Keys), None, 0.0))
  {
    assert Min(tables.Keys) in tables;
  }

  /** Above every sampled latitude the greatest one is used, unblended. */
  lemma FindIndexAbove(tables: map<real, Table>, lat: real)
    requires tables != map[]
    requires forall k | k in tables :: k < lat
    ensures FindIndex(tables, lat) == Some(Bracket(Max(tables.Keys), None, 0.0))
  {
    assert Max(tables.Keys) in tables;
    assert Min(tables.Keys) in tables;
  }

  /** `_find_index` blends exactly when the query lies strictly between two sampled latitudes. */
  lemma FindIndexBlendsIff(tables: map<real, Table>, lat: real)
    requires tables != map[]
    ensures FindIndex(tables, lat).value.upper.None? <==> Unblended(tables, lat)
  {
    var keys := tables.Keys;
    if lat !in tables && lat >= Min(keys) && lat <= Max(keys) {
      assert Min(keys) in tables && Min(keys) < lat;
      assert Max(keys) in tables && Max(keys) > lat;
    }
  }

  /**
   * Between two sampled latitudes, `lower` is the greatest key below the
   * query, `upper` the least key above it, and the ratio locates the query
   * strictly inside the bracket.
   */
  lemma FindIndexBetween(tables: map<real, Table>, lat: real, lo: real, hi: real)
    requires lo in tables && hi in tables && lo < lat < hi
    requires lat !in tables
    ensures var b := FindIndex(tables, lat);
      && b.Some? && b.value.upper.Some?
      && b.value.lower in tables && b.value.upper.value in tables
      && b.value.lower < lat < b.value.upper.value
      && (forall k | k in tables :: !(b.value.lower < k < b.value.upper.value))
      && b.value.ratio == (lat - b.value.lower) / (b.value.upper.value - b.value.lower)
      && 0.0 < b.value.ratio < 1.0
  {
    var keys := tables.Keys;
    assert Min(keys) <= lo && hi <= Max(keys);
    assert lo in Below(tables, lat) && hi in Above(tables, lat);
    var lower := Max(Below(tables, lat));
    var upper := Min(Above(tables, lat));
    assert lower < lat < upper;
    forall k | k in tables
      ensures !(lower < k < upper)
    {
      if k < lat {
        assert k in Below(tables, lat);
      } else if k > lat {
        assert k in Above(tables, lat);
      }
    }
    RatioInside(lower, lat, upper);
  }

  lemma RatioInside(lower: real, lat: real, upper: real)
    requires lower < lat < upper
    ensures 0.0 < (lat - lower) / (upper - lower) < 1.0
  {
    PositiveQuotient(lat - lower, upper - lower);
    QuotientBelowOne(lat - lower, upper - lower);
  }

  /** `ObliqueAscension.get`: the lookups at the bracketing latitudes, blended by the ratio. */
  function Get(oa: ObliqueAscension, get: Lookup, longitude: real, latitude: real): (r: Option<real>)
    ensures r.None? <==> oa.tables == map[]
  {
    match FindIndex(oa.tables, latitude)
    case None => None
    case Some(Bracket(lowerIdx, None, _)) => Some(get(oa.tables[lowerIdx], longitude))
    case Some(Bracket(lowerIdx, Some(upperIdx), ratio)) =>
      var lower := get(oa.tables[lowerIdx], longitude);
      var upper := get(oa.tables[upperIdx], longitude);
      Some(Interpolate(lower, upper, ratio))
  }

  /** With no upper bracket `get` is the single table's lookup, unblended. */
  lemma GetUnblended(oa: ObliqueAscension, get: Lookup, longitude: real, latitude: real)
    requires oa.tables != map[] && Unblended(oa.tables, latitude)
    ensures var b := FindIndex(oa.tables, latitude).value;
      Get(oa, get, longitude, latitude) == Some(get(oa.tables[b.lower], longitude))
  {
    FindIndexBlendsIff(oa.tables, latitude);
  }

  /** At a sampled latitude `get` reads that latitude's table. */
  lemma GetSampled(oa: ObliqueAscension, get: Lookup, longitude: real, latitude: real)
    requires latitude in oa.tables
    ensures Get(oa, get, longitude, latitude) == Some(get(oa.tables[latitude], longitude))
  {
    FindIndexSampled(oa.tables, latitude);
  }

  /** Beyond the greatest sampled latitude every query gives the same result as that latitude. */
  lemma GetClampAbove(oa: ObliqueAscension, get: Lookup, longitude: real, lat1: real, lat2: real)
    requires oa.tables != map[]
    requires forall k | k in oa.tables :: k < lat1
    requires forall k | k in oa.tables :: k < lat2
    ensures Get(oa, get, longitude, lat1) == Get(oa, get, longitude, lat2)
  {
    FindIndexAbove(oa.tables, lat1);
    FindIndexAbove(oa.tables, lat2);
  }

  /** Below the least sampled latitude every query gives the same result as that latitude. */
  lemma GetClampBelow(oa: ObliqueAscension, get: Lookup, longitude: real, latitude: real)
    requires oa.tables != map[]
    requires forall k | k in oa.tables :: latitude < k
    ensures Get(oa, get, longitude, latitude) == Get(oa, get, longitude, Min(oa.tables.Keys))
  {
    FindIndexBelow(oa.tables, latitude);
    FindIndexSampled(oa.tables, Min(oa.tables.Keys));
  }

  /** Between two sampled latitudes the blended `get` lies between the two bracketing lookups. */
  lemma GetBetween(oa: ObliqueAscension, get: Lookup, longitude: real, latitude: real, lo: real, hi: real)
    requires lo in oa.tables && hi in oa.tables && lo < latitude < hi
    requires latitude !in oa.tables
    ensures var b := FindIndex(oa.tables, latitude).value;
      var lower := get(oa.tables[b.lower], longitude);
      var upper := get(oa.tables[b.upper.value], longitude);
      var r := Get(oa, get, longitude, latitude).value;
      (lower <= upper ==> lower <= r <= upper) && (upper <= lower ==> upper <= r <= lower)
  {
    FindIndexBetween(oa.tables, latitude, lo, hi);
    var b := FindIndex(oa.tables, latitude).value;
    BlendBetween(get(oa.tables[b.lower], longitude), get(oa.tables[b.upper.value], longitude), b.ratio);
  }

  /** Linear interpolation from a towards b by the fraction t: `a + t * (b - a)`. */
  function Interpolate(a: real, b: real, t: real): real
  {
    a + (b - a) * t
  }

  /** Interpolating by a fraction in [0,1] stays between the two ends. */
  lemma BlendBetween(a: real, b: real, t: real)
    requires 0.0 <= t <= 1.0
    ensures a <= b ==> a <= Interpolate(a, b, t) <= b
    ensures b <= a ==> b <= Interpolate(a, b, t) <= a
  {
    var d := b - a;
    assert a + t * d == b - (1.0 - t) * d;
    if a <= b {
      ProductNonNegative(t, d);
      ProductNonNegative(1.0 - t, d);
    } else {
      ProductNonNegative(t, -d);
      ProductNonNegative(1.0 - t, -d);
    }
  }

  /**
   * The blended copy `reverse_get` builds: the lower table's index column,
   * each value moved by `(upper - lower) * ratio`. None stands for the error
   * element-wise arithmetic raises on value columns of different lengths.
   */
  function Blend(lower: Table, upper: Table, ratio: real): (r: Option<Table>)
    ensures r.None? <==> |lower.values| != |upper.values|
    ensures r.Some? ==> r.value.index == lower.index && |r.value.values| == |lower.values|
  {
    if |lower.values| != |upper.values| then None
    else Some(Table(lower.index, seq(|lower.values|, i requires 0 <= i < |lower.values| =>
                                       Interpolate(lower.values[i], upper.values[i], ratio))))
  }

  /** Each blended value lies between the two tables' values at that row. */
  lemma BlendValuesBetween(lower: Table, upper: Table, ratio: real, i: nat)
    requires |lower.values| == |upper.values| && i < |lower.values|
    requires 0.0 <= ratio <= 1.0
    ensures var v := Blend(lower, upper, ratio).value.values[i];
      (lower.values[i] <= upper.values[i] ==> lower.values[i] <= v <= upper.values[i])
      && (upper.values[i] <= lower.values[i] ==> upper.values[i] <= v <= lower.values[i])
  {
    BlendBetween(lower.values[i], upper.values[i], ratio);
  }

  /** `reverse_get` as a value: the reversed (blended) table's lookup at the oblique ascension. */
  function ReverseLookup(oa: ObliqueAscension, get: Lookup, oblAscension: real, latitude: real): Option<real>
  {
    match FindIndex(oa.tables, latitude)
    case None => None
    case Some(Bracket(lowerIdx, None, _)) => Some(get(ReverseTable(oa.tables[lowerIdx]), oblAscension))
    case Some(Bracket(lowerIdx, Some(upperIdx), ratio)) =>
      match Blend(oa.tables[lowerIdx], oa.tables[upperIdx], ratio)
      case None => None
      case Some(t) => Some(get(ReverseTable(t), oblAscension))
  }

  /**
   * `ObliqueAscension.reverse_get`: copies the lower table's value column,
   * adds the scaled difference to it row by row, and looks the oblique
   * ascension up in the copy indexed by its values. The stored tables are
   * values and stay unchanged.
   */
  method ReverseGet(oa: ObliqueAscension, get: Lookup, oblAscension: real, latitude: real) returns (r: Option<real>)
    ensures r == ReverseLookup(oa, get, oblAscension, latitude)
  {
    var b := FindIndex(oa.tables, latitude);
    if b.None? {
      return None;
    }
    var lowerIdx := b.value.lower;
    if b.value.upper.None? {
      return Some(get(ReverseTable(oa.tables[lowerIdx]), oblAscension));
    }
    var lowerTab := oa.tables[lowerIdx];
    var upperTab := oa.tables[b.value.upper.value];
    var ratio := b.value.ratio;
    if |lowerTab.values| != |upperTab.values| {
      return None;
    }
    var interpolated := BlendCopy(lowerTab, upperTab, ratio);
    r := Some(get(ReverseTable(interpolated), oblAscension));
  }

  /**
   * `interpolated_tab = lower_tab.copy()` followed by the element-wise
   * `interpolated_tab[valcol] += (upper_tab[valcol] - lower_tab[valcol]) * ratio`.
   */
  method BlendCopy(lowerTab: Table, upperTab: Table, ratio: real) returns (interpolated: Table)
    requires |lowerTab.values| == |upperTab.values|
    ensures Blend(lowerTab, upperTab, ratio) == Some(interpolated)
  {
    var valcol := new real[|lowerTab.values|](i requires 0 <= i < |lowerTab.values| => lowerTab.values[i]);
    for i := 0 to valcol.Length
      invariant forall j | 0 <= j < i :: valcol[j] == Interpolate(lowerTab.values[j], upperTab.values[j], ratio)
      invariant forall j | i <= j < valcol.Length :: valcol[j] == lowerTab.values[j]
    {
      valcol[i] := valcol[i] + (upperTab.values[i] - lowerTab.values[i]) * ratio;
    }
    assert forall j | 0 <= j < valcol.Length :: valcol[..][j] == Blend(lowerTab, upperTab, ratio).value.values[j];
    assert valcol[..] == Blend(lowerTab, upperTab, ratio).value.values;
    interpolated := Table(lowerTab.index, valcol[..]);
  }

  /** At a sampled latitude `reverse_get` reads that latitude's reversed table. */
  lemma ReverseLookupSampled(oa: ObliqueAscension, get: Lookup, oblAscension: real, latitude: real)
    requires latitude in oa.tables
    ensures ReverseLookup(oa, get, oblAscension, latitude) == Some(get(ReverseTable(oa.tables[latitude]), oblAscension))
  {
    FindIndexSampled(oa.tables, latitude);
  }

  /** Two sampled latitudes with none strictly between them bracket every query between them. */
  lemma FindIndexBracket(tables: map<real, Table>, lat: real, lo: real, hi: real)
    requires lo in tables && hi in tables && lo < lat < hi
    requires forall k | k in tables :: !(lo < k < hi)
    ensures FindIndex(tables, lat) == Some(Bracket(lo, Some(hi), (lat - lo) / (hi - lo)))
  {
    FindIndexBetween(tables, lat, lo, hi);
    var b := FindIndex(tables, lat).value;
    assert lo in Below(tables, lat) && hi in Above(tables, lat);
    assert b.lower == lo;
    assert b.upper.value == hi;
  }

  /**
   * `get` and `reverse_get` blend alike: when the two bracketing tables share
   * their index column and the lookup is exact at a sampled argument, the
   * blended `get` there is the blended copy's value at that row, the
   * argument at which the reversed copy is indexed.
   */
  lemma GetMatchesBlend(oa: ObliqueAscension, get: Lookup, latitude: real, lo: real, hi: real, i: nat)
    requires lo in oa.tables && hi in oa.tables && lo < latitude < hi
    requires forall k | k in oa.tables :: !(lo < k < hi)
    requires oa.tables[lo].index == oa.tables[hi].index
    requires |oa.tables[lo].values| == |oa.tables[hi].values| && i < |oa.tables[lo].values|
    requires i < |oa.tables[lo].index|
    requires get(oa.tables[lo], oa.tables[lo].index[i]) == oa.tables[lo].values[i]
    requires get(oa.tables[hi], oa.tables[hi].index[i]) == oa.tables[hi].values[i]
    ensures var t := Blend(oa.tables[lo], oa.tables[hi], (latitude - lo) / (hi - lo));
      t.Some? && Get(oa, get, oa.tables[lo].index[i], latitude) == Some(t.value.values[i])
  {
    FindIndexBracket(oa.tables, latitude, lo, hi);
  }

  // ---------------------------------------------------------------------
  // Right ascension

  /** The right ascension table; `rtable` is its reversed copy. */
  datatype RightAscension = RightAscension(table: Table)
  {
    function RTable(): Table { ReverseTable(table) }
  }

  /** `RightAscension.get`: look up at `mod(lon + 90)` and take 90 off, mod 360. */
  function RaGet(ra: RightAscension, get: Lookup, longitude: real): (r: real)
    ensures 0.0 <= r < 360.0
  {
    Mod360(get(ra.table, Mod360(longitude + 90.0)) - 90.0)
  }

  /** `RightAscension.reverse_get`: look up at `mod(ra - 90)` in the reversed table and add 90, mod 360. */
  function RaReverseGet(ra: RightAscension, get: Lookup, rightAscension: real): (r: real)
    ensures 0.0 <= r < 360.0
  {
    Mod360(get(ra.RTable(), Mod360(rightAscension - 90.0)) + 90.0)
  }

  /**
   * `reverse_get` undoes `get`, up to a whole turn, when the reversed table
   * inverts the table on [0,360), the table's values lie in [0,360), and the
   * reversed table has the half-turn symmetry of right ascension. The
   * symmetry is needed because `get` shifts the argument by +90 but
   * `reverse_get` by -90.
   */
  lemma RaRoundTrip(ra: RightAscension, get: Lookup, longitude: real)
    requires forall y | 0.0 <= y < 360.0 :: 0.0 <= get(ra.table, y) < 360.0
    requires forall y | 0.0 <= y < 360.0 :: get(ra.RTable(), get(ra.table, y)) == y
    requires forall y | 0.0 <= y < 360.0 :: get(ra.RTable(), Mod360(y - 180.0)) == Mod360(get(ra.RTable(), y) - 180.0)
    ensures RaReverseGet(ra, get, RaGet(ra, get, longitude)) == Mod360(longitude)
  {
    var u := Mod360(longitude + 90.0);
    var f := get(ra.table, u);
    var r := get(ra.RTable(), f);
    assert r == u;
    RaShiftTwice(f);
    assert get(ra.RTable(), Mod360(Mod360(f - 90.0) - 90.0)) == Mod360(r - 180.0);
    RaUnshift(longitude);
  }

  /** Two quarter-turn shifts back make a half-turn shift. */
  lemma RaShiftTwice(f: real)
    ensures Mod360(Mod360(f - 90.0) - 90.0) == Mod360(f - 180.0)
  {
    ModAddLeft(f - 90.0, -90.0);
  }

  /** A quarter turn forward, a half turn back and a quarter turn forward cancel. */
  lemma RaUnshift(x: real)
    ensures Mod360(Mod360(Mod360(x + 90.0) - 180.0) + 90.0) == Mod360(x)
  {
    ModAddLeft(Mod360(x + 90.0) - 180.0, 90.0);
    ModAddLeft(x + 90.0, -180.0);
    ModAddLeft(x + 90.0 - 180.0, 90.0);
  }

  // ---------------------------------------------------------------------
  // Celestial bodies

  /** The fixed stars: their mean motion, the access and recess motion and its equation. */
  datatype FixedStars = FixedStars(meanMotion: CoreUtils.Motion, accessRecessMM: CoreUtils.Motion, accessRecessEq: Tab)

  /** The Moon's motions and tables. */
  datatype Moon = Moon(meanMotion: CoreUtils.Motion, meanArgument: CoreUtils.Motion, equationCenter: Tab,
                       equationArg: Tab, minutaProportionalia: Tab, diameterDiversion: Tab)

  /** The equation tables every superior and inferior planet carries. */
  datatype PlanetTables = PlanetTables(centerEquation: Tab, argEquation: Tab, minProp: Tab, longLongior: Tab, longPropior: Tab)

  /**
   * The planets. A planet built without a mean motion or an apogee radix has
   * no such attribute (the constructor only assigns what it is given). The
   * Sun's constructor requires both, but its radix reaches the same
   * `if apogee_radix:` guard; the model takes the Sun's radix as present,
   * so an empty radix text is not represented.
   */
  datatype Planet =
    | Sun(sunMeanMotion: CoreUtils.Motion, sunApogeeRadix: real, equation: Tab)
    | Superior(apogeeRadix: Option<real>, tables: PlanetTables, meanMotion: Option<CoreUtils.Motion>)
    | Inferior(iApogeeRadix: Option<real>, iTables: PlanetTables, iMeanMotion: Option<CoreUtils.Motion>,
               meanArgument: CoreUtils.Motion)

  /** The attribute names a planet may be asked for. */
  datatype Attribute = MeanMotionAttr | ApogeeRadixAttr | EquationAttr | MeanArgumentAttr
                     | CenterEquationAttr | ArgEquationAttr | MinPropAttr | LongLongiorAttr | LongPropiorAttr

  datatype AttributeValue = MotionValue(motion: CoreUtils.Motion) | AngleValue(angle: real) | TableValue(tab: Tab)

  function TablesAttribute(t: PlanetTables, a: Attribute): Option<AttributeValue>
  {
    match a
    case CenterEquationAttr => Some(TableValue(t.centerEquation))
    case ArgEquationAttr => Some(TableValue(t.argEquation))
    case MinPropAttr => Some(TableValue(t.minProp))
    case LongLongiorAttr => Some(TableValue(t.longLongior))
    case LongPropiorAttr => Some(TableValue(t.longPropior))
    case _ => None
  }

  function MotionOption(m: Option<CoreUtils.Motion>): Option<AttributeValue>
  {
    if m.Some? then Some(MotionValue(m.value)) else None
  }

  function AngleOption(x: Option<real>): Option<AttributeValue>
  {
    if x.Some? then Some(AngleValue(x.value)) else None
  }

  /** The attributes a planet's own constructor assigned (ordinary attribute lookup). */
  function OwnAttribute(p: Planet, a: Attribute): Option<AttributeValue>
  {
    match p
    case Sun(mm, radix, eq) =>
      (match a
       case MeanMotionAttr => Some(MotionValue(mm))
       case ApogeeRadixAttr => Some(AngleValue(radix))
       case EquationAttr => Some(TableValue(eq))
       case _ => None)
    case Superior(radix, tables, mm) =>
      (match a
       case MeanMotionAttr => MotionOption(mm)
       case ApogeeRadixAttr => AngleOption(radix)
       case _ => TablesAttribute(tables, a))
    case Inferior(radix, tables, mm, arg) =>
      (match a
       case MeanMotionAttr => MotionOption(mm)
       case ApogeeRadixAttr => AngleOption(radix)
       case MeanArgumentAttr => Some(MotionValue(arg))
       case _ => TablesAttribute(tables, a))
  }

  /**
   * Attribute lookup: an inferior planet resolves an attribute it lacks from
   * the table set's Sun (`__getattr__`); other planets have no fallback.
   * None stands for AttributeError.
   */
  function Attr(p: Planet, a: Attribute, sun: Planet): (r: Option<AttributeValue>)
    ensures OwnAttribute(p, a).Some? ==> r == OwnAttribute(p, a)
  {
    if p.Inferior? && OwnAttribute(p, a).None? then OwnAttribute(sun, a) else OwnAttribute(p, a)
  }

  /** An inferior planet without an attribute of its own answers with the Sun's. */
  lemma InferiorFallback(p: Planet, a: Attribute, sun: Planet)
    requires p.Inferior? && OwnAttribute(p, a).None?
    ensures Attr(p, a, sun) == OwnAttribute(sun, a)
  {
  }

  /** Only an inferior planet falls back: another planet lacking an attribute raises. */
  lemma NoFallbackOtherwise(p: Planet, a: Attribute, sun: Planet)
    requires !p.Inferior?
    ensures Attr(p, a, sun) == OwnAttribute(p, a)
  {
  }

  /** An inferior planet has no equation of its own, so it always uses the Sun's. */
  lemma InferiorUsesSunEquation(p: Planet, sun: Planet)
    requires p.Inferior? && sun.Sun?
    ensures Attr(p, EquationAttr, sun) == Some(TableValue(sun.equation))
  {
  }

  /** The fixed-star part of every apogee: mean position plus the access and recess equation. */
  function StellarPosition(fs: FixedStars, days: CoreUtils.Days): real
  {
    fs.meanMotion(days) + fs.accessRecessEq(fs.accessRecessMM(days))
  }

  /**
   * `Planet.get_apogee`: the fixed stars' mean position, plus the access and
   * recess equation at the access and recess mean position, plus the
   * planet's apogee radix; None when the radix attribute cannot be resolved.
   */
  function GetApogee(p: Planet, fs: FixedStars, sun: Planet, days: CoreUtils.Days): (r: Option<real>)
    ensures r.Some? <==> Attr(p, ApogeeRadixAttr, sun).Some?
    ensures r.Some? ==> r.value == StellarPosition(fs, days) + Attr(p, ApogeeRadixAttr, sun).value.angle
  {
    match Attr(p, ApogeeRadixAttr, sun)
    case Some(AngleValue(radix)) => Some(fs.meanMotion(days) + fs.accessRecessEq(fs.accessRecessMM(days)) + radix)
    case Some(_) => assert false; None
    case None => None
  }

  /** The Sun always has an apogee: its radix added to the fixed-star position. */
  lemma SunApogee(sun: Planet, fs: FixedStars, days: CoreUtils.Days)
    requires sun.Sun?
    ensures GetApogee(sun, fs, sun, days) == Some(StellarPosition(fs, days) + sun.sunApogeeRadix)
  {
  }

  /** An inferior planet built without an apogee radix has the Sun's apogee. */
  lemma InferiorApogeeIsSun(p: Planet, fs: FixedStars, sun: Planet, days: CoreUtils.Days)
    requires p.Inferior? && p.iApogeeRadix.None? && sun.Sun?
    ensures GetApogee(p, fs, sun, days) == GetApogee(sun, fs, sun, days)
  {
  }

  /** A superior planet built without an apogee radix has none (AttributeError). */
  lemma SuperiorWithoutRadix(p: Planet, fs: FixedStars, sun: Planet, days: CoreUtils.Days)
    requires p.Superior? && p.apogeeRadix.None?
    ensures GetApogee(p, fs, sun, days) == None
  {
  }

  // ---------------------------------------------------------------------
  // Table sets

  /** A table set: one component per class name. */
  datatype TableSet = TableSet(
    fixedStars: FixedStars, sun: Planet, moon: Moon, mars: Planet, venus: Planet, mercury: Planet,
    saturn: Planet, jupiter: Planet, obliqueAscension: ObliqueAscension, rightAscension: RightAscension)

  /** The shape the constructor gives each planet from its class. */
  predicate WellFormed(ts: TableSet)
  {
    && ts.sun.Sun?
    && ts.mars.Superior? && ts.jupiter.Superior? && ts.saturn.Superior?
    && ts.venus.Inferior? && ts.mercury.Inferior?
  }

  datatype Component =
    | FixedStarsComponent(fixedStars: FixedStars)
    | PlanetComponent(planet: Planet)
    | MoonComponent(moon: Moon)
    | ObliqueAscensionComponent(oa: ObliqueAscension)
    | RightAscensionComponent(ra: RightAscension)

  /** The class names a table set has an attribute for. */
  const ComponentNames: set<string> := {"FixedStars", "Sun", "Moon", "Mars", "Venus", "Mercury",
                                        "Saturn", "Jupiter", "ObliqueAscension", "RightAscension"}

  /** `TableSet.__call__`: the attribute named after the class; None for AttributeError. */
  function Call(ts: TableSet, className: string): (r: Option<Component>)
    ensures r.Some? <==> className in ComponentNames
  {
    match className
    case "FixedStars" => Some(FixedStarsComponent(ts.fixedStars))
    case "Sun" => Some(PlanetComponent(ts.sun))
    case "Moon" => Some(MoonComponent(ts.moon))
    case "Mars" => Some(PlanetComponent(ts.mars))
    case "Venus" => Some(PlanetComponent(ts.venus))
    case "Mercury" => Some(PlanetComponent(ts.mercury))
    case "Saturn" => Some(PlanetComponent(ts.saturn))
    case "Jupiter" => Some(PlanetComponent(ts.jupiter))
    case "ObliqueAscension" => Some(ObliqueAscensionComponent(ts.obliqueAscension))
    case "RightAscension" => Some(RightAscensionComponent(ts.rightAscension))
    case _ => None
  }

  /** In a well-formed table set, every planet class name yields a planet of that class's kind. */
  lemma CallPlanetKinds(ts: TableSet)
    requires WellFormed(ts)
    ensures Call(ts, "Sun").value.planet.Sun?
    ensures forall n | n in {"Mars", "Jupiter", "Saturn"} :: Call(ts, n).Some? && Call(ts, n).value.planet.Superior?
    ensures forall n | n in {"Venus", "Mercury"} :: Call(ts, n).Some? && Call(ts, n).value.planet.Inferior?
  {
  }
}
