/**
 * The house-cusp methods: from the ascendant, its oblique ascension `a0`
 * at the latitude and its right ascension `a1`, each method returns the
 * twelve cusps, index 0 being the first house.
 */
module Houses {
  import opened Wrappers
  import opened Angles
  import TableClasses

  /** The house methods of the enumeration. */
  datatype HouseMethod = M1 | M2 | M5 | M6

  /** The method used when a request names none. */
  const DefaultMethod: HouseMethod := M2

  /** The enumeration member with the given name. */
  function MethodByName(name: string): (m: Option<HouseMethod>)
    ensures m.Some? <==> name in {"M1", "M2", "M5", "M6"}
  {
    match name
    case "M1" => Some(M1)
    case "M2" => Some(M2)
    case "M5" => Some(M5)
    case "M6" => Some(M6)
    case _ => None
  }

  // ---------------------------------------------------------------------
  // Method 1

  /**
   * The right ascensions `a2, a3, a4, ..., a12` of `meth_1`: a2 and a3 one
   * and two thirds of the way from a1 to a0 + 90, a12 and a11 one and two
   * thirds of the way from a1 to a0 - 90, a10 = a0 - 90, and a4 .. a9 the
   * opposite points of a10, a11, a12, a1, a2, a3.
   */
  function Meth1Arguments(a0: real, a1: real): (args: seq<real>)
    ensures |args| == 11
    ensures forall i | 0 <= i < 11 :: 0.0 <= args[i] < 360.0
  {
    var a2 := Mod360(a1 + (90.0 + a0 - a1) / 3.0);
    var a3 := Mod360(a1 + 2.0 * (90.0 + a0 - a1) / 3.0);
    var a12 := Mod360(a1 - (90.0 - a0 + a1) / 3.0);
    var a11 := Mod360(a1 - 2.0 * (90.0 - a0 + a1) / 3.0);
    var a10 := Mod360(a0 - 90.0);
    var a4 := Mod360(a10 + 180.0);
    var a5 := Mod360(a11 + 180.0);
    var a6 := Mod360(a12 + 180.0);
    var a7 := Mod360(a1 + 180.0);
    var a8 := Mod360(a2 + 180.0);
    var a9 := Mod360(a3 + 180.0);
    [a2, a3, a4, a5, a6, a7, a8, a9, a10, a11, a12]
  }

  /** Three arcs of equal length, mod 360, from p0 through p1 and p2 to p3. */
  predicate EqualArcs(p0: real, p1: real, p2: real, p3: real)
  {
    Mod360(p1 - p0) == Mod360(p2 - p1) == Mod360(p3 - p2)
  }

  /** Moving by t and by 2t from a start trisects the arc to start + 3t. */
  lemma ThirdsOfArc(start: real, t: real)
    ensures EqualArcs(start, Mod360(start + t), Mod360(start + 2.0 * t), start + 3.0 * t)
    ensures Mod360(Mod360(start + t) - start) == Mod360(t)
  {
    ModAddLeft(start + t, -start);
    ModSub(start + 2.0 * t, start + t);
    ModSubRight(start + 3.0 * t, start + 2.0 * t);
  }

  /**
   * `meth_1`'s trisections: a1, a2, a3, a0 + 90 are equally spaced, and so
   * are a1, a12, a11, a0 - 90 going the other way.
   */
  lemma Meth1Thirds(a0: real, a1: real)
    ensures var args := Meth1Arguments(a0, a1);
      EqualArcs(a1, args[0], args[1], a0 + 90.0) && EqualArcs(a1, args[10], args[9], a0 - 90.0)
  {
    var up := (90.0 + a0 - a1) / 3.0;
    var down := (a0 - 90.0 - a1) / 3.0;
    ThirdsOfArc(a1, up);
    ThirdsOfArc(a1, down);
    assert a1 + 2.0 * (90.0 + a0 - a1) / 3.0 == a1 + 2.0 * up;
    assert a1 - (90.0 - a0 + a1) / 3.0 == a1 + down;
    assert a1 - 2.0 * (90.0 - a0 + a1) / 3.0 == a1 + 2.0 * down;
  }

  /** The point opposite an angle in [0,360) is half a turn past it. */
  lemma OppositePoint(x: real)
    requires 0.0 <= x < 360.0
    ensures Mod360(Mod360(x + 180.0) - x) == 180.0
  {
    ModAddLeft(x + 180.0, -x);
    ModOfInRange(180.0);
  }

  /** `a4 .. a9` lie half a turn past `a10, a11, a12, a1, a2, a3`. */
  lemma Meth1Opposites(a0: real, a1: real)
    requires 0.0 <= a1 < 360.0
    ensures var args := Meth1Arguments(a0, a1);
      && Mod360(args[2] - args[8]) == 180.0 && Mod360(args[3] - args[9]) == 180.0
      && Mod360(args[4] - args[10]) == 180.0 && Mod360(args[5] - a1) == 180.0
      && Mod360(args[6] - args[0]) == 180.0 && Mod360(args[7] - args[1]) == 180.0
  {
    var args := Meth1Arguments(a0, a1);
    OppositePoint(args[8]);
    OppositePoint(args[9]);
    OppositePoint(args[10]);
    OppositePoint(a1);
    OppositePoint(args[0]);
    OppositePoint(args[1]);
  }

  /** `meth_1`: the ascendant, then the reverse right ascensions of `a2 .. a12`. */
  function Meth1(ra: TableClasses.RightAscension, get: TableClasses.Lookup, ascendant: real, a0: real, a1: real)
    : (h: seq<real>)
    ensures |h| == 12 && h[0] == ascendant
    ensures forall k | 1 <= k < 12 :: h[k] == TableClasses.RaReverseGet(ra, get, Meth1Arguments(a0, a1)[k - 1])
  {
    var args := Meth1Arguments(a0, a1);
    [ascendant] + seq(11, i requires 0 <= i < 11 => TableClasses.RaReverseGet(ra, get, args[i]))
  }

  // ---------------------------------------------------------------------
  // Method 2

  /** The cusps of the fourth, seventh and tenth houses of `meth_2`: `l4`, `l7`, `l10`. */
  function Meth2Corners(ra: TableClasses.RightAscension, get: TableClasses.Lookup, a0: real, a1: real)
    : (c: (real, real, real))
    ensures 0.0 <= c.0 < 360.0 && 0.0 <= c.1 < 360.0 && 0.0 <= c.2 < 360.0
  {
    var a10 := Mod360(-90.0 + a0);
    var a7 := Mod360(a1 + 180.0);
    var a4 := Mod360(a10 + 180.0);
    (TableClasses.RaReverseGet(ra, get, a4), TableClasses.RaReverseGet(ra, get, a7), TableClasses.RaReverseGet(ra, get, a10))
  }

  /** The three cusps of a quadrant from s towards e: s, then steps of a third of the arc. */
  function Quadrant(s: real, e: real): (q: seq<real>)
    ensures |q| == 3
  {
    var d := Mod360(e - s) / 3.0;
    [Mod360(s), Mod360(s + d), Mod360(s + 2.0 * d)]
  }

  /**
   * `meth_2`: each quadrant between the ascendant, `l4`, `l7`, `l10` and
   * back to the ascendant is split by a step `d0 .. d3` of a third of its
   * arc; every cusp is reduced mod 360.
   */
  function Meth2(ra: TableClasses.RightAscension, get: TableClasses.Lookup, ascendant: real, a0: real, a1: real)
    : (h: seq<real>)
    ensures |h| == 12
    ensures forall k | 0 <= k < 12 :: 0.0 <= h[k] < 360.0
  {
    var (l4, l7, l10) := Meth2Corners(ra, get, a0, a1);
    Quadrant(ascendant, l4) + Quadrant(l4, l7) + Quadrant(l7, l10) + Quadrant(l10, ascendant)
  }

  /** A quadrant from p0 to p3 split into three equal arcs, each less than 120 degrees. */
  predicate Trisected(p0: real, p1: real, p2: real, p3: real)
  {
    EqualArcs(p0, p1, p2, p3) && Mod360(p1 - p0) == Mod360(p3 - p0) / 3.0 && Mod360(p1 - p0) < 120.0
  }

  /** Stepping by a third of the arc from s to e, twice, trisects it. */
  lemma TrisectQuadrant(s: real, e: real)
    ensures var q := Quadrant(s, e); Trisected(q[0], q[1], q[2], Mod360(e))
  {
    var d := Mod360(e - s) / 3.0;
    ModSub(s + d, s);
    ModSub(s + 2.0 * d, s + d);
    ModSub(e, s + 2.0 * d);
    ModSub(e, s);
    var k := ModDifference(e - s);
    ModCongruent(e - (s + 2.0 * d), d, k);
    ModOfInRange(d);
  }

  /** The cusps of `meth_2`, grouped by quadrant. */
  lemma Meth2Split(ra: TableClasses.RightAscension, get: TableClasses.Lookup, ascendant: real, a0: real, a1: real)
    ensures var h := Meth2(ra, get, ascendant, a0, a1);
      var c := Meth2Corners(ra, get, a0, a1);
      && h[0..3] == Quadrant(ascendant, c.0) && h[3..6] == Quadrant(c.0, c.1)
      && h[6..9] == Quadrant(c.1, c.2) && h[9..12] == Quadrant(c.2, ascendant)
  {
  }

  /**
   * `meth_2`'s cusps: the first is the reduced ascendant, the fourth,
   * seventh and tenth are `l4`, `l7`, `l10`, and each quadrant is trisected.
   */
  lemma Meth2Quadrants(ra: TableClasses.RightAscension, get: TableClasses.Lookup, ascendant: real, a0: real, a1: real)
    ensures var h := Meth2(ra, get, ascendant, a0, a1);
      var c := Meth2Corners(ra, get, a0, a1);
      && h[0] == Mod360(ascendant) && h[3] == c.0 && h[6] == c.1 && h[9] == c.2
      && Trisected(h[0], h[1], h[2], h[3]) && Trisected(h[3], h[4], h[5], h[6])
      && Trisected(h[6], h[7], h[8], h[9]) && Trisected(h[9], h[10], h[11], h[0])
  {
    var h := Meth2(ra, get, ascendant, a0, a1);
    var c := Meth2Corners(ra, get, a0, a1);
    Meth2Split(ra, get, ascendant, a0, a1);
    var q0, q1, q2, q3 := Quadrant(ascendant, c.0), Quadrant(c.0, c.1), Quadrant(c.1, c.2), Quadrant(c.2, ascendant);
    assert h[0] == q0[0] && h[1] == q0[1] && h[2] == q0[2];
    assert h[3] == q1[0] && h[4] == q1[1] && h[5] == q1[2];
    assert h[6] == q2[0] && h[7] == q2[1] && h[8] == q2[2];
    assert h[9] == q3[0] && h[10] == q3[1] && h[11] == q3[2];
    ModOfInRange(c.0);
    ModOfInRange(c.1);
    ModOfInRange(c.2);
    TrisectQuadrant(ascendant, c.0);
    TrisectQuadrant(c.0, c.1);
    TrisectQuadrant(c.1, c.2);
    TrisectQuadrant(c.2, ascendant);
  }

  // ---------------------------------------------------------------------
  // Methods 5 and 6

  /** The right ascensions of `meth_5`'s cusps 1 .. 11: `mod(a1 + 30 k)`. */
  function Meth5Arguments(a1: real): (args: seq<real>)
    ensures |args| == 11
  {
    seq(11, i requires 0 <= i < 11 => Mod360(a1 + (30 * i) as real + 30.0))
  }

  /** Cusp k of `meth_5` lies 30 k degrees of right ascension past `a1`. */
  lemma Meth5Spacing(a1: real)
    ensures forall k | 1 <= k < 12 :: Mod360(Meth5Arguments(a1)[k - 1] - a1) == (30 * k) as real
  {
    forall k | 1 <= k < 12
      ensures Mod360(Meth5Arguments(a1)[k - 1] - a1) == (30 * k) as real
    {
      ModAddLeft(a1 + (30 * (k - 1)) as real + 30.0, -a1);
      ModOfInRange((30 * k) as real);
    }
  }

  /** `meth_5`: the ascendant, then reverse right ascensions 30, 60, ..., 330 degrees past `a1`. */
  function Meth5(ra: TableClasses.RightAscension, get: TableClasses.Lookup, ascendant: real, a0: real, a1: real)
    : (h: seq<real>)
    ensures |h| == 12 && h[0] == ascendant
    ensures forall k | 1 <= k < 12 :: h[k] == TableClasses.RaReverseGet(ra, get, Meth5Arguments(a1)[k - 1])
  {
    var args := Meth5Arguments(a1);
    [ascendant] + seq(11, i requires 0 <= i < 11 => TableClasses.RaReverseGet(ra, get, args[i]))
  }

  /** `meth_6`: twelve equal houses of 30 degrees from the ascendant. */
  function Meth6(ascendant: real): (h: seq<real>)
    ensures |h| == 12
    ensures forall k | 0 <= k < 12 :: 0.0 <= h[k] < 360.0
  {
    seq(12, k requires 0 <= k < 12 => Mod360(ascendant + (30 * k) as real))
  }

  /**
   * `meth_6`'s cusps start at the reduced ascendant, follow each other at
   * 30 degrees, and cusps k and k + 6 are opposite.
   */
  lemma Meth6Spacing(ascendant: real)
    ensures Meth6(ascendant)[0] == Mod360(ascendant)
    ensures forall k | 0 <= k < 11 :: Mod360(Meth6(ascendant)[k + 1] - Meth6(ascendant)[k]) == 30.0
    ensures forall k | 0 <= k < 6 :: Mod360(Meth6(ascendant)[k + 6] - Meth6(ascendant)[k]) == 180.0
  {
    var h := Meth6(ascendant);
    forall k | 0 <= k < 11
      ensures Mod360(h[k + 1] - h[k]) == 30.0
    {
      ModSub(ascendant + (30 * (k + 1)) as real, ascendant + (30 * k) as real);
      ModOfInRange(30.0);
    }
    forall k | 0 <= k < 6
      ensures Mod360(h[k + 6] - h[k]) == 180.0
    {
      ModSub(ascendant + (30 * (k + 6)) as real, ascendant + (30 * k) as real);
      ModOfInRange(180.0);
    }
  }

  // ---------------------------------------------------------------------
  // Dispatch

  /**
   * `HouseMethods.__call__`: `a0` is the oblique ascension of the ascendant
   * at the latitude and `a1` its right ascension, and the result is the
   * chosen method's cusps at those two values; None when the table set has
   * no oblique ascension table.
   */
  function HousesOf(m: HouseMethod, ts: TableClasses.TableSet, get: TableClasses.Lookup, ascendant: real, latitude: real)
    : (r: Option<seq<real>>)
    ensures r.Some? <==> ts.obliqueAscension.tables != map[]
    ensures r.Some? ==> |r.value| == 12
    ensures r.Some? ==>
      var a0 := TableClasses.Get(ts.obliqueAscension, get, ascendant, latitude).value;
      var a1 := TableClasses.RaGet(ts.rightAscension, get, ascendant);
      r.value == match m
        case M1 => Meth1(ts.rightAscension, get, ascendant, a0, a1)
        case M2 => Meth2(ts.rightAscension, get, ascendant, a0, a1)
        case M5 => Meth5(ts.rightAscension, get, ascendant, a0, a1)
        case M6 => Meth6(ascendant)
  {
    var a0 := TableClasses.Get(ts.obliqueAscension, get, ascendant, latitude);
    var a1 := TableClasses.RaGet(ts.rightAscension, get, ascendant);
    if a0.None? then None
    else
      match m
      case M1 => Some(Meth1(ts.rightAscension, get, ascendant, a0.value, a1))
      case M2 => Some(Meth2(ts.rightAscension, get, ascendant, a0.value, a1))
      case M5 => Some(Meth5(ts.rightAscension, get, ascendant, a0.value, a1))
      case M6 => Some(Meth6(ascendant))
  }

  /**
   * The first cusp: M1 and M5 return the ascendant unchanged, M2 and M6 its
   * reduction mod 360, which is the ascendant itself when it lies in [0,360).
   */
  lemma FirstCusp(m: HouseMethod, ts: TableClasses.TableSet, get: TableClasses.Lookup, ascendant: real, latitude: real)
    requires ts.obliqueAscension.tables != map[]
    ensures var h := HousesOf(m, ts, get, ascendant, latitude).value;
      && (m.M1? || m.M5? ==> h[0] == ascendant)
      && (m.M2? || m.M6? ==> h[0] == Mod360(ascendant))
      && (0.0 <= ascendant < 360.0 ==> h[0] == ascendant)
  {
    var a0 := TableClasses.Get(ts.obliqueAscension, get, ascendant, latitude).value;
    var a1 := TableClasses.RaGet(ts.rightAscension, get, ascendant);
    if m.M2? {
      Meth2Quadrants(ts.rightAscension, get, ascendant, a0, a1);
    } else if m.M6? {
      Meth6Spacing(ascendant);
    }
    if 0.0 <= ascendant < 360.0 {
      ModOfInRange(ascendant);
    }
  }
}
