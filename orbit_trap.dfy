/**
 * Orbit traps (the orbit_trap module of src/lib.rs): the shape a layer
 * measures the orbit against, with its centre held twice, once in double
 * precision and once in arbitrary precision.  Both copies are exact
 * complex numbers here; the distance and bound numerics are not modelled.
 */
module OrbitTrap {
  import opened Complex

  datatype Analysis = Distance | Real | Imaginary | Angle

  /**
   * The three trap shapes.  `centre` is the double precision centre and
   * `bigCentre` the copy used when rendering with arbitrary precision.
   */
  datatype OrbitTrapType =
    | Point(centre: Complex, bigCentre: Complex, analysis: Analysis)
    | Cross(centre: Complex, bigCentre: Complex, armLength: real, analysis: Analysis)
    | Circle(centre: Complex, bigCentre: Complex, radius: real, analysis: Analysis)

  /** A trap built by its constructor: both copies of the centre agree. */
  function NewPoint(re: real, im: real, analysis: Analysis): (t: OrbitTrapType)
    ensures t.Point? && Synced(t) && GetCenterRe(t) == re && GetCenterIm(t) == im
    ensures GetAnalysis(t) == analysis
  {
    Point(Complex(re, im), Complex(re, im), analysis)
  }

  /** Both copies of the centre describe the same point. */
  predicate Synced(t: OrbitTrapType)
  {
    t.centre == t.bigCentre
  }

  // ---------------------------------------------------------------
  // getters and setters
  // ---------------------------------------------------------------

  function GetAnalysis(t: OrbitTrapType): Analysis
  {
    t.analysis
  }

  function GetCenterRe(t: OrbitTrapType): real
  {
    t.centre.re
  }

  function GetCenterIm(t: OrbitTrapType): real
  {
    t.centre.im
  }

  function SetAnalysis(t: OrbitTrapType, value: Analysis): (r: OrbitTrapType)
    ensures GetAnalysis(r) == value
    ensures SameVariant(r, t) && r.centre == t.centre && r.bigCentre == t.bigCentre
    ensures Synced(r) == Synced(t)
    ensures (t.Cross? ==> r.armLength == t.armLength) && (t.Circle? ==> r.radius == t.radius)
  {
    t.(analysis := value)
  }

  /**
   * The setter as the source writes it: only the double precision centre
   * moves, the arbitrary precision copy keeps the old value.
   */
  function SetCenterReAsWritten(t: OrbitTrapType, value: real): (r: OrbitTrapType)
    ensures GetCenterRe(r) == value && GetCenterIm(r) == GetCenterIm(t)
    ensures SameVariant(r, t) && r.analysis == t.analysis && r.bigCentre == t.bigCentre
    ensures (t.Cross? ==> r.armLength == t.armLength) && (t.Circle? ==> r.radius == t.radius)
  {
    t.(centre := Complex(value, t.centre.im))
  }

  /** set_center_im as the source writes it: only the double precision centre moves. */
  function SetCenterImAsWritten(t: OrbitTrapType, value: real): (r: OrbitTrapType)
    ensures GetCenterIm(r) == value && GetCenterRe(r) == GetCenterRe(t)
    ensures SameVariant(r, t) && r.analysis == t.analysis && r.bigCentre == t.bigCentre
    ensures (t.Cross? ==> r.armLength == t.armLength) && (t.Circle? ==> r.radius == t.radius)
  {
    t.(centre := Complex(t.centre.re, value))
  }

  /** The setter with both copies of the centre moved together. */
  function SetCenterRe(t: OrbitTrapType, value: real): (r: OrbitTrapType)
    ensures GetCenterRe(r) == value && GetCenterIm(r) == GetCenterIm(t)
    ensures SameVariant(r, t) && r.analysis == t.analysis
    ensures r.bigCentre == Complex(value, t.bigCentre.im)
    ensures Synced(t) ==> Synced(r)
    ensures (t.Cross? ==> r.armLength == t.armLength) && (t.Circle? ==> r.radius == t.radius)
  {
    t.(centre := Complex(value, t.centre.im), bigCentre := Complex(value, t.bigCentre.im))
  }

  /** The imaginary part setter with both copies moved together. */
  function SetCenterIm(t: OrbitTrapType, value: real): (r: OrbitTrapType)
    ensures GetCenterIm(r) == value && GetCenterRe(r) == GetCenterRe(t)
    ensures SameVariant(r, t) && r.analysis == t.analysis
    ensures r.bigCentre == Complex(t.bigCentre.re, value)
    ensures Synced(t) ==> Synced(r)
    ensures (t.Cross? ==> r.armLength == t.armLength) && (t.Circle? ==> r.radius == t.radius)
  {
    t.(centre := Complex(t.centre.re, value), bigCentre := Complex(t.bigCentre.re, value))
  }

  /** Squared distance to a point trap, in each precision. */
  function PointDistance2Double(t: OrbitTrapType, z: Complex): real
    requires t.Point?
  {
    AbsSquared(Sub(z, t.centre))
  }

  function PointDistance2Big(t: OrbitTrapType, z: Complex): real
    requires t.Point?
  {
    AbsSquared(Sub(z, t.bigCentre))
  }

  /** On a synced point trap the two precisions measure the same distance. */
  lemma SyncedDistancesAgree(t: OrbitTrapType, z: Complex)
    requires t.Point? && Synced(t)
    ensures PointDistance2Double(t, z) == PointDistance2Big(t, z)
  {
  }

  /**
   * Moving the centre of a synced point trap with the source's setter
   * leaves the arbitrary precision renders measuring from the old centre:
   * the trap at the origin moved to 1 still reports distance 0 for the
   * origin in arbitrary precision, and 1 in double precision.
   */
  lemma StaleBigCentre()
    ensures var t := SetCenterReAsWritten(NewPoint(0.0, 0.0, Distance), 1.0);
      !Synced(t) && PointDistance2Double(t, Zero) == 1.0 && PointDistance2Big(t, Zero) == 0.0
  {
  }

  /** With the corrected setter any sequence of moves keeps both copies agreeing. */
  lemma CorrectedSetterKeepsDistances(t: OrbitTrapType, re: real, im: real, z: Complex)
    requires t.Point? && Synced(t)
    ensures var r := SetCenterIm(SetCenterRe(t, re), im);
      r.centre == Complex(re, im) && PointDistance2Double(r, z) == PointDistance2Big(r, z)
  {
  }

  // ---------------------------------------------------------------
  // equality compares the variant only
  // ---------------------------------------------------------------

  predicate SameVariant(a: OrbitTrapType, b: OrbitTrapType)
  {
    match a
    case Point(_, _, _) => b.Point?
    case Cross(_, _, _, _) => b.Cross?
    case Circle(_, _, _, _) => b.Circle?
  }

  /** The variant comparison is an equivalence that ignores every field. */
  lemma SameVariantEquivalence(a: OrbitTrapType, b: OrbitTrapType, c: OrbitTrapType)
    ensures SameVariant(a, a)
    ensures SameVariant(a, b) ==> SameVariant(b, a)
    ensures SameVariant(a, b) && SameVariant(b, c) ==> SameVariant(a, c)
    ensures SameVariant(a, b) <==> (a.Point? && b.Point?) || (a.Cross? && b.Cross?) || (a.Circle? && b.Circle?)
  {
  }

  /** Two traps of one shape compare equal even with different centres. */
  lemma EqualityIgnoresCentre()
    ensures SameVariant(NewPoint(0.0, 0.0, Distance), NewPoint(1.0, 2.0, Angle))
  {
  }
}
