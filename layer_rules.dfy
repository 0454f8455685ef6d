/**
 * The value-level rules of colouring layers (src/layers.rs): which part of
 * the set a layer applies to, which layer types shade, when a list of
 * layers is a valid configuration, how one layer's constraints restrict
 * its range and position, and how a layer contributes to a pixel colour.
 */
module LayerRules {
  import opened Wrappers
  import opened OrbitTrap

  // ---------------------------------------------------------------
  // ranges and types
  // ---------------------------------------------------------------

  /** The part of the set a layer is applied to. */
  datatype LayerRange = InSet | OutSet | Both
  {
    /** Whether the layer applies to a point inside (or outside) the set. */
    predicate Applies(inSet: bool)
    {
      match this
      case InSet => inSet
      case OutSet => !inSet
      case Both => true
    }

    /** Whether earlier colouring already covers every part this range applies to. */
    predicate Covered(coveredIn: bool, coveredOut: bool)
    {
      match this
      case Both => coveredIn && coveredOut
      case InSet => coveredIn
      case OutSet => coveredOut
    }
  }

  /** A range applies to at least one side, and to both sides exactly when it is Both. */
  lemma RangeSides(r: LayerRange, b: bool)
    ensures r.Applies(true) || r.Applies(false)
    ensures r.Applies(true) && r.Applies(false) <==> r == Both
    ensures r.Applies(b) <==> (r == Both || (r == InSet) == b)
  {
  }

  /** Coverage means every side the range applies to is covered. */
  lemma CoveredMeansEverySide(r: LayerRange, coveredIn: bool, coveredOut: bool)
    ensures r.Covered(coveredIn, coveredOut) <==>
      (r.Applies(true) ==> coveredIn) && (r.Applies(false) ==> coveredOut)
  {
  }

  /** The colouring algorithm of a layer. */
  datatype LayerType =
    | Colour
    | ColourOrbitTrap(trap: OrbitTrapType)
    | Shading
    | Shading3D
    | ShadingOrbitTrap(trap: OrbitTrapType)
  {
    predicate IsShading()
    {
      Shading? || Shading3D? || ShadingOrbitTrap?
    }

    predicate IsOrbitTrap()
    {
      ColourOrbitTrap? || ShadingOrbitTrap?
    }
  }

  /** Equality of layer types: the variant decides, the trap carried is ignored. */
  predicate SameKind(a: LayerType, b: LayerType)
  {
    match a
    case Colour => b.Colour?
    case ColourOrbitTrap(_) => b.ColourOrbitTrap?
    case Shading => b.Shading?
    case Shading3D => b.Shading3D?
    case ShadingOrbitTrap(_) => b.ShadingOrbitTrap?
  }

  /**
   * Shading layers are Shading, Shading3D and the shading orbit trap; the
   * two orbit-trap variants carry a trap; equal types have equal roles.
   */
  lemma LayerTypeKinds(a: LayerType, b: LayerType, c: LayerType)
    ensures a.IsShading() <==> !(a.Colour? || a.ColourOrbitTrap?)
    ensures a.IsOrbitTrap() <==> (a.ColourOrbitTrap? || a.ShadingOrbitTrap?)
    ensures SameKind(a, a)
    ensures SameKind(a, b) ==> SameKind(b, a)
    ensures SameKind(a, b) && SameKind(b, c) ==> SameKind(a, c)
    ensures SameKind(a, b) ==> (a.IsShading() <==> b.IsShading()) && (a.IsOrbitTrap() <==> b.IsOrbitTrap())
  {
  }

  // ---------------------------------------------------------------
  // layers
  // ---------------------------------------------------------------

  /** The half-open range of insertion slots a layer may be dropped at. */
  datatype PositionRange = PositionRange(start: nat, end: nat)
  {
    predicate Contains(p: nat)
    {
      start <= p < end
    }
  }

  /**
   * One colouring layer.  `rangeConstraints` lists the sides the layer
   * must keep covering, `positionConstraint` the slots it may move to.
   * The layer's palette is not part of this value.
   */
  datatype Layer = Layer(
    name: string,
    layerType: LayerType,
    range: LayerRange,
    rangeConstraints: Option<seq<LayerRange>>,
    positionConstraint: Option<PositionRange>,
    strength: real)

  /** A freshly constructed layer: no constraints, the default name. */
  function NewLayer(layerType: LayerType, range: LayerRange, strength: real): (l: Layer)
    ensures l.layerType == layerType && l.range == range && l.strength == strength
    ensures l.rangeConstraints.None? && l.positionConstraint.None? && l.name == "Layer"
    ensures CanDelete(l) && forall t :: CanChangeType(l, t)
  {
    Layer("Layer", layerType, range, None, None, strength)
  }

  /** Whether the layer is a colour layer (shade == false) or a shading layer acting on the given side. */
  predicate Acts(l: Layer, shade: bool, inSet: bool)
  {
    l.layerType.IsShading() == shade && l.range.Applies(inSet)
  }

  /** Some colour layer before index j acts on the given side. */
  predicate ColourBefore(s: seq<Layer>, j: int, inSet: bool)
  {
    exists k :: 0 <= k < j && k < |s| && Acts(s[k], false, inSet)
  }

  /** Extending the prefix by one layer adds that layer's contribution. */
  lemma ColourBeforeStep(s: seq<Layer>, i: nat, b: bool)
    requires i < |s|
    ensures ColourBefore(s, i + 1, b) <==> ColourBefore(s, i, b) || Acts(s[i], false, b)
  {
    if ColourBefore(s, i + 1, b) && !Acts(s[i], false, b) {
      var k :| 0 <= k < i + 1 && k < |s| && Acts(s[k], false, b);
      assert k < i;
    }
  }

  /** Every shading layer is preceded, on each side it applies to, by a colour layer. */
  predicate ShadesCovered(s: seq<Layer>)
  {
    forall j, b :: 0 <= j < |s| && Acts(s[j], true, b) ==> ColourBefore(s, j, b)
  }

  /** A layer configuration the renderer accepts. */
  predicate ValidConfig(s: seq<Layer>)
  {
    |s| > 0 && !s[0].layerType.IsShading() && ShadesCovered(s)
  }

  /** Validity depends on the layer types and ranges only. */
  predicate SameShape(s: seq<Layer>, t: seq<Layer>)
  {
    |s| == |t| &&
    forall i :: 0 <= i < |s| ==> s[i].layerType == t[i].layerType && s[i].range == t[i].range
  }

  lemma {:induction false} SameShapeValid(s: seq<Layer>, t: seq<Layer>)
    requires SameShape(s, t)
    ensures ShadesCovered(s) <==> ShadesCovered(t)
    ensures ValidConfig(s) <==> ValidConfig(t)
  {
    forall j, b | 0 <= j < |s| && ColourBefore(s, j, b)
      ensures ColourBefore(t, j, b)
    {
      var k :| 0 <= k < j && k < |s| && Acts(s[k], false, b);
      assert Acts(t[k], false, b);
    }
    forall j, b | 0 <= j < |t| && ColourBefore(t, j, b)
      ensures ColourBefore(s, j, b)
    {
      var k :| 0 <= k < j && k < |t| && Acts(t[k], false, b);
      assert Acts(s[k], false, b);
    }
  }

  /**
   * A non-empty list whose shading layers are all covered can not start
   * with a shading layer, so the explicit first-layer rule only chooses
   * which error is reported.
   */
  lemma FirstLayerRuleImplied(s: seq<Layer>)
    requires |s| > 0 && ShadesCovered(s)
    ensures ValidConfig(s)
  {
    RangeSides(s[0].range, true);
    if s[0].layerType.IsShading() {
      assert Acts(s[0], true, s[0].range.Applies(true));
    }
  }

  /** The first layer from index k on that acts as a colour or shading layer on a side. */
  function FirstFrom(s: seq<Layer>, shade: bool, inSet: bool, k: nat): (r: Option<nat>)
    decreases |s| - k
    ensures r.Some? ==> k <= r.value < |s| && Acts(s[r.value], shade, inSet)
    ensures r.Some? ==> forall m :: k <= m < r.value ==> !Acts(s[m], shade, inSet)
    ensures r.None? ==> forall m :: k <= m < |s| ==> !Acts(s[m], shade, inSet)
  {
    if k >= |s| then None
    else if Acts(s[k], shade, inSet) then Some(k)
    else FirstFrom(s, shade, inSet, k + 1)
  }

  function FirstColour(s: seq<Layer>, inSet: bool): Option<nat>
  {
    FirstFrom(s, false, inSet, 0)
  }

  function FirstShade(s: seq<Layer>, inSet: bool): Option<nat>
  {
    FirstFrom(s, true, inSet, 0)
  }

  /** A colour precedes index j on a side exactly when the first colour on that side does. */
  lemma ColourBeforeFirst(s: seq<Layer>, j: int, b: bool)
    ensures ColourBefore(s, j, b) <==> FirstColour(s, b).Some? && FirstColour(s, b).value < j
  {
    if FirstColour(s, b).Some? && FirstColour(s, b).value < j {
      assert Acts(s[FirstColour(s, b).value], false, b);
    }
  }

  /**
   * The covering condition needs only the first layers: every shading
   * layer is covered exactly when, on each side, the first colour layer
   * comes before the first shading layer.
   */
  lemma {:induction false} CoveredByFirsts(s: seq<Layer>)
    ensures ShadesCovered(s) <==>
      forall b :: FirstShade(s, b).Some? ==>
        FirstColour(s, b).Some? && FirstColour(s, b).value < FirstShade(s, b).value
  {
    if ShadesCovered(s) {
      forall b | FirstShade(s, b).Some?
        ensures FirstColour(s, b).Some? && FirstColour(s, b).value < FirstShade(s, b).value
      {
        var f := FirstShade(s, b).value;
        assert Acts(s[f], true, b);
        ColourBeforeFirst(s, f, b);
      }
    }
    if forall b :: FirstShade(s, b).Some? ==>
        FirstColour(s, b).Some? && FirstColour(s, b).value < FirstShade(s, b).value
    {
      forall j, b | 0 <= j < |s| && Acts(s[j], true, b)
        ensures ColourBefore(s, j, b)
      {
        assert FirstShade(s, b).Some?;
        ColourBeforeFirst(s, j, b);
      }
    }
  }

  // ---------------------------------------------------------------
  // per-layer queries and updates
  // ---------------------------------------------------------------

  /** Whether some constrained range applies to the given side. */
  predicate AnyApplies(cs: seq<LayerRange>, inSet: bool)
  {
    exists k :: 0 <= k < |cs| && cs[k].Applies(inSet)
  }

  /**
   * range_allowed as the source writes it: a shading layer constrained to
   * the out-set side may only become InSet.
   */
  function RangeAllowedAsWritten(l: Layer, r: LayerRange): bool
  {
    match l.rangeConstraints
    case None => true
    case Some(cs) =>
      match (AnyApplies(cs, true), AnyApplies(cs, false))
      case (false, false) => true
      case (true, false) => if l.layerType.IsShading() then r == InSet else r.Applies(true)
      case (false, true) => if l.layerType.IsShading() then r == InSet else r.Applies(false)
      case (true, true) => r == Both
  }

  /**
   * range_allowed with the out-set branch of shading layers asking for
   * OutSet.  An allowed range keeps applying to every constrained side,
   * and a constrained shading layer may apply to no other side.
   */
  function RangeAllowed(l: Layer, r: LayerRange): (a: bool)
    ensures l.rangeConstraints.None? ==> a
    ensures a && l.rangeConstraints.Some? ==>
      forall b :: AnyApplies(l.rangeConstraints.value, b) ==> r.Applies(b)
    ensures a && l.rangeConstraints.Some? && l.layerType.IsShading() && l.rangeConstraints.value != [] ==>
      forall b :: r.Applies(b) ==> AnyApplies(l.rangeConstraints.value, b)
    ensures (l.rangeConstraints.Some? && AnyApplies(l.rangeConstraints.value, true) &&
             AnyApplies(l.rangeConstraints.value, false)) ==> (a <==> r == Both)
  {
    match l.rangeConstraints
    case None => true
    case Some(cs) =>
      assert cs != [] ==> cs[0].Applies(true) || cs[0].Applies(false);
      match (AnyApplies(cs, true), AnyApplies(cs, false))
      case (false, false) => true
      case (true, false) => if l.layerType.IsShading() then r == InSet else r.Applies(true)
      case (false, true) => if l.layerType.IsShading() then r == OutSet else r.Applies(false)
      case (true, true) => r == Both
  }

  /** The source's check lets a shading layer held on the out-set side leave it. */
  lemma RangeAllowedAsWrittenLeavesSide()
    ensures var l := Layer("Layer 2", Shading, OutSet, Some([OutSet]), None, 1.0);
      RangeAllowedAsWritten(l, InSet) && !InSet.Applies(false) && !RangeAllowed(l, InSet)
  {
    assert [OutSet][0].Applies(false);
  }

  /** change_range: the range changes only to an allowed one. */
  function ChangeRange(l: Layer, r: LayerRange): (l2: Layer)
    ensures l2.range == r || l2 == l
    ensures l2 == l.(range := l2.range)
    ensures l2.range == r <==> RangeAllowed(l, r) || l.range == r
  {
    if RangeAllowed(l, r) then l.(range := r) else l
  }

  /** position_allowed: no constraint allows every slot, otherwise slot membership. */
  function PositionAllowed(l: Layer, p: nat): (a: bool)
    ensures l.positionConstraint.None? ==> a
    ensures l.positionConstraint.Some? ==>
      (a <==> l.positionConstraint.value.start <= p < l.positionConstraint.value.end)
  {
    match l.positionConstraint
    case None => true
    case Some(pr) => pr.Contains(p)
  }

  /** A layer with range constraints is needed for coverage, unless it shades. */
  function CanDelete(l: Layer): (a: bool)
    ensures a <==> l.rangeConstraints.None? || l.layerType.IsShading()
  {
    l.rangeConstraints.None? || l.layerType.IsShading()
  }

  /** A constrained colour layer may not turn into a shading layer. */
  function CanChangeType(l: Layer, t: LayerType): (a: bool)
    ensures !a <==> !l.layerType.IsShading() && t.IsShading() && l.rangeConstraints.Some?
  {
    if l.layerType.IsShading() then true
    else if !t.IsShading() then true
    else l.rangeConstraints.None?
  }

  /** change_strength: reports whether the strength changed, and stores the new value. */
  function ChangeStrength(l: Layer, value: real): (r: (bool, Layer))
    ensures r.1.strength == value
    ensures r.0 <==> l.strength != value
    ensures r.1 == l.(strength := r.1.strength)
  {
    if l.strength == value then (false, l) else (true, l.(strength := value))
  }

  lemma ChangeStrengthIdempotent(l: Layer, value: real)
    ensures var (_, l2) := ChangeStrength(l, value);
      ChangeStrength(l2, value) == (false, l2)
  {
  }

  // ---------------------------------------------------------------
  // colouring a pixel
  // ---------------------------------------------------------------

  /** An RGBA colour with components in exact reals. */
  datatype Color = Color(r: real, g: real, b: real, a: real)

  const BLACK := Color(0.0, 0.0, 0.0, 1.0)

  function Lerp(x: real, y: real, t: real): real
  {
    (1.0 - t) * x + t * y
  }

  function Interpolate(c1: Color, c2: Color, fraction: real): Color
  {
    Color(Lerp(c1.r, c2.r, fraction), Lerp(c1.g, c2.g, fraction),
          Lerp(c1.b, c2.b, fraction), Lerp(c1.a, c2.a, fraction))
  }

  /** colour_3d: black inside the set, otherwise black faded towards the colour. */
  function Colour3D(t: real, colour: Color): Color
  {
    if t == 0.0 then BLACK else Interpolate(BLACK, colour, t)
  }

  /**
   * A shading layer that applies unwraps the colour built so far; the
   * source panics when there is none.
   */
  predicate CanColour(l: Layer, colour: Option<Color>, inSet: bool)
  {
    l.range.Applies(inSet) && l.layerType.IsShading() ==> colour.Some?
  }

  /**
   * colour_implementors: the layer's contribution to a pixel.  `output` is
   * its implementor's output and `sample` the colour its palette gives for
   * that output.  A layer that does not apply passes the colour on
   * unchanged; one that applies always yields a colour.
   */
  function ColourImplementors(l: Layer, colour: Option<Color>, output: real, sample: Color, inSet: bool): (r: Option<Color>)
    requires CanColour(l, colour, inSet)
    ensures !l.range.Applies(inSet) ==> r == colour
    ensures l.range.Applies(inSet) ==> r.Some?
  {
    if !l.range.Applies(inSet) then colour
    else
      var own := match l.layerType
        case Colour => sample
        case ColourOrbitTrap(_) => sample
        case Shading => Interpolate(colour.value, BLACK, 1.0 - sample.r)
        case ShadingOrbitTrap(_) => Interpolate(colour.value, BLACK, 1.0 - sample.r)
        case Shading3D => Colour3D(output, colour.value);
      var base := if colour.Some? then colour.value else BLACK;
      Some(Interpolate(base, own, l.strength))
  }
}
