/**
 * The layer list of src/layers.rs as the renderer holds it: the `Layers`
 * object with its layers, the implementors that compute each layer's
 * per-pixel output and the map from layers to implementors, together with
 * the loops that validate a list, place constraints and colour a pixel.
 */
module LayerStack {
  import opened Wrappers
  import opened Strings
  import opened OrbitTrap
  import opened LayerRules
  import opened LayerOrder
  import opened LayerConstraints

  const ERR_EMPTY := "there must be at least 1 layer"
  const ERR_FIRST_SHADING := "the first layer can't be a shading layer"
  const ERR_UNCOVERED := "Shading layer exists that isn't covered by another layer"

  /** The name the list gives its n-th layer (counting from 1). */
  function LayerName(n: nat): (name: string)
    ensures |name| > 6 && name[..6] == "Layer " && IsDigits(name[6..])
  {
    "Layer " + NatToString(n)
  }

  /** Layers at different positions get different names. */
  lemma LayerNamesDistinct(m: nat, n: nat)
    ensures LayerName(m) == LayerName(n) ==> m == n
  {
    if LayerName(m) == LayerName(n) {
      assert NatToString(m) == LayerName(m)[6..];
      assert NatToString(n) == LayerName(n)[6..];
      NatStringInjective(m, n);
    }
  }

  // ---------------------------------------------------------------
  // implementors
  // ---------------------------------------------------------------

  /** The per-pixel computation a layer reads its output from. */
  datatype Implementor =
    | ColourImplementor
    | Shading3DImplementor
    | OrbitTrapImplementor(trap: OrbitTrapType)

  /** The implementor kind a layer type needs. */
  predicate Serves(impl: Implementor, t: LayerType)
  {
    match t
    case Colour => impl == ColourImplementor
    case Shading => impl == ColourImplementor
    case Shading3D => impl == Shading3DImplementor
    case ColourOrbitTrap(trap) => impl == OrbitTrapImplementor(trap)
    case ShadingOrbitTrap(trap) => impl == OrbitTrapImplementor(trap)
  }

  /** Colour and Shading layers form group 0, Shading3D layers group 1; orbit traps share with nobody. */
  function SharedGroup(t: LayerType): Option<nat>
  {
    match t
    case Colour => Some(0)
    case Shading => Some(0)
    case Shading3D => Some(1)
    case ColourOrbitTrap(_) => None
    case ShadingOrbitTrap(_) => None
  }

  /**
   * The first n layers of s are mapped onto impls: one entry each, in
   * bounds and of the kind the layer needs; layers of a shared group use
   * the same implementor; an orbit-trap layer has one of its own; and
   * every implementor is used by some layer.
   */
  predicate MapsPrefix(s: seq<Layer>, n: nat, impls: seq<Implementor>, m: seq<nat>)
    requires n <= |s|
  {
    |m| == n &&
    (forall i :: 0 <= i < n ==> m[i] < |impls| && Serves(impls[m[i]], s[i].layerType)) &&
    (forall i, j :: (0 <= i < n && 0 <= j < n && SharedGroup(s[i].layerType).Some? &&
       SharedGroup(s[i].layerType) == SharedGroup(s[j].layerType)) ==> m[i] == m[j]) &&
    (forall i, j :: 0 <= i < n && 0 <= j < n && i != j && s[i].layerType.IsOrbitTrap() ==> m[i] != m[j]) &&
    (forall k :: 0 <= k < |impls| ==> k in m)
  }

  predicate ImplementorsFor(s: seq<Layer>, impls: seq<Implementor>, m: seq<nat>)
  {
    MapsPrefix(s, |s|, impls, m)
  }

  /**
   * The index make_implementors remembers for a shared group: -1 while no
   * layer of the group has been seen, afterwards the implementor x that
   * every layer of the group seen so far is mapped to.
   */
  predicate Tracks(s: seq<Layer>, i: nat, impls: seq<Implementor>, m: seq<nat>, idx: int, g: nat, x: Implementor)
    requires i <= |s| && |m| == i
  {
    -1 <= idx < |impls| &&
    (idx == -1 ==> forall k :: 0 <= k < i ==> SharedGroup(s[k].layerType) != Some(g)) &&
    (idx != -1 ==> impls[idx] == x && forall k :: 0 <= k < i && SharedGroup(s[k].layerType) == Some(g) ==> m[k] == idx)
  }

  /** The next layer of group g is mapped to the implementor the group already has. */
  lemma MapExisting(s: seq<Layer>, i: nat, impls: seq<Implementor>, m: seq<nat>,
                    idx: int, g: nat, x: Implementor, idx2: int, g2: nat, x2: Implementor)
    requires i < |s| && MapsPrefix(s, i, impls, m) && g != g2
    requires Tracks(s, i, impls, m, idx, g, x) && Tracks(s, i, impls, m, idx2, g2, x2)
    requires idx != -1 && SharedGroup(s[i].layerType) == Some(g) && Serves(x, s[i].layerType)
    ensures MapsPrefix(s, i + 1, impls, m + [idx as nat])
    ensures Tracks(s, i + 1, impls, m + [idx as nat], idx, g, x)
    ensures Tracks(s, i + 1, impls, m + [idx as nat], idx2, g2, x2)
  {
  }

  /** The first layer of group g gets a new implementor x. */
  lemma MapFirstOfGroup(s: seq<Layer>, i: nat, impls: seq<Implementor>, m: seq<nat>,
                        g: nat, x: Implementor, idx2: int, g2: nat, x2: Implementor)
    requires i < |s| && MapsPrefix(s, i, impls, m) && g != g2
    requires Tracks(s, i, impls, m, -1, g, x) && Tracks(s, i, impls, m, idx2, g2, x2)
    requires SharedGroup(s[i].layerType) == Some(g) && Serves(x, s[i].layerType)
    ensures MapsPrefix(s, i + 1, impls + [x], m + [|impls|])
    ensures Tracks(s, i + 1, impls + [x], m + [|impls|], |impls|, g, x)
    ensures Tracks(s, i + 1, impls + [x], m + [|impls|], idx2, g2, x2)
  {
  }

  /** An orbit-trap layer gets a new implementor of its own. */
  lemma MapOrbitTrap(s: seq<Layer>, i: nat, impls: seq<Implementor>, m: seq<nat>)
    requires i < |s| && MapsPrefix(s, i, impls, m) && s[i].layerType.IsOrbitTrap()
    ensures MapsPrefix(s, i + 1, impls + [OrbitTrapImplementor(s[i].layerType.trap)], m + [|impls|])
  {
  }

  /** A new implementor for a layer outside group g leaves what is tracked for g as it was. */
  lemma TracksOtherGroup(s: seq<Layer>, i: nat, impls: seq<Implementor>, m: seq<nat>,
                         idx: int, g: nat, x: Implementor, y: Implementor)
    requires i < |s| && |m| == i && Tracks(s, i, impls, m, idx, g, x)
    requires SharedGroup(s[i].layerType) != Some(g)
    ensures Tracks(s, i + 1, impls + [y], m + [|impls|], idx, g, x)
  {
  }

  /**
   * make_implementors: one pass over the layers, creating the shared
   * implementors the first time they are needed (-1 marks "not yet").
   */
  method MakeImplementors(s: seq<Layer>) returns (impls: seq<Implementor>, m: seq<nat>)
    ensures ImplementorsFor(s, impls, m)
  {
    impls := [];
    m := [];
    var colourIn: int := -1;
    var shading3dIn: int := -1;
    var i := 0;
    while i < |s|
      invariant 0 <= i <= |s|
      invariant MapsPrefix(s, i, impls, m)
      invariant Tracks(s, i, impls, m, colourIn, 0, ColourImplementor)
      invariant Tracks(s, i, impls, m, shading3dIn, 1, Shading3DImplementor)
    {
      var t := s[i].layerType;
      if t.Colour? || t.Shading? {
        if colourIn == -1 {
          MapFirstOfGroup(s, i, impls, m, 0, ColourImplementor, shading3dIn, 1, Shading3DImplementor);
          colourIn := |impls|;
          impls := impls + [ColourImplementor];
        } else {
          MapExisting(s, i, impls, m, colourIn, 0, ColourImplementor, shading3dIn, 1, Shading3DImplementor);
        }
        m := m + [colourIn as nat];
      } else if t.Shading3D? {
        if shading3dIn == -1 {
          MapFirstOfGroup(s, i, impls, m, 1, Shading3DImplementor, colourIn, 0, ColourImplementor);
          shading3dIn := |impls|;
          impls := impls + [Shading3DImplementor];
        } else {
          MapExisting(s, i, impls, m, shading3dIn, 1, Shading3DImplementor, colourIn, 0, ColourImplementor);
        }
        m := m + [shading3dIn as nat];
      } else {
        MapOrbitTrap(s, i, impls, m);
        TracksOtherGroup(s, i, impls, m, colourIn, 0, ColourImplementor, OrbitTrapImplementor(t.trap));
        TracksOtherGroup(s, i, impls, m, shading3dIn, 1, Shading3DImplementor, OrbitTrapImplementor(t.trap));
        m := m + [|impls|];
        impls := impls + [OrbitTrapImplementor(t.trap)];
      }
      i := i + 1;
    }
  }

  // ---------------------------------------------------------------
  // validation and constraint placement
  // ---------------------------------------------------------------

  /**
   * valid_layers: the three errors in the order the source checks them,
   * and Ok(true) exactly for a valid configuration.
   */
  method ValidLayers(s: seq<Layer>) returns (r: Result<bool, string>)
    ensures |s| == 0 ==> r == Err(ERR_EMPTY)
    ensures |s| > 0 && s[0].layerType.IsShading() ==> r == Err(ERR_FIRST_SHADING)
    ensures |s| > 0 && !s[0].layerType.IsShading() ==>
      r == if ShadesCovered(s) then Ok(true) else Err(ERR_UNCOVERED)
    ensures r.Ok? <==> ValidConfig(s)
    ensures r.Ok? ==> r.value
  {
    if |s| == 0 {
      return Err(ERR_EMPTY);
    }
    if s[0].layerType.IsShading() {
      return Err(ERR_FIRST_SHADING);
    }
    var nonShadeIn := false;
    var nonShadeOut := false;
    var i := 0;
    while i < |s|
      invariant 0 <= i <= |s|
      invariant nonShadeIn == ColourBefore(s, i, true) && nonShadeOut == ColourBefore(s, i, false)
      invariant forall j, b :: 0 <= j < i && Acts(s[j], true, b) ==> ColourBefore(s, j, b)
    {
      ColourBeforeStep(s, i, true);
      ColourBeforeStep(s, i, false);
      var layer := s[i];
      if layer.layerType.IsShading() {
        CoveredMeansEverySide(layer.range, nonShadeIn, nonShadeOut);
        if layer.range.Covered(nonShadeIn, nonShadeOut) {
          i := i + 1;
          continue;
        }
        var b := layer.range.Applies(true) && !nonShadeIn;
        assert Acts(s[i], true, b) && !ColourBefore(s, i, b);
        return Err(ERR_UNCOVERED);
      }
      match layer.range {
        case Both =>
          nonShadeIn := true;
          nonShadeOut := true;
        case InSet =>
          nonShadeIn := true;
        case OutSet =>
          nonShadeOut := true;
      }
      i := i + 1;
    }
    return Ok(true);
  }

  /** clear_constraints: every layer loses its range and position constraints, and nothing else. */
  method ClearConstraints(s: seq<Layer>) returns (t: seq<Layer>)
    ensures |t| == |s|
    ensures forall i :: 0 <= i < |s| ==> t[i] == s[i].(rangeConstraints := None, positionConstraint := None)
  {
    t := s;
    for i := 0 to |t|
      invariant |t| == |s|
      invariant forall k :: 0 <= k < i ==> t[k] == s[k].(rangeConstraints := None, positionConstraint := None)
      invariant forall k :: i <= k < |s| ==> t[k] == s[k]
    {
      t := t[i := t[i].(rangeConstraints := None, positionConstraint := None)];
    }
  }

  /**
   * get_colours_before_first_shade: the number of colour layers acting on
   * the side below `firstShade`, and, when that number is one, its index.
   */
  method GetColoursBeforeFirstShade(s: seq<Layer>, firstShade: nat, inSet: bool) returns (firstColour: nat, count: nat)
    requires firstShade <= |s|
    ensures count == ColoursBelow(s, inSet, firstShade)
    ensures count == 1 ==> FirstColour(s, inSet) == Some(firstColour)
  {
    firstColour := 0;
    count := 0;
    for i := 0 to firstShade
      invariant count == ColoursBelow(s, inSet, i)
      invariant count == 0 ==> firstColour == 0
      invariant count == 1 ==> firstColour < i && Acts(s[firstColour], false, inSet)
    {
      if !s[i].layerType.IsShading() && s[i].range.Applies(inSet) {
        count := count + 1;
        if firstColour == 0 {
          firstColour := i;
        }
      }
    }
    if count == 1 {
      SingleColourBelow(s, inSet, firstShade, firstColour);
    }
  }

  /** The first index f of a side once the scan has passed it, None before. */
  function Seen(f: Option<nat>, i: nat): Option<nat>
  {
    if f.Some? && f.value < i then f else None
  }

  /**
   * The corrected first pass of place_range_constraints: a shading layer
   * is held to a side when no colour layer BEFORE it acts on the other
   * side, counted as the scan goes.
   */
  method HoldShadingLayers(s: seq<Layer>) returns (t: seq<Layer>)
    ensures |t| == |s|
    ensures forall k :: 0 <= k < |s| ==>
      t[k] == s[k].(rangeConstraints := Extend(s[k].rangeConstraints, ShadeHolds(s, k)))
  {
    t := s;
    var coloursIn := 0;
    var coloursOut := 0;
    for i := 0 to |t|
      invariant |t| == |s|
      invariant coloursIn == ColoursBelow(s, true, i) && coloursOut == ColoursBelow(s, false, i)
      invariant forall k :: 0 <= k < i ==>
        t[k] == s[k].(rangeConstraints := Extend(s[k].rangeConstraints, ShadeHolds(s, k)))
      invariant forall k :: i <= k < |s| ==> t[k] == s[k]
    {
      var layer;
      layer, coloursIn, coloursOut := HoldLayer(s, i, coloursIn, coloursOut);
      t := t[i := layer];
    }
  }

  /** One pass of the scan: holds layer i and counts it if it is a colour layer. */
  method HoldLayer(s: seq<Layer>, i: nat, coloursIn: nat, coloursOut: nat)
    returns (layer: Layer, coloursIn': nat, coloursOut': nat)
    requires i < |s|
    requires coloursIn == ColoursBelow(s, true, i) && coloursOut == ColoursBelow(s, false, i)
    ensures layer == s[i].(rangeConstraints := Extend(s[i].rangeConstraints, ShadeHolds(s, i)))
    ensures coloursIn' == ColoursBelow(s, true, i + 1) && coloursOut' == ColoursBelow(s, false, i + 1)
  {
    layer := s[i];
    var pushOut := coloursIn == 0 && layer.layerType.IsShading() && layer.range.Applies(false);
    var pushIn := coloursOut == 0 && layer.layerType.IsShading() && layer.range.Applies(true);
    if pushOut {
      layer := layer.(rangeConstraints := SetRangeConstraint(layer.rangeConstraints, OutSet));
    }
    if pushIn {
      layer := layer.(rangeConstraints := SetRangeConstraint(layer.rangeConstraints, InSet));
    }
    ExtendTwice(s[i].rangeConstraints, if pushOut then [OutSet] else [], if pushIn then [InSet] else []);
    coloursIn', coloursOut' := coloursIn, coloursOut;
    if !s[i].layerType.IsShading() && s[i].range.Applies(true) {
      coloursIn' := coloursIn + 1;
    }
    if !s[i].layerType.IsShading() && s[i].range.Applies(false) {
      coloursOut' := coloursOut + 1;
    }
  }

  /** The scan for the first shading layer of each side. */
  method FindFirstShades(s: seq<Layer>) returns (firstShadeIn: Option<nat>, firstShadeOut: Option<nat>)
    ensures firstShadeIn == FirstShade(s, true) && firstShadeOut == FirstShade(s, false)
  {
    firstShadeIn := None;
    firstShadeOut := None;
    for i := 0 to |s|
      invariant firstShadeIn == Seen(FirstShade(s, true), i)
      invariant firstShadeOut == Seen(FirstShade(s, false), i)
    {
      if s[i].layerType.IsShading() && s[i].range.Applies(true) && firstShadeIn.None? {
        firstShadeIn := Some(i);
      }
      if s[i].layerType.IsShading() && s[i].range.Applies(false) && firstShadeOut.None? {
        firstShadeOut := Some(i);
      }
    }
  }

  /** The side a range constraint holds a layer to. */
  function SideRange(inSet: bool): LayerRange
  {
    if inSet then InSet else OutSet
  }

  /**
   * The block of place_range_constraints for one side: the colour layer
   * that alone covers the side before its first shading layer is held to
   * that side, and no other layer changes.
   */
  method HoldSoleCover(s: seq<Layer>, firstShade: Option<nat>, inSet: bool) returns (t: seq<Layer>)
    requires firstShade == FirstShade(s, inSet)
    ensures |t| == |s|
    ensures forall k :: 0 <= k < |s| ==>
      t[k] == s[k].(rangeConstraints := Extend(s[k].rangeConstraints,
        if SoleCover(s, inSet) == Some(k) then [SideRange(inSet)] else []))
  {
    t := s;
    if firstShade.Some? {
      var firstColour, count := GetColoursBeforeFirstShade(s, firstShade.value, inSet);
      if count == 1 {
        t := t[firstColour := t[firstColour].(rangeConstraints := SetRangeConstraint(t[firstColour].rangeConstraints, SideRange(inSet)))];
      }
    }
  }

  /**
   * place_range_constraints, with the corrected first pass: every layer's
   * constraints are extended by exactly the pushes RangeConstraints lists,
   * in that order.
   */
  method PlaceRangeConstraints(s: seq<Layer>) returns (t: seq<Layer>)
    ensures |t| == |s|
    ensures forall i :: 0 <= i < |s| ==>
      t[i] == s[i].(rangeConstraints := Extend(s[i].rangeConstraints, RangeConstraints(s, i)))
  {
    if |s| == 1 {
      t := [s[0].(rangeConstraints := SetRangeConstraint(s[0].rangeConstraints, Opposite(s[0].range)))];
      return;
    }
    var held := HoldShadingLayers(s);
    var firstShadeIn, firstShadeOut := FindFirstShades(held);
    var heldIn := HoldSoleCover(held, firstShadeIn, true);
    assert SameShape(held, heldIn);
    FirstFromSameShape(held, heldIn, true, false, 0);
    t := HoldSoleCover(heldIn, firstShadeOut, false);
    RangePushesCompose(s, held, heldIn, t);
  }

  /** The three stages of place_range_constraints add up to RangeConstraints. */
  lemma RangePushesCompose(s: seq<Layer>, held: seq<Layer>, heldIn: seq<Layer>, t: seq<Layer>)
    requires |s| != 1 && |held| == |heldIn| == |t| == |s|
    requires forall k :: 0 <= k < |s| ==>
      held[k] == s[k].(rangeConstraints := Extend(s[k].rangeConstraints, ShadeHolds(s, k)))
    requires forall k :: 0 <= k < |s| ==>
      heldIn[k] == held[k].(rangeConstraints := Extend(held[k].rangeConstraints,
        if SoleCover(held, true) == Some(k) then [InSet] else []))
    requires forall k :: 0 <= k < |s| ==>
      t[k] == heldIn[k].(rangeConstraints := Extend(heldIn[k].rangeConstraints,
        if SoleCover(heldIn, false) == Some(k) then [OutSet] else []))
    ensures forall i :: 0 <= i < |s| ==>
      t[i] == s[i].(rangeConstraints := Extend(s[i].rangeConstraints, RangeConstraints(s, i)))
  {
    assert SameShape(s, held);
    assert SameShape(s, heldIn);
    SoleCoverSameShape(s, held, true);
    SoleCoverSameShape(s, heldIn, false);
    forall k | 0 <= k < |s|
      ensures t[k] == s[k].(rangeConstraints := Extend(s[k].rangeConstraints, RangeConstraints(s, k)))
    {
      var a := ShadeHolds(s, k);
      var b: seq<LayerRange> := if SoleCover(s, true) == Some(k) then [InSet] else [];
      var c: seq<LayerRange> := if SoleCover(s, false) == Some(k) then [OutSet] else [];
      ExtendTwice(s[k].rangeConstraints, a, b);
      ExtendTwice(s[k].rangeConstraints, a + b, c);
    }
  }

  /** The stored bound of a shading layer after the first pass of place_position_constraints. */
  function ShadeBound(s: seq<Layer>, k: nat): Option<PositionRange>
    requires ShadesCovered(s) && k < |s|
  {
    if s[k].layerType.IsShading() then Restrict(s[k].positionConstraint, PositionConstraint(s, k))
    else s[k].positionConstraint
  }

  /**
   * The first pass of place_position_constraints, with the corrected
   * setter: every shading layer is bounded to the slots after the first
   * colour layer of each side it acts on; the first shading layer of each
   * side is recorded.
   */
  method BoundShadingLayers(s: seq<Layer>) returns (t: seq<Layer>, firstShadeIn: Option<nat>, firstShadeOut: Option<nat>)
    requires ShadesCovered(s)
    ensures |t| == |s| && firstShadeIn == FirstShade(s, true) && firstShadeOut == FirstShade(s, false)
    ensures forall k :: 0 <= k < |s| ==> t[k] == s[k].(positionConstraint := ShadeBound(s, k))
  {
    t := s;
    firstShadeIn := None;
    firstShadeOut := None;
    var firstColourIn: Option<nat> := None;
    var firstColourOut: Option<nat> := None;
    for i := 0 to |t|
      invariant |t| == |s|
      invariant firstShadeIn == Seen(FirstShade(s, true), i) && firstShadeOut == Seen(FirstShade(s, false), i)
      invariant firstColourIn == Seen(FirstColour(s, true), i) && firstColourOut == Seen(FirstColour(s, false), i)
      invariant forall k :: 0 <= k < i ==> t[k] == s[k].(positionConstraint := ShadeBound(s, k))
      invariant forall k :: i <= k < |s| ==> t[k] == s[k]
    {
      var bound;
      bound, firstShadeIn, firstShadeOut, firstColourIn, firstColourOut :=
        BoundLayer(s, i, firstShadeIn, firstShadeOut, firstColourIn, firstColourOut);
      t := t[i := t[i].(positionConstraint := bound)];
    }
  }

  /**
   * One step of that pass, at layer i: record it if it is the first colour
   * or shading layer of a side, and bound it if it shades.
   */
  method BoundLayer(s: seq<Layer>, i: nat, firstShadeIn: Option<nat>, firstShadeOut: Option<nat>,
                    firstColourIn: Option<nat>, firstColourOut: Option<nat>)
    returns (bound: Option<PositionRange>, shadeIn: Option<nat>, shadeOut: Option<nat>,
             colourIn: Option<nat>, colourOut: Option<nat>)
    requires ShadesCovered(s) && i < |s|
    requires firstShadeIn == Seen(FirstShade(s, true), i) && firstShadeOut == Seen(FirstShade(s, false), i)
    requires firstColourIn == Seen(FirstColour(s, true), i) && firstColourOut == Seen(FirstColour(s, false), i)
    ensures shadeIn == Seen(FirstShade(s, true), i + 1) && shadeOut == Seen(FirstShade(s, false), i + 1)
    ensures colourIn == Seen(FirstColour(s, true), i + 1) && colourOut == Seen(FirstColour(s, false), i + 1)
    ensures bound == ShadeBound(s, i)
  {
    var end := |s| + 1;
    var layer := s[i];
    shadeIn, shadeOut, colourIn, colourOut := firstShadeIn, firstShadeOut, firstColourIn, firstColourOut;
    if !layer.layerType.IsShading() && layer.range.Applies(true) && colourIn.None? {
      colourIn := Some(i);
    }
    if !layer.layerType.IsShading() && layer.range.Applies(false) && colourOut.None? {
      colourOut := Some(i);
    }
    bound := layer.positionConstraint;
    if layer.layerType.IsShading() && layer.range.Applies(true) {
      CoverOf(s, i, true);
      bound := SetPositionConstraint(bound, PositionRange(colourIn.value + 1, end));
      if shadeIn.None? {
        shadeIn := Some(i);
      }
    }
    if layer.layerType.IsShading() && layer.range.Applies(false) {
      CoverOf(s, i, false);
      bound := SetPositionConstraint(bound, PositionRange(colourOut.value + 1, end));
      if shadeOut.None? {
        shadeOut := Some(i);
      }
    }
    ShadeBoundSteps(s, i);
  }

  /** The bound of layer i is what the two per-side settings of the first pass store. */
  lemma ShadeBoundSteps(s: seq<Layer>, i: nat)
    requires ShadesCovered(s) && i < |s|
    ensures var c := s[i].positionConstraint;
      var afterIn := if Acts(s[i], true, true) then Restrict(c, Some(AfterFirstColour(s, i, true))) else c;
      ShadeBound(s, i) ==
        if Acts(s[i], true, false) then Restrict(afterIn, Some(AfterFirstColour(s, i, false))) else afterIn
  {
    if Acts(s[i], true, true) && Acts(s[i], true, false) {
      NarrowTwice(s[i].positionConstraint, AfterFirstColour(s, i, true), AfterFirstColour(s, i, false));
    }
  }

  /**
   * The block of place_position_constraints for one side: the first colour
   * layer of a side with a shading layer is bounded to the slots up to that
   * shading layer, and no other layer changes.
   */
  method BoundLeadingColour(s: seq<Layer>, firstShade: Option<nat>, inSet: bool) returns (t: seq<Layer>)
    requires ShadesCovered(s) && firstShade == FirstShade(s, inSet)
    ensures |t| == |s|
    ensures forall k :: 0 <= k < |s| ==>
      t[k] == s[k].(positionConstraint :=
        if LeadsSide(s, k, inSet) then Restrict(s[k].positionConstraint, Some(UpToFirstShade(s, inSet)))
        else s[k].positionConstraint)
  {
    t := s;
    if firstShade.Some? {
      CoverOf(s, firstShade.value, inSet);
      var lead := FirstColour(s, inSet).value;
      t := t[lead := t[lead].(positionConstraint := SetPositionConstraint(t[lead].positionConstraint, PositionRange(0, firstShade.value + 1)))];
    }
  }

  /**
   * place_position_constraints with the corrected setter: every layer's
   * stored bound is narrowed by exactly the bound PositionConstraint gives.
   */
  method PlacePositionConstraints(s: seq<Layer>) returns (t: seq<Layer>)
    requires ShadesCovered(s)
    ensures |t| == |s|
    ensures forall i :: 0 <= i < |s| ==>
      t[i] == s[i].(positionConstraint := Restrict(s[i].positionConstraint, PositionConstraint(s, i)))
  {
    var bounded, firstShadeIn, firstShadeOut := BoundShadingLayers(s);
    assert SameShape(s, bounded);
    SameShapeValid(s, bounded);
    FirstFromSameShape(s, bounded, true, true, 0);
    FirstFromSameShape(s, bounded, true, false, 0);
    var leadIn := BoundLeadingColour(bounded, firstShadeIn, true);
    assert SameShape(bounded, leadIn);
    SameShapeValid(bounded, leadIn);
    FirstFromSameShape(bounded, leadIn, true, false, 0);
    t := BoundLeadingColour(leadIn, firstShadeOut, false);
    PositionBoundsCompose(s, bounded, leadIn, t);
  }

  /** The three stages of place_position_constraints add up to PositionConstraint. */
  lemma PositionBoundsCompose(s: seq<Layer>, bounded: seq<Layer>, leadIn: seq<Layer>, t: seq<Layer>)
    requires ShadesCovered(s) && |bounded| == |leadIn| == |t| == |s|
    requires forall k :: 0 <= k < |s| ==> bounded[k] == s[k].(positionConstraint := ShadeBound(s, k))
    requires forall k :: 0 <= k < |s| ==>
      leadIn[k] == bounded[k].(positionConstraint :=
        if LeadsSide(bounded, k, true) then Restrict(bounded[k].positionConstraint, Some(UpToFirstShade(bounded, true)))
        else bounded[k].positionConstraint)
    requires forall k :: 0 <= k < |s| ==>
      t[k] == leadIn[k].(positionConstraint :=
        if LeadsSide(leadIn, k, false) then Restrict(leadIn[k].positionConstraint, Some(UpToFirstShade(leadIn, false)))
        else leadIn[k].positionConstraint)
    ensures forall i :: 0 <= i < |s| ==>
      t[i] == s[i].(positionConstraint := Restrict(s[i].positionConstraint, PositionConstraint(s, i)))
  {
    assert SameShape(s, bounded);
    assert SameShape(s, leadIn);
    FirstFromSameShape(s, bounded, true, true, 0);
    FirstFromSameShape(s, bounded, false, true, 0);
    FirstFromSameShape(s, leadIn, true, false, 0);
    FirstFromSameShape(s, leadIn, false, false, 0);
    forall k | 0 <= k < |s|
      ensures t[k] == s[k].(positionConstraint := Restrict(s[k].positionConstraint, PositionConstraint(s, k)))
    {
      if !s[k].layerType.IsShading() && LeadsSide(s, k, true) && LeadsSide(s, k, false) {
        NarrowTwice(s[k].positionConstraint, UpToFirstShade(s, true), UpToFirstShade(s, false));
      }
    }
  }

  /**
   * place_constraints: clear every constraint, then place range and
   * position constraints.  The result has the corrected constraints for
   * its own types and ranges, and nothing else changes.
   */
  method PlaceConstraints(s: seq<Layer>) returns (t: seq<Layer>)
    requires ShadesCovered(s)
    ensures |t| == |s|
    ensures forall i :: 0 <= i < |s| ==>
      t[i] == s[i].(rangeConstraints := AsConstraint(RangeConstraints(s, i)),
                    positionConstraint := PositionConstraint(s, i))
    ensures SameShape(t, s) && HasPlacedConstraints(t)
  {
    var cleared := ClearConstraints(s);
    assert SameShape(s, cleared);
    var ranged := PlaceRangeConstraints(cleared);
    assert SameShape(cleared, ranged);
    SameShapeValid(s, ranged);
    t := PlacePositionConstraints(ranged);
    forall i | 0 <= i < |s|
      ensures t[i] == s[i].(rangeConstraints := AsConstraint(RangeConstraints(s, i)),
                            positionConstraint := PositionConstraint(s, i))
    {
      PlacedLayer(s, cleared, ranged, i, t[i]);
    }
    PlacedList(s, t);
  }

  /** One layer after clearing and both placements carries the constraints computed for the input. */
  lemma PlacedLayer(s: seq<Layer>, cleared: seq<Layer>, ranged: seq<Layer>, i: nat, l: Layer)
    requires ShadesCovered(s) && SameShape(s, cleared) && SameShape(cleared, ranged) && i < |s|
    requires ShadesCovered(ranged)
    requires cleared[i] == s[i].(rangeConstraints := None, positionConstraint := None)
    requires ranged[i] == cleared[i].(rangeConstraints := Extend(cleared[i].rangeConstraints, RangeConstraints(cleared, i)))
    requires l == ranged[i].(positionConstraint := Restrict(ranged[i].positionConstraint, PositionConstraint(ranged, i)))
    ensures l == s[i].(rangeConstraints := AsConstraint(RangeConstraints(s, i)),
                       positionConstraint := PositionConstraint(s, i))
  {
    RangeConstraintsSameShape(s, cleared, i);
    SameShapeValid(s, ranged);
    assert SameShape(s, ranged);
    PositionConstraintSameShape(s, ranged, i);
  }

  /** A list that carries the constraints computed for another list of its shape has placed constraints. */
  lemma PlacedList(s: seq<Layer>, t: seq<Layer>)
    requires ShadesCovered(s) && |t| == |s|
    requires forall i :: 0 <= i < |s| ==>
      t[i] == s[i].(rangeConstraints := AsConstraint(RangeConstraints(s, i)),
                    positionConstraint := PositionConstraint(s, i))
    ensures SameShape(t, s) && HasPlacedConstraints(t)
  {
    assert SameShape(s, t);
    SameShapeValid(s, t);
    forall i | 0 <= i < |t|
      ensures t[i].rangeConstraints == AsConstraint(RangeConstraints(t, i))
      ensures t[i].positionConstraint == PositionConstraint(t, i)
    {
      PlacementDependsOnShape(s, t, i);
    }
  }

  /** Names do not take part in placement: renaming keeps placed constraints placed. */
  lemma RenamedStaysPlaced(s: seq<Layer>, t: seq<Layer>)
    requires HasPlacedConstraints(s) && SameShape(s, t)
    requires forall i :: 0 <= i < |s| ==>
      t[i].rangeConstraints == s[i].rangeConstraints && t[i].positionConstraint == s[i].positionConstraint
    ensures HasPlacedConstraints(t)
  {
    SameShapeValid(s, t);
    forall i | 0 <= i < |t|
      ensures t[i].rangeConstraints == AsConstraint(RangeConstraints(t, i))
      ensures t[i].positionConstraint == PositionConstraint(t, i)
    {
      PlacementDependsOnShape(s, t, i);
    }
  }

  /** The renaming loop of Layers::new: each layer is named after its position. */
  method NameLayers(s: seq<Layer>) returns (t: seq<Layer>)
    ensures |t| == |s|
    ensures forall k :: 0 <= k < |s| ==> t[k] == s[k].(name := LayerName(k + 1))
  {
    t := s;
    for i := 0 to |t|
      invariant |t| == |s|
      invariant forall k :: 0 <= k < i ==> t[k] == s[k].(name := LayerName(k + 1))
      invariant forall k :: i <= k < |t| ==> t[k] == s[k]
    {
      t := t[i := t[i].(name := LayerName(i + 1))];
    }
  }

  // ---------------------------------------------------------------
  // colouring a pixel
  // ---------------------------------------------------------------

  /**
   * What colour_implementors needs to never unwrap a missing colour: a
   * shading layer that applies to the pixel's side comes after some layer
   * that applies to it.
   */
  predicate PixelSafe(s: seq<Layer>, inSet: bool)
  {
    forall j :: 0 <= j < |s| && s[j].range.Applies(inSet) && s[j].layerType.IsShading() ==>
      exists k :: 0 <= k < j && s[k].range.Applies(inSet)
  }

  /** A list whose shading layers are covered colours every pixel without a missing colour. */
  lemma CoveredPixelSafe(s: seq<Layer>, inSet: bool)
    requires ShadesCovered(s)
    ensures PixelSafe(s, inSet)
  {
    forall j | 0 <= j < |s| && s[j].range.Applies(inSet) && s[j].layerType.IsShading()
      ensures exists k :: 0 <= k < j && s[k].range.Applies(inSet)
    {
      assert Acts(s[j], true, inSet);
      var k :| 0 <= k < j && k < |s| && Acts(s[k], false, inSet);
      assert s[k].range.Applies(inSet);
    }
  }

  /**
   * The colour after the first n layers, each given its implementor's
   * output and the colour its palette gives for that output.  There is a
   * colour exactly when one of those layers applies to the pixel's side.
   */
  function PixelColour(s: seq<Layer>, outputs: seq<real>, samples: seq<Color>, inSet: bool, n: nat): (r: Option<Color>)
    requires n <= |s| == |outputs| == |samples| && PixelSafe(s, inSet)
    ensures r.Some? <==> exists k :: 0 <= k < n && s[k].range.Applies(inSet)
  {
    if n == 0 then None
    else
      var before := PixelColour(s, outputs, samples, inSet, n - 1);
      ColourImplementors(s[n - 1], before, outputs[n - 1], samples[n - 1], inSet)
  }

  /** The output each layer reads: that of the implementor the map assigns it. */
  function LayerOutputs(m: seq<nat>, outputs: seq<real>): (r: seq<real>)
    requires forall i :: 0 <= i < |m| ==> m[i] < |outputs|
    ensures |r| == |m| && forall i :: 0 <= i < |m| ==> r[i] == outputs[m[i]]
  {
    seq(|m|, i requires 0 <= i < |m| => outputs[m[i]])
  }

  // ---------------------------------------------------------------
  // the layer list
  // ---------------------------------------------------------------

  /**
   * Layers: the ordered layers (the order is the order of application),
   * the implementors and the map from each layer to its implementor, and
   * whether arbitrary precision is in use.
   */
  class Layers {
    var layers: seq<Layer>
    var implementors: seq<Implementor>
    var implementorMap: seq<nat>
    var arbPrecision: bool

    /** The implementors and the map are the ones make_implementors builds for the layers. */
    ghost predicate Valid()
      reads this
    {
      ImplementorsFor(layers, implementors, implementorMap)
    }

    /**
     * Layers::new: the source panics unless the list is valid; the layers
     * get the corrected constraints and are named by position.
     */
    constructor (ls: seq<Layer>)
      requires ValidConfig(ls)
      ensures Valid() && !arbPrecision
      ensures ValidConfig(layers) && SameShape(layers, ls) && HasPlacedConstraints(layers)
      ensures forall i :: 0 <= i < |ls| ==>
        layers[i].name == LayerName(i + 1) && layers[i].strength == ls[i].strength
    {
      var placed := PlaceConstraints(ls);
      var named := NameLayers(placed);
      assert SameShape(placed, named);
      RenamedStaysPlaced(placed, named);
      SameShapeValid(named, ls);
      var impls, m := MakeImplementors(named);
      layers := named;
      implementors := impls;
      implementorMap := m;
      arbPrecision := false;
    }

    /** update_implementors: rebuild the implementors for the current layers. */
    method UpdateImplementors()
      modifies this
      ensures Valid()
      ensures layers == old(layers) && arbPrecision == old(arbPrecision)
    {
      var impls, m := MakeImplementors(layers);
      implementors := impls;
      implementorMap := m;
    }

    /**
     * add_layer: append a copy named after its position and re-place every
     * constraint.  The source's placement panics unless the extended list
     * has its shading layers covered.
     */
    method AddLayer(l: Layer)
      requires ShadesCovered(layers + [l])
      modifies this
      ensures Valid() && arbPrecision == old(arbPrecision)
      ensures ValidConfig(layers) && SameShape(layers, old(layers) + [l]) && HasPlacedConstraints(layers)
      ensures layers[|old(layers)|].name == LayerName(|old(layers)| + 1)
      ensures forall i :: 0 <= i < |old(layers)| ==> layers[i].name == old(layers)[i].name
      ensures forall i :: 0 <= i < |layers| ==> layers[i].strength == (old(layers) + [l])[i].strength
    {
      var copy := l.(name := LayerName(|layers| + 1));
      var extended := layers + [copy];
      assert SameShape(extended, old(layers) + [l]);
      SameShapeValid(extended, old(layers) + [l]);
      layers := PlaceConstraints(extended);
      FirstLayerRuleImplied(layers);
      UpdateImplementors();
    }

    /** reorder_layer: take the layer at `take` out and insert it at `dest`. */
    method ReorderLayer(take: nat, dest: nat)
      requires take < |layers| && dest < |layers|
      modifies this
      ensures layers == Reorder(old(layers), take, dest)
      ensures Valid() && arbPrecision == old(arbPrecision)
    {
      var toInsert := layers[take];
      layers := Remove(layers, take);
      layers := Insert(layers, dest, toInsert);
      UpdateImplementors();
    }

    /** delete_layer: remove the layer at `index`. */
    method DeleteLayer(index: nat)
      requires index < |layers|
      modifies this
      ensures layers == Remove(old(layers), index)
      ensures Valid() && arbPrecision == old(arbPrecision)
    {
      layers := Remove(layers, index);
      UpdateImplementors();
    }

    /**
     * change_layer_type: refused outright when can_change_type says no;
     * otherwise the new type stays only if the list is still valid, so a
     * valid list stays valid.
     */
    method ChangeLayerType(index: nat, newType: LayerType)
      requires index < |layers|
      modifies this
      ensures !CanChangeType(old(layers)[index], newType) ==>
        layers == old(layers) && implementors == old(implementors) && implementorMap == old(implementorMap)
      ensures CanChangeType(old(layers)[index], newType) ==>
        var changed := old(layers)[index := old(layers)[index].(layerType := newType)];
        layers == (if ValidConfig(changed) then changed else old(layers)) && Valid()
      ensures ValidConfig(old(layers)) ==> ValidConfig(layers)
      ensures arbPrecision == old(arbPrecision)
    {
      if !CanChangeType(layers[index], newType) {
        return;
      }
      var oldType := layers[index].layerType;
      layers := layers[index := layers[index].(layerType := newType)];
      var valid := ValidLayers(layers);
      if valid.Err? {
        layers := layers[index := layers[index].(layerType := oldType)];
      }
      UpdateImplementors();
    }

    /**
     * colour_pixel_implementors after the iteration: every layer in order
     * turns the colour so far into the next one, using its implementor's
     * output; a pixel no layer applies to is BLACK.  `inSet`, `outputs`
     * and `samples` stand for the iteration's results and the palette
     * lookups.
     */
    method ColourPixel(inSet: bool, outputs: seq<real>, samples: seq<Color>) returns (c: Color)
      requires Valid() && |outputs| == |implementors| && |samples| == |layers| && PixelSafe(layers, inSet)
      ensures var r := PixelColour(layers, LayerOutputs(implementorMap, outputs), samples, inSet, |layers|);
        c == if r.Some? then r.value else BLACK
      ensures (forall k :: 0 <= k < |layers| ==> !layers[k].range.Applies(inSet)) ==> c == BLACK
    {
      c := ColourLayers(layers, implementorMap, outputs, samples, inSet);
    }
  }

  /** The loop of colour_pixel_implementors over the layers, in order. */
  method ColourLayers(s: seq<Layer>, m: seq<nat>, outputs: seq<real>, samples: seq<Color>, inSet: bool)
    returns (c: Color)
    requires |m| == |s| == |samples| && (forall i :: 0 <= i < |m| ==> m[i] < |outputs|)
    requires PixelSafe(s, inSet)
    ensures var r := PixelColour(s, LayerOutputs(m, outputs), samples, inSet, |s|);
      c == if r.Some? then r.value else BLACK
    ensures (forall k :: 0 <= k < |s| ==> !s[k].range.Applies(inSet)) ==> c == BLACK
  {
    var perLayer := LayerOutputs(m, outputs);
    var colour: Option<Color> := None;
    for i := 0 to |s|
      invariant colour == PixelColour(s, perLayer, samples, inSet, i)
    {
      var output := outputs[m[i]];
      colour := ColourImplementors(s[i], colour, output, samples[i], inSet);
    }
    c := match colour
      case Some(value) => value
      case None => BLACK;
  }
}
