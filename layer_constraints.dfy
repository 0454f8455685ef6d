/**
 * Where Layers::place_constraints (src/layers.rs) puts range and position
 * constraints, stated per layer, and what the constraints guarantee: a
 * layer edit the constraints allow keeps the configuration valid.
 *
 * Each placement rule exists twice where the source is wrong: the
 * `...AsWritten` function follows the source line by line, the plain
 * function is the corrected rule the rest of the model uses.
 */
module LayerConstraints {
  import opened Wrappers
  import opened LayerRules
  import opened LayerOrder

  // ---------------------------------------------------------------
  // counting colour layers
  // ---------------------------------------------------------------

  /** The number of colour layers among the first n acting on a side. */
  function ColoursBelow(s: seq<Layer>, inSet: bool, n: nat): nat
    requires n <= |s|
  {
    if n == 0 then 0
    else ColoursBelow(s, inSet, n - 1) + (if Acts(s[n - 1], false, inSet) then 1 else 0)
  }

  /** No colour among the first n exactly when none is counted. */
  lemma {:induction false} NoColoursBelow(s: seq<Layer>, inSet: bool, n: nat)
    requires n <= |s|
    ensures ColoursBelow(s, inSet, n) == 0 <==> !ColourBefore(s, n, inSet)
  {
    if n > 0 {
      NoColoursBelow(s, inSet, n - 1);
      if ColourBefore(s, n, inSet) && !Acts(s[n - 1], false, inSet) {
        var k :| 0 <= k < n && k < |s| && Acts(s[k], false, inSet);
        assert k < n - 1;
      }
    }
  }

  /** A count of one below n means the first colour is the only one below n. */
  lemma {:induction false} SingleColourBelow(s: seq<Layer>, inSet: bool, n: nat, k: nat)
    requires n <= |s| && ColoursBelow(s, inSet, n) == 1
    requires k < n && Acts(s[k], false, inSet)
    ensures FirstColour(s, inSet) == Some(k)
  {
    var f := FirstColour(s, inSet);
    assert f.Some? && f.value <= k;
    if f.value < k {
      ColoursBelowSplit(s, inSet, n, f.value, k);
    }
  }

  /** Two colour layers below n count twice. */
  lemma {:induction false} ColoursBelowSplit(s: seq<Layer>, inSet: bool, n: nat, a: nat, b: nat)
    requires n <= |s| && a < b < n
    requires Acts(s[a], false, inSet) && Acts(s[b], false, inSet)
    ensures ColoursBelow(s, inSet, n) >= 2
  {
    if n - 1 > b {
      ColoursBelowSplit(s, inSet, n - 1, a, b);
    } else {
      assert n - 1 == b;
      NoColoursBelow(s, inSet, b);
    }
  }

  /** A colour that is the only one below n is counted once. */
  lemma {:induction false} OnlyColourBelow(s: seq<Layer>, inSet: bool, n: nat, i: nat)
    requires n <= |s| && i < n && Acts(s[i], false, inSet)
    requires forall k :: 0 <= k < n && Acts(s[k], false, inSet) ==> k == i
    ensures ColoursBelow(s, inSet, n) == 1
  {
    if n - 1 > i {
      OnlyColourBelow(s, inSet, n - 1, i);
    } else {
      assert !ColourBefore(s, i, inSet);
      NoColoursBelow(s, inSet, i);
    }
  }

  // ---------------------------------------------------------------
  // range constraints
  // ---------------------------------------------------------------

  /** The constraint given to a lone layer, so that it can not be deleted. */
  function Opposite(r: LayerRange): LayerRange
  {
    match r
    case InSet => OutSet
    case OutSet => InSet
    case Both => OutSet
  }

  /**
   * The colour layer that alone covers a side before the first shading
   * layer of that side, if there is one.
   */
  function SoleCover(s: seq<Layer>, inSet: bool): (r: Option<nat>)
    ensures r.Some? ==> r.value < |s| && Acts(s[r.value], false, inSet)
    ensures r.Some? ==> FirstShade(s, inSet).Some? && r.value < FirstShade(s, inSet).value
  {
    match FirstShade(s, inSet)
    case None => None
    case Some(f) =>
      if ColoursBelow(s, inSet, f) == 1 then
        NoColoursBelow(s, inSet, f);
        ColourBeforeFirst(s, f, inSet);
        FirstColour(s, inSet)
      else None
  }

  /**
   * The range constraints place_range_constraints pushes onto layer i, in
   * push order, as the source writes it: a shading layer is held to a side
   * when no colour layer anywhere in the list acts on the other side.
   */
  function RangeConstraintsAsWritten(s: seq<Layer>, i: nat): seq<LayerRange>
    requires i < |s|
  {
    if |s| == 1 then [Opposite(s[0].range)]
    else
      (if ColoursBelow(s, true, |s|) == 0 && Acts(s[i], true, false) then [OutSet] else []) +
      (if ColoursBelow(s, false, |s|) == 0 && Acts(s[i], true, true) then [InSet] else []) +
      (if SoleCover(s, true) == Some(i) then [InSet] else []) +
      (if SoleCover(s, false) == Some(i) then [OutSet] else [])
  }

  /**
   * The corrected range constraints: a shading layer is held to a side
   * when no colour layer before it acts on the other side.
   */
  function RangeConstraints(s: seq<Layer>, i: nat): seq<LayerRange>
    requires i < |s|
  {
    if |s| == 1 then [Opposite(s[0].range)]
    else
      ShadeHolds(s, i) +
      (if SoleCover(s, true) == Some(i) then [InSet] else []) +
      (if SoleCover(s, false) == Some(i) then [OutSet] else [])
  }

  /** The corrected pushes of the first pass, which hold shading layers to their covered side. */
  function ShadeHolds(s: seq<Layer>, i: nat): seq<LayerRange>
    requires i < |s|
  {
    (if ColoursBelow(s, true, i) == 0 && Acts(s[i], true, false) then [OutSet] else []) +
    (if ColoursBelow(s, false, i) == 0 && Acts(s[i], true, true) then [InSet] else [])
  }

  /** set_range_constraint: push onto the list, creating it if there is none. */
  function SetRangeConstraint(c: Option<seq<LayerRange>>, x: LayerRange): (r: Option<seq<LayerRange>>)
    ensures r == Extend(c, [x])
  {
    match c
    case Some(cs) => Some(cs + [x])
    case None => Some([x])
  }

  /** The constraints after pushing every element of cs in order. */
  function Extend(c: Option<seq<LayerRange>>, cs: seq<LayerRange>): Option<seq<LayerRange>>
  {
    if cs == [] then c
    else match c
      case Some(a) => Some(a + cs)
      case None => Some(cs)
  }

  lemma ExtendTwice(c: Option<seq<LayerRange>>, a: seq<LayerRange>, b: seq<LayerRange>)
    ensures Extend(Extend(c, a), b) == Extend(c, a + b)
  {
    if a != [] && b != [] {
      assert a + b != [];
      if c.Some? {
        assert c.value + a + b == c.value + (a + b);
      }
    } else if a == [] {
      assert a + b == b;
    } else {
      assert a + b == a;
    }
  }

  /** The constraints of a cleared layer after the pushes cs. */
  function AsConstraint(cs: seq<LayerRange>): Option<seq<LayerRange>>
  {
    if cs == [] then None else Some(cs)
  }

  // ---------------------------------------------------------------
  // position constraints
  // ---------------------------------------------------------------

  function Max(a: nat, b: nat): nat { if a < b then b else a }

  function Min(a: nat, b: nat): nat { if a < b then a else b }

  /** The corrected set_position_constraint: a second bound narrows the first. */
  function Narrow(c: Option<PositionRange>, pr: PositionRange): (r: PositionRange)
    ensures c.None? ==> r == pr
    ensures forall p: nat :: r.Contains(p) <==> pr.Contains(p) && (c.Some? ==> c.value.Contains(p))
  {
    match c
    case None => pr
    case Some(q) => PositionRange(Max(q.start, pr.start), Min(q.end, pr.end))
  }

  /**
   * The corrected set_position_constraint: the new bound is intersected
   * with the one already stored instead of replacing it.
   */
  function SetPositionConstraint(c: Option<PositionRange>, pr: PositionRange): (r: Option<PositionRange>)
    ensures r.Some? && forall p: nat :: r.value.Contains(p) <==> pr.Contains(p) && (c.Some? ==> c.value.Contains(p))
  {
    Some(Narrow(c, pr))
  }

  /** The stored bound after setting the bound `o`, if there is one. */
  function Restrict(c: Option<PositionRange>, o: Option<PositionRange>): Option<PositionRange>
  {
    match o
    case None => c
    case Some(pr) => SetPositionConstraint(c, pr)
  }

  /** Setting two bounds one after the other stores their intersection. */
  lemma NarrowTwice(c: Option<PositionRange>, a: PositionRange, b: PositionRange)
    ensures Restrict(Restrict(c, Some(a)), Some(b)) == Restrict(c, Some(Narrow(Some(a), b)))
  {
  }

  /** A shading layer acting on a side has a colour layer of that side before it. */
  lemma CoverOf(s: seq<Layer>, i: nat, b: bool)
    requires ShadesCovered(s) && i < |s| && Acts(s[i], true, b)
    ensures FirstColour(s, b).Some? && FirstColour(s, b).value < i
  {
    ColourBeforeFirst(s, i, b);
  }

  /** The slots after the first colour layer of a side, for a shading layer acting on it. */
  function AfterFirstColour(s: seq<Layer>, i: nat, b: bool): PositionRange
    requires ShadesCovered(s) && i < |s| && Acts(s[i], true, b)
  {
    CoverOf(s, i, b);
    PositionRange(FirstColour(s, b).value + 1, |s| + 1)
  }

  /** Whether layer i is the first colour layer of a side that has a shading layer. */
  predicate LeadsSide(s: seq<Layer>, i: nat, b: bool)
  {
    FirstShade(s, b).Some? && FirstColour(s, b) == Some(i)
  }

  /** The slots up to the first shading layer of a side. */
  function UpToFirstShade(s: seq<Layer>, b: bool): PositionRange
    requires FirstShade(s, b).Some?
  {
    PositionRange(0, FirstShade(s, b).value + 1)
  }

  /**
   * place_position_constraints as the source writes it: each bound
   * replaces the one set before it, so the out-set bound is the only one
   * kept by a layer acting on both sides.
   */
  function PositionConstraintAsWritten(s: seq<Layer>, i: nat): Option<PositionRange>
    requires ShadesCovered(s) && i < |s|
  {
    if s[i].layerType.IsShading() then
      if Acts(s[i], true, false) then Some(AfterFirstColour(s, i, false))
      else if Acts(s[i], true, true) then Some(AfterFirstColour(s, i, true))
      else None
    else
      if LeadsSide(s, i, false) then Some(UpToFirstShade(s, false))
      else if LeadsSide(s, i, true) then Some(UpToFirstShade(s, true))
      else None
  }

  /** The corrected position constraint: the bounds of both sides intersect. */
  function PositionConstraint(s: seq<Layer>, i: nat): Option<PositionRange>
    requires ShadesCovered(s) && i < |s|
  {
    var inBound :=
      if s[i].layerType.IsShading() then
        if Acts(s[i], true, true) then Some(AfterFirstColour(s, i, true)) else None
      else
        if LeadsSide(s, i, true) then Some(UpToFirstShade(s, true)) else None;
    if s[i].layerType.IsShading() then
      if Acts(s[i], true, false) then Some(Narrow(inBound, AfterFirstColour(s, i, false))) else inBound
    else
      if LeadsSide(s, i, false) then Some(Narrow(inBound, UpToFirstShade(s, false))) else inBound
  }

  /**
   * The slots the corrected constraint allows: a shading layer must stay
   * after the first colour layer of every side it acts on, and the leading
   * colour layer of a side must stay before that side's first shading layer.
   */
  lemma PositionConstraintAllows(s: seq<Layer>, i: nat, p: nat)
    requires ShadesCovered(s) && i < |s|
    ensures s[i].layerType.IsShading() ==> PositionConstraint(s, i).Some?
    ensures s[i].layerType.IsShading() ==>
      (PositionConstraint(s, i).value.Contains(p) <==>
        p <= |s| && forall b :: Acts(s[i], true, b) ==> FirstColour(s, b).value < p)
    ensures !s[i].layerType.IsShading() ==>
      (PositionConstraint(s, i).None? || PositionConstraint(s, i).value.Contains(p) <==>
        forall b :: LeadsSide(s, i, b) ==> p <= FirstShade(s, b).value)
  {
    forall b | Acts(s[i], true, b)
      ensures FirstColour(s, b).Some?
    {
      CoverOf(s, i, b);
    }
    RangeSides(s[i].range, true);
  }

  // ---------------------------------------------------------------
  // placement of all constraints
  // ---------------------------------------------------------------

  /** Every layer of t carries the constraints the corrected placement computes for t. */
  predicate HasPlacedConstraints(t: seq<Layer>)
  {
    ShadesCovered(t) &&
    forall i :: 0 <= i < |t| ==>
      t[i].rangeConstraints == AsConstraint(RangeConstraints(t, i)) &&
      t[i].positionConstraint == PositionConstraint(t, i)
  }

  // ---------------------------------------------------------------
  // what the corrected constraints guarantee
  // ---------------------------------------------------------------

  /**
   * The range constraints of a shading layer name only sides it acts on,
   * and a shading layer without range constraints is covered on both sides.
   */
  lemma ShadeConstraintSides(t: seq<Layer>, i: nat, b: bool)
    requires ValidConfig(t) && i < |t| && t[i].layerType.IsShading()
    ensures AnyApplies(RangeConstraints(t, i), b) ==> t[i].range.Applies(b)
    ensures RangeConstraints(t, i) == [] ==> ColourBefore(t, i, true) && ColourBefore(t, i, false)
  {
    var cs := RangeConstraints(t, i);
    if AnyApplies(cs, b) {
      var k :| 0 <= k < |cs| && cs[k].Applies(b);
    }
    if cs == [] {
      RangeSides(t[i].range, true);
      NoColoursBelow(t, true, i);
      NoColoursBelow(t, false, i);
      if t[i].range.Applies(true) {
        assert Acts(t[i], true, true);
      }
      if t[i].range.Applies(false) {
        assert Acts(t[i], true, false);
      }
    }
  }

  /** The colour layer that alone covers a side is held to that side. */
  lemma SoleCoverConstrained(t: seq<Layer>, i: nat, b: bool)
    requires ValidConfig(t) && i < |t| && SoleCover(t, b) == Some(i)
    ensures AnyApplies(RangeConstraints(t, i), b)
  {
    var cs := RangeConstraints(t, i);
    assert |t| > 1;
    if b {
      assert cs[|cs| - 1 - (if SoleCover(t, false) == Some(i) then 1 else 0)] == InSet;
    } else {
      assert cs[|cs| - 1] == OutSet;
    }
  }

  /**
   * A shading layer has a covering colour layer other than i, unless i is
   * the colour layer that alone covers that side.
   */
  lemma OtherColourBefore(t: seq<Layer>, i: nat, j: nat, b: bool) returns (k: nat)
    requires ValidConfig(t) && j < |t| && Acts(t[j], true, b) && SoleCover(t, b) != Some(i)
    ensures k < j && k != i && Acts(t[k], false, b)
  {
    CoveredByFirsts(t);
    var f := FirstShade(t, b).value;
    var fc := FirstColour(t, b).value;
    assert fc < f <= j;
    if fc != i {
      return fc;
    }
    if forall m :: 0 <= m < j && Acts(t[m], false, b) ==> m == i {
      OnlyColourBelow(t, b, f, i);
      assert false;
    }
    k :| 0 <= k < j && Acts(t[k], false, b) && k != i;
  }

  /** One covering obligation of ChangeRangeKeepsValid: the layer at j in the changed list. */
  lemma ChangedListCovers(t: seq<Layer>, i: nat, r: LayerRange, j: nat, b: bool)
    requires ValidConfig(t) && i < |t| && j < |t|
    requires t[i].rangeConstraints == AsConstraint(RangeConstraints(t, i))
    requires RangeAllowed(t[i], r)
    requires Acts(t[i := t[i].(range := r)][j], true, b)
    ensures ColourBefore(t[i := t[i].(range := r)], j, b)
  {
    if j == i {
      ChangedSelfCovered(t, i, r, b);
    } else if SoleCover(t, b) == Some(i) {
      ChangedSoleCoverStays(t, i, r, j, b);
    } else {
      var u := t[i := t[i].(range := r)];
      assert Acts(t[j], true, b);
      var k := OtherColourBefore(t, i, j, b);
      assert u[k] == t[k];
    }
  }

  /** The changed layer itself, when it shades side b, still has a colour layer above it. */
  lemma ChangedSelfCovered(t: seq<Layer>, i: nat, r: LayerRange, b: bool)
    requires ValidConfig(t) && i < |t|
    requires t[i].rangeConstraints == AsConstraint(RangeConstraints(t, i))
    requires RangeAllowed(t[i], r)
    requires Acts(t[i := t[i].(range := r)][i], true, b)
    ensures ColourBefore(t[i := t[i].(range := r)], i, b)
  {
    var u := t[i := t[i].(range := r)];
    var cs := RangeConstraints(t, i);
    ShadeConstraintSides(t, i, b);
    if cs != [] {
      assert t[i].range.Applies(b);
      assert Acts(t[i], true, b);
    }
    assert ColourBefore(t, i, b);
    var k :| 0 <= k < i && Acts(t[k], false, b);
    assert u[k] == t[k];
  }

  /** The only colour layer covering side b keeps covering it after an allowed change. */
  lemma ChangedSoleCoverStays(t: seq<Layer>, i: nat, r: LayerRange, j: nat, b: bool)
    requires ValidConfig(t) && i < |t| && j < |t| && SoleCover(t, b) == Some(i)
    requires t[i].rangeConstraints == AsConstraint(RangeConstraints(t, i))
    requires RangeAllowed(t[i], r)
    requires Acts(t[i := t[i].(range := r)][j], true, b)
    ensures ColourBefore(t[i := t[i].(range := r)], j, b)
  {
    var u := t[i := t[i].(range := r)];
    SoleCoverConstrained(t, i, b);
    assert Acts(u[i], false, b);
    assert i < FirstShade(t, b).value <= j;
  }

  /**
   * change_range keeps a valid configuration valid once the corrected
   * constraints are placed: the layer keeps every side it is held to.
   */
  lemma {:induction false} ChangeRangeKeepsValid(t: seq<Layer>, i: nat, r: LayerRange)
    requires ValidConfig(t) && HasPlacedConstraints(t) && i < |t|
    ensures ValidConfig(t[i := ChangeRange(t[i], r)])
  {
    var u := t[i := ChangeRange(t[i], r)];
    if u[i].range == t[i].range {
      assert SameShape(u, t);
      SameShapeValid(u, t);
      return;
    }
    assert u == t[i := t[i].(range := r)];
    forall j, b | 0 <= j < |u| && Acts(u[j], true, b)
      ensures ColourBefore(u, j, b)
    {
      ChangedListCovers(t, i, r, j, b);
    }
  }

  /** A lone layer is held by a range constraint, so a deletable layer is never the last one. */
  lemma LoneLayerHeld(t: seq<Layer>, i: nat)
    requires ValidConfig(t) && HasPlacedConstraints(t) && i < |t| && CanDelete(t[i])
    ensures |t| > 1
  {
  }

  /** A layer that may be deleted is never the only colour layer covering a side. */
  lemma DeletableNotSoleCover(t: seq<Layer>, i: nat, b: bool)
    requires ValidConfig(t) && i < |t| && CanDelete(t[i])
    requires t[i].rangeConstraints == AsConstraint(RangeConstraints(t, i))
    ensures SoleCover(t, b) != Some(i)
  {
    if SoleCover(t, b) == Some(i) {
      SoleCoverConstrained(t, i, b);
    }
  }

  /** One covering obligation of DeleteKeepsValid: the layer at j in the shortened list. */
  lemma RemovedListCovers(t: seq<Layer>, i: nat, j: nat, b: bool)
    requires ValidConfig(t) && i < |t| && CanDelete(t[i])
    requires t[i].rangeConstraints == AsConstraint(RangeConstraints(t, i))
    requires j < |t| - 1 && Acts(Remove(t, i)[j], true, b)
    ensures ColourBefore(Remove(t, i), j, b)
  {
    var u := Remove(t, i);
    var old_j := if j < i then j else j + 1;
    RemoveKeeps(t, i, old_j);
    DeletableNotSoleCover(t, i, b);
    var k := OtherColourBefore(t, i, old_j, b);
    RemoveKeeps(t, i, k);
    var k' := if k < i then k else k - 1;
    assert k' < j && Acts(u[k'], false, b);
  }

  /** Deleting a layer that may be deleted keeps a valid configuration valid. */
  lemma {:induction false} DeleteKeepsValid(t: seq<Layer>, i: nat)
    requires ValidConfig(t) && HasPlacedConstraints(t) && i < |t| && CanDelete(t[i])
    ensures ValidConfig(Remove(t, i))
  {
    LoneLayerHeld(t, i);
    var u := Remove(t, i);
    forall j, b | 0 <= j < |u| && Acts(u[j], true, b)
      ensures ColourBefore(u, j, b)
    {
      RemovedListCovers(t, i, j, b);
    }
    FirstLayerRuleImplied(u);
  }

  /**
   * Dropping a layer into a slot its corrected position constraint allows
   * keeps a valid configuration valid.
   */
  lemma {:induction false} MoveKeepsValid(t: seq<Layer>, take: nat, p: nat)
    requires ValidConfig(t) && HasPlacedConstraints(t)
    requires take < |t| && p <= |t| && p != take && PositionAllowed(t[take], p)
    ensures SlotDest(take, p) < |t|
    ensures ValidConfig(Reorder(t, take, SlotDest(take, p)))
  {
    var d := SlotDest(take, p);
    var u := Reorder(t, take, d);
    forall m', b | 0 <= m' < |u| && Acts(u[m'], true, b)
      ensures ColourBefore(u, m', b)
    {
      MovedShadeCovered(t, take, p, m', b);
    }
    FirstLayerRuleImplied(u);
  }

  /** After the move, a shading layer still has a colour layer on its side before it. */
  lemma MovedShadeCovered(t: seq<Layer>, take: nat, p: nat, m': nat, b: bool)
    requires ValidConfig(t) && HasPlacedConstraints(t)
    requires take < |t| && p <= |t| && p != take && PositionAllowed(t[take], p)
    requires m' < |t| && Acts(Reorder(t, take, SlotDest(take, p))[m'], true, b)
    ensures ColourBefore(Reorder(t, take, SlotDest(take, p)), m', b)
  {
    var d := SlotDest(take, p);
    var u := Reorder(t, take, d);
    PositionConstraintAllows(t, take, p);
    ReorderFrom(t, take, d, m');
    var m := OldIndex(take, d, m');
    CoverOf(t, m, b);
    var fc := FirstColour(t, b).value;
    assert FirstShade(t, b).value <= m;
    var j: nat;
    if m == take {
      SlotOrder(take, p, |t|, fc);
      ReorderAt(t, take, d, fc);
      j := NewIndex(take, d, fc);
    } else if fc == take {
      assert LeadsSide(t, take, b);
      SlotOrder(take, p, |t|, m);
      ReorderAt(t, take, d, fc);
      j := d;
    } else {
      ReorderAt(t, take, d, fc);
      ReorderOrder(take, d, fc, m);
      j := NewIndex(take, d, fc);
    }
    assert j < m' && Acts(u[j], false, b);
  }

  // ---------------------------------------------------------------
  // placement depends on types and ranges only
  // ---------------------------------------------------------------

  lemma {:induction false} FirstFromSameShape(s: seq<Layer>, t: seq<Layer>, shade: bool, b: bool, k: nat)
    requires SameShape(s, t)
    decreases |s| - k
    ensures FirstFrom(s, shade, b, k) == FirstFrom(t, shade, b, k)
  {
    if k < |s| {
      assert Acts(s[k], shade, b) == Acts(t[k], shade, b);
      FirstFromSameShape(s, t, shade, b, k + 1);
    }
  }

  lemma {:induction false} ColoursBelowSameShape(s: seq<Layer>, t: seq<Layer>, b: bool, n: nat)
    requires SameShape(s, t) && n <= |s|
    ensures ColoursBelow(s, b, n) == ColoursBelow(t, b, n)
  {
    if n > 0 {
      assert Acts(s[n - 1], false, b) == Acts(t[n - 1], false, b);
      ColoursBelowSameShape(s, t, b, n - 1);
    }
  }

  lemma SoleCoverSameShape(s: seq<Layer>, t: seq<Layer>, b: bool)
    requires SameShape(s, t)
    ensures SoleCover(s, b) == SoleCover(t, b)
  {
    FirstFromSameShape(s, t, true, b, 0);
    FirstFromSameShape(s, t, false, b, 0);
    if FirstShade(s, b).Some? {
      ColoursBelowSameShape(s, t, b, FirstShade(s, b).value);
    }
  }

  /** Lists with the same types and ranges receive the same constraints. */
  lemma PlacementDependsOnShape(s: seq<Layer>, t: seq<Layer>, i: nat)
    requires SameShape(s, t) && ShadesCovered(s) && i < |s|
    ensures ShadesCovered(t)
    ensures RangeConstraints(s, i) == RangeConstraints(t, i)
    ensures PositionConstraint(s, i) == PositionConstraint(t, i)
  {
    SameShapeValid(s, t);
    RangeConstraintsSameShape(s, t, i);
    PositionConstraintSameShape(s, t, i);
  }

  lemma RangeConstraintsSameShape(s: seq<Layer>, t: seq<Layer>, i: nat)
    requires SameShape(s, t) && i < |s|
    ensures RangeConstraints(s, i) == RangeConstraints(t, i)
  {
    SoleCoverSameShape(s, t, true);
    SoleCoverSameShape(s, t, false);
    ColoursBelowSameShape(s, t, true, i);
    ColoursBelowSameShape(s, t, false, i);
    assert Acts(s[i], true, true) == Acts(t[i], true, true);
    assert Acts(s[i], true, false) == Acts(t[i], true, false);
    assert ShadeHolds(s, i) == ShadeHolds(t, i);
    if |s| == 1 {
      assert s[0].range == t[0].range;
    } else {
      assert SoleCover(s, true) == SoleCover(t, true) && SoleCover(s, false) == SoleCover(t, false);
    }
  }

  lemma PositionConstraintSameShape(s: seq<Layer>, t: seq<Layer>, i: nat)
    requires SameShape(s, t) && ShadesCovered(s) && ShadesCovered(t) && i < |s|
    ensures PositionConstraint(s, i) == PositionConstraint(t, i)
  {
    SideBoundsSameShape(s, t, i, true);
    SideBoundsSameShape(s, t, i, false);
  }

  lemma SideBoundsSameShape(s: seq<Layer>, t: seq<Layer>, i: nat, b: bool)
    requires SameShape(s, t) && ShadesCovered(s) && ShadesCovered(t) && i < |s|
    ensures Acts(s[i], true, b) == Acts(t[i], true, b)
    ensures LeadsSide(s, i, b) == LeadsSide(t, i, b)
    ensures FirstShade(s, b).Some? ==> UpToFirstShade(s, b) == UpToFirstShade(t, b)
    ensures Acts(s[i], true, b) ==> AfterFirstColour(s, i, b) == AfterFirstColour(t, i, b)
  {
    FirstFromSameShape(s, t, true, b, 0);
    FirstFromSameShape(s, t, false, b, 0);
  }

  // ---------------------------------------------------------------
  // inputs on which the source's placement lets the list become invalid
  // ---------------------------------------------------------------

  function Plain(t: LayerType, r: LayerRange): Layer
  {
    NewLayer(t, r, 1.0)
  }

  /**
   * [Colour OutSet, Shading OutSet]: the shading layer is held to the
   * out-set side, yet the source's range check lets it become InSet, which
   * leaves it uncovered.  The corrected check refuses.
   */
  lemma ShadingLeavesHeldSide()
    ensures var s := [Plain(Colour, OutSet), Plain(Shading, OutSet)];
      ValidConfig(s) &&
      RangeConstraintsAsWritten(s, 1) == [OutSet] &&
      RangeAllowedAsWritten(s[1].(rangeConstraints := Some([OutSet])), InSet) &&
      !ValidConfig(s[1 := s[1].(range := InSet)]) &&
      !RangeAllowed(s[1].(rangeConstraints := Some([OutSet])), InSet)
  {
    var s := [Plain(Colour, OutSet), Plain(Shading, OutSet)];
    assert Acts(s[0], false, false) && Acts(s[1], true, false);
    assert ColourBefore(s, 1, false);
    assert FirstShade(s, true) == None;
    assert FirstShade(s, false) == Some(1);
    assert ColoursBelow(s, false, 1) == 1;
    assert FirstColour(s, false) == Some(0);
    assert ColoursBelow(s, true, 2) == 0;
    assert [OutSet][0].Applies(false);
    var u := s[1 := s[1].(range := InSet)];
    assert Acts(u[1], true, true) && !ColourBefore(u, 1, true);
  }

  /**
   * [Colour OutSet, Shading OutSet, Colour InSet]: an in-set colour layer
   * exists, but only after the shading layer, so the source places no
   * range constraint on the shading layer and switching it to InSet leaves
   * it uncovered.  The corrected rule holds it to the out-set side.
   */
  lemma ShadingUnheldBeforeColour()
    ensures var s := [Plain(Colour, OutSet), Plain(Shading, OutSet), Plain(Colour, InSet)];
      ValidConfig(s) &&
      RangeConstraintsAsWritten(s, 1) == [] &&
      !ValidConfig(s[1 := s[1].(range := InSet)]) &&
      RangeConstraints(s, 1) == [OutSet]
  {
    var s := [Plain(Colour, OutSet), Plain(Shading, OutSet), Plain(Colour, InSet)];
    assert Acts(s[0], false, false) && Acts(s[2], false, true);
    assert ColourBefore(s, 1, false);
    assert FirstShade(s, true) == None;
    assert FirstShade(s, false) == Some(1);
    assert ColoursBelow(s, false, 1) == 1;
    assert FirstColour(s, false) == Some(0);
    assert ColoursBelow(s, true, 3) == 1;
    assert ColoursBelow(s, false, 3) == 1;
    assert ColoursBelow(s, true, 1) == 0;
    var u := s[1 := s[1].(range := InSet)];
    assert Acts(u[1], true, true) && !ColourBefore(u, 1, true);
  }

  /**
   * [Colour OutSet, Colour InSet, Shading Both]: the source keeps only the
   * out-set bound of the shading layer, slots 1 to 3, so it may be dropped
   * at slot 1, in front of the only in-set colour layer.  The corrected
   * bound starts at slot 2.
   */
  lemma ShadingMovesBeforeCover()
    ensures var s := [Plain(Colour, OutSet), Plain(Colour, InSet), Plain(Shading, Both)];
      ValidConfig(s) &&
      PositionConstraintAsWritten(s, 2) == Some(PositionRange(1, 4)) &&
      SlotDest(2, 1) == 1 &&
      !ValidConfig(Reorder(s, 2, 1)) &&
      PositionConstraint(s, 2) == Some(PositionRange(2, 4))
  {
    var s := [Plain(Colour, OutSet), Plain(Colour, InSet), Plain(Shading, Both)];
    assert Acts(s[0], false, false) && Acts(s[1], false, true);
    assert ColourBefore(s, 2, false) && ColourBefore(s, 2, true);
    assert FirstColour(s, false) == Some(0);
    assert FirstColour(s, true) == Some(1);
    var u := Reorder(s, 2, 1);
    assert u == [s[0], s[2], s[1]];
    assert Acts(u[1], true, true) && !ColourBefore(u, 1, true);
  }

  /**
   * [Colour Both, Shading InSet, Shading OutSet]: the colour layer leads
   * both sides, and the source keeps only its out-set bound, slots 0 to 2,
   * so it may be dropped at slot 2, which puts a shading layer first.  The
   * corrected bound ends at slot 1.
   */
  lemma ColourMovesAfterShade()
    ensures var s := [Plain(Colour, Both), Plain(Shading, InSet), Plain(Shading, OutSet)];
      ValidConfig(s) &&
      PositionConstraintAsWritten(s, 0) == Some(PositionRange(0, 3)) &&
      SlotDest(0, 2) == 1 &&
      !ValidConfig(Reorder(s, 0, 1)) &&
      PositionConstraint(s, 0) == Some(PositionRange(0, 2))
  {
    var s := [Plain(Colour, Both), Plain(Shading, InSet), Plain(Shading, OutSet)];
    assert Acts(s[0], false, false) && Acts(s[0], false, true);
    assert ColourBefore(s, 1, true) && ColourBefore(s, 2, false);
    assert FirstColour(s, false) == Some(0);
    assert FirstColour(s, true) == Some(0);
    assert FirstShade(s, true) == Some(1);
    assert FirstShade(s, false) == Some(2);
    var u := Reorder(s, 0, 1);
    assert u == [s[1], s[0], s[2]];
  }
}
