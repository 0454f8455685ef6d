# Mandelbrot viewer core, modelled in Dafny

This project models the logic of a Rust Mandelbrot-set viewer and of its gallery web page, with the drawing taken out.

- **Colouring layers** (`src/layers.rs`). An image is coloured by a stack of layers. A layer applies inside the set, outside it, or both. A shading layer must sit above a colour layer that covers its part of the set. The stack checks this rule (`valid_layers`) and places range and position constraints on each layer so that the user cannot break it. It supports adding, reordering, deleting and retyping layers, with rollback. It also shares per-layer implementors through an index map.
- **Palettes** (`src/palettes.rs`). A palette is a list of colour points at percentages. A sorted copy with a wrap-around point at each end drives the colouring. Points can be moved, added in the widest gap and deleted down to two. There are setters that report whether anything changed, a palette cache with one colour per iteration, and the text export of a palette.
- **Render bookkeeping** (`src/lib.rs`):
  - preset screen sizes and their names;
  - the split of the image into one band of rows per thread, and of each band into square blocks of `quality` pixels;
  - the viewer's quality and arbitrary-precision state;
  - the maximum-iteration steps;
  - orbit-trap getters, setters and equality.
- **Complex numbers** (`src/complex.rs`). This covers factorial and binomial coefficients, on unbounded naturals and on `u32` with wrap-around. It also covers the change between double and arbitrary precision, and the algebra of `square`, `conjugate`, `mul` and the binomial `pow`, over exact reals.
- **Menu logic** (`src/menu.rs`):
  - page states and navbar buttons;
  - the text box's cursor, editing and scrolling;
  - the carousel and the drop-down;
  - screenshot resolutions;
  - dropping a dragged layer into a new slot, where the swap loop over the layer managers must reproduce the stack's reorder.
- **Gallery panel** (`docs/js/galleryscript.js`). This is the three-variable state of the sliding information panel: panel index, direction and position.

Code that changes state in place is modelled as classes with `modifies` frames, and loops become methods with invariants. Each method's contract gives its result and the new values of the fields it changes in terms of specification functions of the old state, and the properties of those functions are proved as lemmas. Floating-point values are modelled as exact `real`s. Keyboard, mouse, clock and text-measurement results are method parameters.

Where the code and its prose description disagree, the model follows the code. The gallery's position starts at 0, outside the range [2, 50]. The bound holds only from the first `display_info` on (`Gallery.Page.constructor` and the invariant `Gallery.Page.Valid`).

Modules, one per file:

| file | module | models |
|---|---|---|
| `wrappers.dfy` | `Wrappers` | `Option` and `Result` |
| `strings.dfy` | `Strings` | decimal rendering of naturals |
| `complex.dfy` | `Complex` | `src/complex.rs` |
| `orbit_trap.dfy` | `OrbitTrap` | the `orbit_trap` module of `src/lib.rs` |
| `layer_rules.dfy` | `LayerRules` | value-level layer rules of `src/layers.rs` |
| `layer_order.dfy` | `LayerOrder` | remove, insert and reorder on lists |
| `layer_constraints.dfy` | `LayerConstraints` | constraint placement rules of `src/layers.rs` |
| `layers.dfy` | `LayerStack` | the `Layers` object of `src/layers.rs` |
| `palettes.dfy` | `Palettes` | `src/palettes.rs` |
| `render.dfy` | `Render` | screen sizes and thread/block split of `src/lib.rs` |
| `visualiser.dfy` | `Viewer` | the `Visualiser` state of `src/lib.rs` |
| `menu.dfy` | `Menu` | `src/menu.rs` |
| `gallery.dfy` | `Gallery` | `docs/js/galleryscript.js` |

## Model

| member | source | states |
|---|---|---|
| Complex.Factorial | src/complex.rs:12-18 | the loop multiplying 2..n leaves exactly n! (over unbounded naturals) |
| Complex.BinomialFactorials | src/complex.rs:20-25 | C(n,r) * r! * (n-r)! == n!, the identity that makes choose's closed-form division exact |
| Complex.ClosedForm | src/complex.rs:24 | C(n,r) times choose's divisor r!(n-r)! is n! |
| Complex.Choose | src/complex.rs:20-25 | for n >= r (the source's assert), choose returns the binomial coefficient C(n,r) by all three of its branches |
| Complex.BinomialAbove | src/complex.rs:20-21 | C(n,r) is 0 for r > n, the case choose's assert refuses |
| Complex.BinomialDiagonal | src/complex.rs:22 | C(n,n) == 1, the r == n branch |
| Complex.BinomialNextToEdge | src/complex.rs:23 | C(n,1) == C(n,n-1) == n, the second shortcut branch |
| Complex.FactU32 | src/complex.rs:12-18 | factorial with u32 multiplication wrapping at 2^32 stays below 2^32 |
| Complex.FactU32Exact | src/complex.rs:12-18 | while n! < 2^32 the wrapping factorial equals n! |
| Complex.FactBelowLimit | src/complex.rs:12-18 | 12! < 2^32, so the u32 factorial is exact up to n = 12 |
| Complex.ClosedFormDivisor | src/complex.rs:24 | while n! fits in u32, so does the divisor r!(n-r)! |
| Complex.ChooseU32 | src/complex.rs:20-25 | choose as written on u32 in a release build: 1 at the edges, n next to them, and a panic (None) exactly when the wrapped divisor r!(n-r)! is 0 |
| Complex.ChooseU32Exact | src/complex.rs:20-25 | for n <= 12 the u32 choose equals the binomial coefficient |
| Complex.ChooseU32Overflow | src/complex.rs:20-25 | choose(13, 2) computes 24 on u32 where C(13,2) is 78 |
| Complex.ChooseU32DivByZero | src/complex.rs:20-25 | 20! * 20! wraps to 0 on u32, so choose(40, 20) divides by zero and pow(z, 40) panics |
| Complex.Pow | src/complex.rs:300-315 | (corrected: exact binomial coefficients) the loop summing C(n,i) im^(n-i) re^i, rotated by (n-i) % 4 quarter turns, returns z^n for every n |
| Complex.PowAsWritten | src/complex.rs:300-315 | pow with the u32 choose: it panics (None) exactly when some coefficient's divisor wraps to 0, otherwise returns the sum of the wrapped-coefficient terms, and for n <= 12 returns z^n |
| Complex.PowSumU32Exact | src/complex.rs:300-315 | for n <= 12 no u32 coefficient panics and the wrapped-coefficient partial sums equal the exact ones |
| Complex.PanicAbove12 | src/complex.rs:300-315 | a coefficient panic inside pow's loop means the u32 coefficients are not all defined, and it only happens for n > 12 |
| Complex.AddTerm | src/complex.rs:305-311 | the match on b_pow % 4 adds the coefficient to re, im, -re or -im: i.e. adds the term turned by q quarter turns |
| Complex.PowSumStep | src/complex.rs:302-312 | one loop turn extends the partial sum by the i-th term |
| Complex.RotateIsScaledPower | src/complex.rs:305-311 | the four match arms are multiplication by i^k |
| Complex.QuarterIsMod | src/complex.rs:305 | the quarter-turn count is k % 4 |
| Complex.CoefficientIs | src/complex.rs:304 | the coefficient is C(n,i) * im^(n-i) * re^i |
| Complex.BinomialSum | src/complex.rs:300-315 | the binomial sum of (a+b)^n over all n+1 terms is (a+b)^n |
| Complex.PowSumIsBSum | src/complex.rs:300-315 | pow's partial sum is the binomial sum of re + i*im |
| Complex.PowTermIsBTerm | src/complex.rs:304-311 | each rotated coefficient is the binomial term C(n,i) re^i (i*im)^(n-i) |
| Complex.BinomialTheorem | src/complex.rs:300-315 | pow's full sum equals repeated multiplication z^n |
| Complex.ScaleIsMul | src/complex.rs:399-408 | multiplying by an f64 is multiplying by that number on the real axis |
| Complex.SubAdd | src/complex.rs:369-388 | subtraction and addition undo each other |
| Complex.ConjugateInvolution | src/complex.rs:339-344 | conjugating twice is the identity; z is its own conjugate iff it is real |
| Complex.ConjugateProduct | src/complex.rs:335-344 | z times its conjugate is the real abs_squared(z) |
| Complex.Distance2Symmetric | src/complex.rs:351-356 | distance2_to is symmetric and zero from a number to itself |
| Complex.SquareIsMul | src/complex.rs:328-333 | square equals z * z as mul computes it (complex.rs:389-398) |
| Complex.DivMul | src/complex.rs:409-420 | for a non-zero divisor, (a / b) * b == a |
| Complex.MulAssoc | src/complex.rs:389-398 | the product is associative |
| Complex.MulComm | src/complex.rs:389-398 | the product is commutative |
| Complex.MulAddLeft | src/complex.rs:369-398 | the product distributes over the sum, on the left |
| Complex.MulAddRight | src/complex.rs:369-398 | the product distributes over the sum, on the right |
| Complex.SquareExample | src/complex.rs:739-742 | (1+2i)^2 == -3+4i, the square test |
| Complex.PowExample | src/complex.rs:759-765 | (2-5i)^3 == -142+65i, the power test |
| Complex.TimesExample | src/complex.rs:767-775 | (3+5i)(2+7i) == -29+31i, the complex_times test |
| Complex.SameType | src/complex.rs:46-51 | the result holds the given value, in the precision of the other number |
| Complex.MakeBig | src/complex.rs:125-130 | the result is the big precision and keeps the value |
| Complex.MakeDouble | src/complex.rs:133-138 | the result is the double precision and keeps the value |
| Complex.PrecisionRoundTrip | src/complex.rs:125-138 | make_big then make_double (and the reverse) returns the number unchanged |
| Gallery.Slide | docs/js/galleryscript.js:53-62 | one frame moves the panel 4% in its direction and clamps it at 2% (left) or 50% (right), so a panel inside [2, 50] stays inside |
| Gallery.SlideLeftClosedForm | docs/js/galleryscript.js:53-58 | after k frames a panel opened at 50% is at max(2, 50 - 4k) |
| Gallery.SlideRightClosedForm | docs/js/galleryscript.js:53-62 | after k frames a panel opened at 2% is at min(50, 2 + 4k) |
| Gallery.SlideSettles | docs/js/galleryscript.js:53-62 | either slide reaches its end after exactly 12 frames, not 11 |
| Gallery.Page.constructor | docs/js/galleryscript.js:1-3 | the page starts with no panel open, moving left, at x = 0 |
| Gallery.Page.DisplayInfo | docs/js/galleryscript.js:7-36 | the panel opens: even panels start at 50% moving left, odd ones at 2% moving right |
| Gallery.Page.CloseInfo | docs/js/galleryscript.js:38-46 | the panel closes (index -1); position and direction are kept |
| Gallery.Page.Tick | docs/js/galleryscript.js:48-64 | with no panel open nothing moves; otherwise x and style.left become Slide(x, direction) |
| OrbitTrap.NewPoint | src/lib.rs:143-149 | a new point trap holds the given centre in both copies and the given analysis |
| OrbitTrap.SetAnalysis | src/lib.rs:379-385 | the analysis is replaced; the variant, both centres, a cross's arm length and a circle's radius are kept |
| OrbitTrap.SetCenterReAsWritten | src/lib.rs:394-400 | set_center_re as written: the f64 centre's real part changes; the big centre, the analysis, the arm length and the radius do not |
| OrbitTrap.SetCenterRe | src/lib.rs:394-400 | corrected setter: the real part changes in both copies, which stay in step; the imaginary parts, the analysis, the arm length and the radius are kept |
| OrbitTrap.SetCenterImAsWritten | src/lib.rs:408-414 | set_center_im as written: the f64 centre's imaginary part changes; the big centre, the analysis, the arm length and the radius do not |
| OrbitTrap.SetCenterIm | src/lib.rs:408-414 | corrected setter: the imaginary part changes in both copies, which stay in step; the real parts, the analysis, the arm length and the radius are kept |
| OrbitTrap.SyncedDistancesAgree | src/lib.rs:166-179 | when both copies agree, distance2_double and distance2_big give the same value |
| OrbitTrap.StaleBigCentre | src/lib.rs:394-400 | after set_center_re(1.0) on the default point, the double distance to 0 is 1 but the big one is 0 |
| OrbitTrap.CorrectedSetterKeepsDistances | src/lib.rs:394-414 | after the corrected setters both distances agree again |
| OrbitTrap.SameVariantEquivalence | src/lib.rs:433-453 | PartialEq on trap types is an equivalence that compares only the variant |
| OrbitTrap.EqualityIgnoresCentre | src/lib.rs:433-453 | two point traps with different centres and analyses compare equal |
| Strings.DigitRoundTrip | src/lib.rs:491 | a decimal digit reads back as itself |
| Strings.NatToString | src/lib.rs:491 | the decimal form is non-empty, all digits and has no leading zero |
| Strings.NatStringRoundTrip | src/lib.rs:491 | parsing a number's decimal form gives the number back |
| Strings.NatStringInjective | src/lib.rs:491 | different numbers have different decimal forms |
| Render.SizeString | src/lib.rs:491 | "{x}x{y}" contains the 'x' separator |
| Render.SizeStringSplits | src/lib.rs:491 | "{x}x{y}" splits at its 'x' into the two decimal numbers |
| Render.AsString | src/lib.rs:490-498 | the three presets are named 1080p, 4k and 8k; any other size is "{x}x{y}" |
| Render.AsStringInjective | src/lib.rs:490-498 | different dimensions have different names |
| Render.Split | src/lib.rs:612-618 | the ThreadSplitter divides the width and the thread height into whole blocks plus an excess below quality |
| Render.BlockIndex | src/lib.rs:704-720 | a pixel inside block b of a row or column is in block c / quality == b |
| Render.SetPixels | src/lib.rs:704-722 | exactly the block at (x, y) (narrowed to the excess on the last column or row) is painted with the block's colour; progress grows by its area |
| Render.PaintPixelColumn | src/lib.rs:712-720 | the inner loop paints one column of the block and nothing else |
| Render.RenderColumn | src/lib.rs:704-722 | the y loop paints one column of blocks down the whole thread band, each with its own colour, and reports its area |
| Render.RowsStep | src/lib.rs:612-618 | block y starts at row y * quality and the blocks stack to the band's height |
| Render.ColsStep | src/lib.rs:612-618 | block x starts at column x * quality and the blocks stack to the full width |
| Render.RenderThread | src/lib.rs:627-641 | a thread paints every pixel of its band, each with the colour of the block it falls in, nothing outside it, and counts width * thread_height pixels |
| Render.BandsPartition | src/lib.rs:1001-1007 | the twelve bands t * thread_height .. (t+1) * thread_height are disjoint and cover every row below 12 * thread_height |
| Render.BandOfRow | src/lib.rs:1001-1007 | row r lies in band r / thread_height |
| Render.ThreadsCover | src/lib.rs:1001-1007 | the threads together paint all but the last y % 12 rows, fewer than 12 |
| LayerRules.RangeSides | src/layers.rs:882-888 | every range applies to at least one side; it applies to both iff it is Both, otherwise to exactly its own side |
| LayerRules.CoveredMeansEverySide | src/layers.rs:891-897 | layer_covered holds iff every side the range applies to is already covered |
| LayerRules.LayerTypeKinds | src/layers.rs:151-169 | shading_layer and is_orbit_trap pick out the right variants; LayerType equality compares variants only, is an equivalence and keeps both classifications |
| LayerRules.NewLayer | src/layers.rs:932-944 | a new layer has the given type, range and strength, no constraints and the name "Layer", so it can be deleted and change to any type |
| LayerRules.ColourBeforeStep | src/layers.rs:634-649 | valid_layers' non_shade_in_set / non_shade_out_set flags after layer i are the flags before it or'd with whether layer i is a colour layer acting on that side |
| LayerRules.SameShapeValid | src/layers.rs:615-653 | validity depends only on each layer's kind and range, not its name, constraints, strength or trap |
| LayerRules.FirstLayerRuleImplied | src/layers.rs:624-631 | once every shading layer is covered by an earlier colour layer, the "first layer can't be a shading layer" check can never fail on a non-empty list |
| LayerRules.FirstFrom | src/layers.rs:740-764 | the first index from k whose layer is a shading (or colour) layer acting on the given side, or None when there is none |
| LayerRules.ColourBeforeFirst | src/layers.rs:634-649 | a colour layer acts on a side before j iff the first such layer is before j |
| LayerRules.CoveredByFirsts | src/layers.rs:634-649 | valid_layers' coverage loop succeeds iff, on each side, the first colour layer comes before the first shading layer |
| LayerRules.RangeAllowed | src/layers.rs:965-995 | corrected range_allowed: no constraints allows anything; otherwise the new range must still cover every constrained side, a constrained shading layer may not spread to an unconstrained side, and constraints on both sides allow only Both |
| LayerRules.RangeAllowedAsWrittenLeavesSide | src/layers.rs:986-988 | as written, a shading layer held to OutSet is allowed to switch to InSet, leaving the side it must stay on |
| LayerRules.ChangeRange | src/layers.rs:1022-1026 | (corrected: RangeAllowed) change_range changes only the range, and sets it exactly when the new range is allowed |
| LayerRules.PositionAllowed | src/layers.rs:997-1002 | with no constraint any position is allowed; otherwise exactly those in start..end |
| LayerRules.CanDelete | src/layers.rs:1004-1006 | a layer can be deleted iff it has no range constraint or is a shading layer |
| LayerRules.CanChangeType | src/layers.rs:1008-1014 | a type change is refused iff a constrained colour layer would become a shading layer |
| LayerRules.ChangeStrength | src/layers.rs:1016-1020 | the strength becomes the new value, the result says whether it differed, and nothing else changes |
| LayerRules.ChangeStrengthIdempotent | src/layers.rs:1016-1020 | setting the same strength again reports no change and leaves the layer as it is |
| LayerRules.ColourImplementors | src/layers.rs:1070-1083 | a layer that does not apply to the side passes the colour through; one that applies always yields a colour |
| LayerOrder.Remove | src/layers.rs:806-810 | Vec::remove: one shorter, the elements before i kept, the ones after shifted down by one |
| LayerOrder.Insert | src/layers.rs:798-804 | Vec::insert: one longer, x at i, the elements before kept and the ones after shifted up by one |
| LayerOrder.RemoveKeeps | src/layers.rs:806-810 | every other element survives a removal at its shifted index |
| LayerOrder.RemoveMultiset | src/layers.rs:806-810 | removing at i loses exactly the element at i |
| LayerOrder.InsertMultiset | src/layers.rs:798-804 | inserting adds exactly the inserted element |
| LayerOrder.InsertRemoveInverse | src/layers.rs:798-810 | removing what was inserted gives the list back, and re-inserting what was removed too |
| LayerOrder.Reorder | src/layers.rs:798-804 | reorder_layer keeps the length and puts the taken layer at dest |
| LayerOrder.ReorderAt | src/layers.rs:798-804 | element a of the old list is found at its new index |
| LayerOrder.ReorderFrom | src/layers.rs:798-804 | element k of the new list comes from its old index |
| LayerOrder.ReorderOrder | src/layers.rs:798-804 | the layers that were not moved keep their relative order |
| LayerOrder.ReorderIndices | src/layers.rs:798-804 | the old-to-new index map is a bijection with the reordered list, and it is monotone on the layers not moved |
| LayerOrder.ReorderPermutation | src/layers.rs:798-804 | a reorder is a permutation of the layers |
| LayerOrder.ReorderInverse | src/layers.rs:798-804 | moving the layer back from dest to take restores the list |
| LayerOrder.SlotOrder | src/menu.rs:3257-3268 | the destination computed from the slot the layer was dropped at lies in the list, and the other layers end up before it exactly when they were above the slot |
| LayerConstraints.NoColoursBelow | src/layers.rs:661-675 | get_colours_before_first_shade counts zero colour layers below n iff no colour layer acts on the side before n |
| LayerConstraints.SingleColourBelow | src/layers.rs:661-675 | when exactly one colour layer is counted below the first shading layer, the one found is the first colour layer of the side |
| LayerConstraints.ColoursBelowSplit | src/layers.rs:661-675 | two colour layers on a side below n make the count at least 2 |
| LayerConstraints.OnlyColourBelow | src/layers.rs:661-675 | a single colour layer on a side below n makes the count exactly 1 |
| LayerConstraints.SoleCover | src/layers.rs:714-727 | the layer held by the second pass is a colour layer acting on the side and lies before that side's first shading layer |
| LayerConstraints.SetRangeConstraint | src/layers.rs:946-953 | set_range_constraint appends the constraint to the list, creating it when there is none |
| LayerConstraints.ExtendTwice | src/layers.rs:946-953 | pushing two lists of constraints in turn is pushing their concatenation |
| LayerConstraints.Narrow | src/layers.rs:955-957 | corrected set_position_constraint: the new range admits exactly the slots in both the new and the earlier bound |
| LayerConstraints.SetPositionConstraint | src/layers.rs:955-957 | corrected: after the call the constraint is set and admits exactly the slots both bounds admit |
| LayerConstraints.NarrowTwice | src/layers.rs:955-957 | narrowing by two bounds in turn is narrowing once by their intersection |
| LayerConstraints.CoverOf | src/layers.rs:634-649 | in a valid list a shading layer acting on a side has a first colour layer of that side before it, so the unwrap at layers.rs:745 and 751 succeeds |
| LayerConstraints.PositionConstraintAllows | src/layers.rs:732-775 | the corrected position constraint admits, for a shading layer, exactly the slots after the first colour layer of every side it acts on; for a colour layer leading a side, exactly the slots up to that side's first shading layer |
| LayerConstraints.ShadeConstraintSides | src/layers.rs:695-702 | (corrected) a range constraint held by a shading layer is a side the layer acts on; a shading layer without one has colour layers before it on both sides |
| LayerConstraints.SoleCoverConstrained | src/layers.rs:714-727 | the lone colour layer under a side's first shading layer is held to that side |
| LayerConstraints.OtherColourBefore | src/layers.rs:634-649 | a shading layer not solely covered by layer i has another colour layer before it on that side |
| LayerConstraints.ChangedListCovers | src/layers.rs:1022-1026 | after an allowed range change every shading layer other than the changed one stays covered |
| LayerConstraints.ChangedSelfCovered | src/layers.rs:1022-1026 | after an allowed range change the changed layer, if shading, is still covered on each side it acts on |
| LayerConstraints.ChangedSoleCoverStays | src/layers.rs:1022-1026 | a sole cover can change its range only in a way that keeps covering its side |
| LayerConstraints.ChangeRangeKeepsValid | src/layers.rs:965-995 | with the corrected constraints placed, every range change that range_allowed lets through keeps the layer list valid |
| LayerConstraints.LoneLayerHeld | src/layers.rs:1004-1006 | the only layer of a one-layer list can never be deleted |
| LayerConstraints.DeletableNotSoleCover | src/layers.rs:1004-1006 | a layer that can_delete allows is never the sole cover of a side |
| LayerConstraints.RemovedListCovers | src/layers.rs:806-810 | after deleting a deletable layer every shading layer stays covered |
| LayerConstraints.DeleteKeepsValid | src/layers.rs:806-810 | deleting any layer that can_delete allows keeps the list valid |
| LayerConstraints.MovedShadeCovered | src/layers.rs:997-1002 | after a move the position constraint allows, each shading layer is still covered on its sides |
| LayerConstraints.MoveKeepsValid | src/layers.rs:997-1002 | with the corrected constraints placed, every move that position_allowed admits gives a valid list |
| LayerConstraints.FirstFromSameShape | src/layers.rs:703-712 | the first-layer search sees only kinds and ranges |
| LayerConstraints.ColoursBelowSameShape | src/layers.rs:661-675 | the colour count sees only kinds and ranges |
| LayerConstraints.SoleCoverSameShape | src/layers.rs:714-727 | the sole cover of a side sees only kinds and ranges |
| LayerConstraints.PlacementDependsOnShape | src/layers.rs:777-782 | place_constraints gives the same constraints to two lists that differ only in names, constraints, strengths and traps |
| LayerConstraints.RangeConstraintsSameShape | src/layers.rs:677-730 | range constraints see only kinds and ranges |
| LayerConstraints.PositionConstraintSameShape | src/layers.rs:732-775 | position constraints see only kinds and ranges |
| LayerConstraints.SideBoundsSameShape | src/layers.rs:732-775 | each bound place_position_constraints uses sees only kinds and ranges |
| LayerConstraints.ShadingLeavesHeldSide | src/layers.rs:986-988 | [Colour OutSet, Shading OutSet] is valid; as written the shading layer is held to OutSet yet allowed to become InSet, which makes the list invalid; the corrected check refuses it |
| LayerConstraints.ShadingUnheldBeforeColour | src/layers.rs:695-702 | in [Colour OutSet, Shading OutSet, Colour InSet] the shading layer gets no constraint as written, so it can turn InSet and break validity; the corrected rule holds it to OutSet |
| LayerConstraints.ShadingMovesBeforeCover | src/layers.rs:744-754 | in [Colour OutSet, Colour InSet, Shading Both] the in-set bound is overwritten by the out-set one, so moving the shading layer to slot 1 is allowed and breaks validity; corrected the bound is slots 2..4 |
| LayerConstraints.ColourMovesAfterShade | src/layers.rs:765-774 | in [Colour Both, Shading InSet, Shading OutSet] the colour layer keeps only the out-set bound 0..3, so moving it after the in-set shading layer is allowed and breaks validity; corrected the bound is 0..2 |
| LayerStack.LayerName | src/layers.rs:604-606 | a layer's name is "Layer " followed by its decimal position |
| LayerStack.LayerNamesDistinct | src/layers.rs:604-606 | layers at different positions get different names |
| LayerStack.MapExisting | src/layers.rs:551-565 | a Colour/Shading or Shading3D layer whose group already has an implementor is mapped to it, and the map stays correct |
| LayerStack.MapFirstOfGroup | src/layers.rs:551-565 | the first layer of a shared group pushes one new implementor and is mapped to it |
| LayerStack.MapOrbitTrap | src/layers.rs:566-569 | an orbit-trap layer always pushes its own implementor holding its trap |
| LayerStack.TracksOtherGroup | src/layers.rs:546-569 | pushing for one group leaves the index remembered for the other group valid |
| LayerStack.MakeImplementors | src/layers.rs:543-573 | every layer is mapped to an implementor of the kind it needs; Colour and Shading layers share one, Shading3D layers share one, each orbit-trap layer has its own, and no implementor is unused |
| LayerStack.ValidLayers | src/layers.rs:615-653 | the three error cases in the source's order (empty list, shading first layer, uncovered shading layer) and Ok(true) otherwise; Ok exactly when the configuration is valid |
| LayerStack.ClearConstraints | src/layers.rs:655-659 | every layer loses both its constraints and nothing else changes |
| LayerStack.GetColoursBeforeFirstShade | src/layers.rs:661-675 | the count is the number of colour layers acting on the side below the first shading layer, and when it is 1 the index returned is that layer |
| LayerStack.HoldShadingLayers | src/layers.rs:695-702 | (corrected) each shading layer gets exactly its hold-to-side pushes and every other field is kept |
| LayerStack.HoldLayer | src/layers.rs:695-702 | one turn of the corrected first pass: the layer gets its pushes and the running colour counts advance past it |
| LayerStack.FindFirstShades | src/layers.rs:704-712 | the loop finds the first shading layer of each side |
| LayerStack.HoldSoleCover | src/layers.rs:714-727 | on one side, the lone colour layer below the first shading layer is held to that side and no other layer changes |
| LayerStack.PlaceRangeConstraints | src/layers.rs:677-730 | (corrected) every layer's range constraints are extended by exactly RangeConstraints(s, i) |
| LayerStack.RangePushesCompose | src/layers.rs:694-727 | the three passes of place_range_constraints together push RangeConstraints(s, i) on every layer |
| LayerStack.BoundShadingLayers | src/layers.rs:732-760 | (corrected) the first loop gives each shading layer its bound after the first colour layer of each side, and finds the first shading layers |
| LayerStack.BoundLayer | src/layers.rs:740-759 | one turn of the first loop: the running first-colour and first-shade indexes advance and the layer gets its bound |
| LayerStack.ShadeBoundSteps | src/layers.rs:749-760 | a shading layer's bound is its in-set bound narrowed by its out-set bound |
| LayerStack.BoundLeadingColour | src/layers.rs:765-774 | the first colour layer of a side with a shading layer is bounded to the slots up to that shading layer; no other layer changes |
| LayerStack.PlacePositionConstraints | src/layers.rs:732-775 | (corrected) every layer's position constraint is narrowed by exactly PositionConstraint(s, i) |
| LayerStack.PositionBoundsCompose | src/layers.rs:732-775 | the three steps of place_position_constraints together narrow by PositionConstraint(s, i) |
| LayerStack.PlaceConstraints | src/layers.rs:777-782 | (corrected) each layer ends with exactly its computed range and position constraints, nothing else changes, and the list has its constraints placed |
| LayerStack.PlacedLayer | src/layers.rs:777-782 | clearing, then range, then position placement leave each layer with its computed constraints |
| LayerStack.PlacedList | src/layers.rs:777-782 | a list carrying its computed constraints has them placed |
| LayerStack.RenamedStaysPlaced | src/layers.rs:603-606 | renaming keeps the placed constraints |
| LayerStack.NameLayers | src/layers.rs:604-606 | each layer is renamed "Layer {i + 1}" and nothing else changes |
| LayerStack.CoveredPixelSafe | src/layers.rs:1034-1047 | in a valid list, every shading layer that applies to a pixel has a colour from an earlier layer, so the unwraps in shading, shading_3d and orbit_trap_shading succeed |
| LayerStack.PixelColour | src/layers.rs:846-853 | after n layers there is a colour exactly when one of them applies to the pixel's side |
| LayerStack.LayerOutputs | src/layers.rs:848 | each layer reads the output of the implementor the map assigns it |
| LayerStack.Layers.constructor | src/layers.rs:597-613 | (corrected: placement) for a valid list (the source panics otherwise): the layers keep their kinds, ranges and strengths, are named by position, carry their placed constraints and have matching implementors |
| LayerStack.Layers.UpdateImplementors | src/layers.rs:784-786 | the implementors are rebuilt for the current layers, which are unchanged |
| LayerStack.Layers.AddLayer | src/layers.rs:788-796 | (corrected: placement) the layer is appended under the name "Layer {n + 1}", the constraints are re-placed, the list stays valid and the other layers keep their names and strengths |
| LayerStack.Layers.ReorderLayer | src/layers.rs:798-804 | the layers are exactly the reordered list and the implementors match them |
| LayerStack.Layers.DeleteLayer | src/layers.rs:806-810 | the layers are exactly the list with that layer removed and the implementors match them |
| LayerStack.Layers.ChangeLayerType | src/layers.rs:812-823 | a refused change leaves everything untouched; an allowed one sets the type only when the result is valid and otherwise restores the old type; a valid list stays valid |
| LayerStack.Layers.ColourPixel | src/layers.rs:837-854 | the pixel is the colour the layers build in order, or BLACK when no layer applies to its side |
| LayerStack.ColourLayers | src/layers.rs:846-853 | the loop over the layers computes PixelColour, and BLACK when no layer applies |
| Palettes.ExportNum | src/palettes.rs:29-34 | the mapping type's export code is one character |
| Palettes.ImportFromNum | src/palettes.rs:36-42 | only '0' and '1' read as a mapping type; any other character is the error the source panics on |
| Palettes.MappingNumRoundTrip | src/palettes.rs:29-42 | import_from_num(export_num(m)) == m, and a character imports as m exactly when it is m's code |
| Palettes.Key | src/palettes.rs:117 | `(percent * 100.) as u32` saturates at 0 and u32::MAX and is the floor in between |
| Palettes.KeyMonotone | src/palettes.rs:117 | a higher percentage never gets a lower sort key |
| Palettes.InsertByKey | src/palettes.rs:117 | one insertion step of the stable sort puts x after the elements whose key is not above its own |
| Palettes.InsertByKeySorted | src/palettes.rs:117 | inserting into a key-sorted list keeps it sorted and adds exactly x |
| Palettes.SortByKeySorted | src/palettes.rs:117 | sort_by_key's result is sorted by key and a permutation of its input |
| Palettes.SortColourMap | src/palettes.rs:115-125 | the sorted map has the points plus two wrap-around points |
| Palettes.SortColourMapShape | src/palettes.rs:115-125 | between the two wrap-around points (the last point moved down by 1, the first moved up by 1) lie the map's points in key order, and remove_extremes recovers them |
| Palettes.RemoveExtremes | src/palettes.rs:355-363 | a two-point map is returned as is; otherwise the first and last points are dropped |
| Palettes.RemoveExtremesRecovers | src/palettes.rs:355-363 | for both a sorted map and the default palette's two points, remove_extremes gives the points in key order |
| Palettes.UniquePointPositions | src/palettes.rs:127-130 | true exactly when no two points share a key |
| Palettes.MoveCanShareKey | src/palettes.rs:184-193 | change_point_percent checks exact percentages, so moving a point to 0.001 next to one at 0.0 is accepted although both then have key 0 |
| Palettes.Clamp | src/palettes.rs:73-75 | valid_percent lies in [0, 1] and is the percentage itself when that is already in range |
| Palettes.MaxGap | src/palettes.rs:199-223 | the widest gap between neighbouring clamped points is at least every gap and, when positive, is one of them |
| Palettes.ChosenUnique | src/palettes.rs:208-217 | the tie-break toward the midpoint 0.5 picks at most one gap |
| Palettes.ChosenInsideGap | src/palettes.rs:199-223 | when the widest gap exceeds MIN_ADD_PERCENT the new point lies strictly inside it, more than half of MIN_ADD_PERCENT from both ends, and strictly between 0 and 1 |
| Palettes.ScanGap | src/palettes.rs:206-217 | one loop turn keeps the running widest gap and its chosen midpoint |
| Palettes.AddPointPercent | src/palettes.rs:199-223 | Some exactly when the widest gap exceeds MIN_ADD_PERCENT, and then the midpoint of the widest gap closest to 0.5 |
| Palettes.FMod | src/palettes.rs:290-304 | f32 `%` on non-negative operands lies in [0, y) and leaves x < y unchanged |
| Palettes.FloorDivBounds | src/palettes.rs:290-304 | the quotient's floor q satisfies q*y <= x < (q+1)*y |
| Palettes.CachePercent | src/palettes.rs:284-311 | the position each iteration reads from the palette lies in [0, 1) for both mapping types, and is 0 when the length is 0 |
| Palettes.Fraction | src/palettes.rs:290-304 | (x % y) / y lies in [0, 1) |
| Palettes.RepeatedPeriod | src/palettes.rs:298-311 | a Repeated palette starts over every 500 * length iterations |
| Palettes.FModShift | src/palettes.rs:304 | adding whole multiples of y does not change x % y |
| Palettes.Find | src/palettes.rs:441 | str::find: None iff the character is absent, otherwise its first index |
| Palettes.ExportMapNoHash | src/palettes.rs:387-399 | when numbers print without '#', the exported colour map holds no '#' |
| Palettes.SecondHashAt | src/palettes.rs:441 | with the second '#' at n + 1, import_from_str reads the mapping type at n + 2 |
| Palettes.ExportedMappingReadsBack | src/palettes.rs:440-453 | import_from_str finds the mapping type of an exported palette at the index it reads and reads back the exported type |
| Palettes.Palette.constructor | src/palettes.rs:104-113 | with the three asserts as preconditions: the map is kept, the sorted map built, the cache empty |
| Palettes.Palette.Default | src/palettes.rs:147-156 | the default palette: black at 0 and white at 1, sorted map without wrap-around points, Repeated, length 1, offset 0 |
| Palettes.Palette.SetPaletteLength | src/palettes.rs:162-167 | the length becomes the new value, the result says whether it changed, nothing else changes |
| Palettes.Palette.SetOffset | src/palettes.rs:173-178 | the offset becomes the new value, the result says whether it changed, nothing else changes |
| Palettes.Palette.ChangePointPercent | src/palettes.rs:184-193 | refused (nothing changes) exactly when another point has that exact percentage; otherwise only that point's percentage changes and the sorted map is rebuilt |
| Palettes.Palette.AddPoint | src/palettes.rs:225-235 | a point is appended exactly when get_add_point_percent finds a gap, at that gap's midpoint with the colour there, and the sorted map is rebuilt; otherwise nothing changes |
| Palettes.Palette.DeletePoint | src/palettes.rs:237-245 | with more than two points the point is removed and the sorted map rebuilt; otherwise nothing changes |
| Palettes.Palette.GeneratePalette | src/palettes.rs:284-319 | the cache gets max_iterations + 1 colours, colour i taken at CachePercent for the mapping type; the palette is otherwise unchanged |
| Viewer.StepsIncrease | src/lib.rs:57 | the maximum-iteration steps are strictly increasing |
| Viewer.IndexHigherFrom | src/lib.rs:1143-1155 | scanning from index i returns the first step index at or after i whose step exceeds m, or the step count when none does |
| Viewer.IndexHigher | src/lib.rs:1143-1155 | get_max_iteration_index_higher: the result is the first index whose step exceeds m; every earlier step is at most m, and the step count means no step exceeds m |
| Viewer.IndexHigherUnique | src/lib.rs:1143-1155 | any index with that first-above property equals IndexHigher(m) |
| Viewer.AboveIndexHigher | src/lib.rs:1143-1155 | every step from IndexHigher(m) on exceeds m |
| Viewer.StepUpIsLeastAbove | src/lib.rs:1178-1182 | the '=' key moves to the least step above the current maximum, or leaves it unchanged when no step is above |
| Viewer.StepDownIsGreatestBelow | src/lib.rs:1172-1176 | the corrected '-' key moves to the greatest step below the current maximum, or leaves it unchanged when no step is below |
| Viewer.StepDownAsWrittenOnSteps | src/lib.rs:1172-1176 | on a value that is itself a step, the '-' key as written agrees with the corrected one |
| Viewer.StepDownAsWrittenSkips | src/lib.rs:1172-1176 | as written, '-' takes 600 to 250 (skipping 500) and leaves 300 unchanged, where the greatest step below is 500 and 250 respectively |
| Viewer.ContinuousChange | src/lib.rs:1163-1168 | after the arrow keys the maximum is at least 1, and is unchanged (floored at 1) when neither or both arrows are held |
| Viewer.KeyJumpBounds | src/lib.rs:1170-1184 | the '-' and '=' jumps keep the maximum at least 1 |
| Viewer.StepRoundTrip | src/lib.rs:1170-1184 | from a step, '=' then '-' returns to it (below the last step), and '-' then '=' returns to it (above the first) |
| Viewer.StepBetween | src/lib.rs:57 | for adjacent steps a < b, '-' from b gives a and '=' from a gives b |
| Viewer.Visualiser.constructor | src/lib.rs:890-917 | a new viewer is centred at -0.5+0i in double precision with the start zoom speed, quality 2, saved quality 1, not rendering, not moving, with no finished render |
| Viewer.Visualiser.GetMaxIterationIndexHigher | src/lib.rs:1143-1155 | the loop returns the first index whose step exceeds max_iterations, or the step count when none does |
| Viewer.Visualiser.UserChangeMaxIteration | src/lib.rs:1160-1186 | (corrected: '-' step) the new maximum is the arrow change followed by the key jump, it is at least 1, the result says whether an arrow alone or one of '-'/'=' alone was pressed, and nothing else changes |
| Viewer.Visualiser.ArrowChange | src/lib.rs:1163-1168 | the arrows move the maximum by 10 per second in the held direction, floored at 1; the result says whether exactly one arrow is held |
| Viewer.Visualiser.StepJump | src/lib.rs:1170-1184 | '-' alone steps down, '=' alone steps up, otherwise nothing changes; the result says whether a jump key acted |
| Viewer.Visualiser.UserTeleport | src/lib.rs:1192-1199 | pressing T resets the pixel step to 0.005 and the move speed to 1 and returns true; otherwise nothing changes and it returns false |
| Viewer.Visualiser.UpdatePrecision | src/lib.rs:1282-1290 | afterwards arbitrary precision is on exactly when the pixel step is at most 2e-16; switching it on converts the centre to big and raises the quality by one, and the centre's value never changes |
| Viewer.Visualiser.SetPixelStep | src/lib.rs:1292-1297 | a non-positive step changes nothing; a positive one sets the pixel step, sets the move speed proportional to it (1 at 0.005), and updates the precision: when it switches arbitrary precision on, the centre becomes big and the quality rises by one, otherwise both are kept |
| Viewer.Visualiser.GenerateImage | src/lib.rs:953-968 | a render requested while one is running is ignored when moving, and otherwise restarts one quality level coarser; afterwards a render is running |
| Viewer.Visualiser.FinishRender | src/lib.rs:1212-1218 | the render stops and its time is recorded; a render faster than 1/(MIN_FPS+FPS_DROP_EXCESS) s lowers the quality by one, never below 1 |
| Viewer.Visualiser.ManageRenderTime | src/lib.rs:1221-1251 | with no render running nothing changes; otherwise a moving view is raised to the saved quality, then the render finishes when the last one was fast or the pool is idle, is cancelled one level coarser when moving past 1/MIN_FPS s, and otherwise keeps running |
| Viewer.Visualiser.UserMove | src/lib.rs:1254-1280 | (corrected: '-' step) the viewer is moving exactly when a view, zoom, iteration or teleport key acted; moving requests a render, and a stopped, idle viewer above quality 1 halves its quality and renders again; the maximum is the arrow change then the key jump, T resets the pixel step and speed, the precision follows the old pixel step (a big centre when it switches on), and the saved quality and last render time are kept |
| Menu.MapStateIndexes | src/menu.rs:336-348 | the five navbar pages get indexes 0-4, the others 5-8, and index 8 is exactly the gradient refresh |
| Menu.MapButtonStates | src/menu.rs:321-330 | every index maps to a navbar page; 0-4 map back to the page with that index and anything else to General |
| Menu.StateIndexRoundTrip | src/menu.rs:321-348 | for a navbar page, mapping to its index and back gives the page |
| Menu.StateIndexInjective | src/menu.rs:336-348 | apart from the gradient refresh, two states with the same index are the same state |
| Menu.NoNavbar | src/menu.rs:332-334 | exactly the palette editor and the video recorder (indexes 5 and 6) hide the navbar, and neither has a button |
| Menu.RefreshGradients | src/menu.rs:399-410 | the state becomes a gradient refresh whose next page is the current navbar page, or General for any other state |
| Menu.AfterUpdate | src/menu.rs:580-585 | a gradient refresh moves to a navbar page; every other state is left as it is |
| Menu.RefreshReturnsToPage | src/menu.rs:399-410 | a refresh followed by the next frame's update returns to the page it started from, or to General from a page without a button |
| Menu.FirstHovered | src/menu.rs:1073-1079 | the result is the first hovered button, and none means no button is hovered |
| Menu.Navbar.constructor | src/menu.rs:1032-1043 | a new navbar has exactly the first button (General) active |
| Menu.Navbar.SetActiveButton | src/menu.rs:1045-1048 | afterwards exactly the button of the given page is active |
| Menu.Navbar.Update | src/menu.rs:1053-1086 | with the navbar hidden the state and buttons are unchanged; otherwise a press inside the bar on a hovered button moves to that button's page, anything else keeps the page, and exactly the resulting page's button is active |
| Menu.FitFrom | src/menu.rs:1629-1643 | counting from i, every longer prefix up to the result fits and the next one does not, unless the text runs out |
| Menu.FitCount | src/menu.rs:1629-1643 | get_to_use never exceeds the letters left after the scroll position |
| Menu.FitCountLongest | src/menu.rs:1629-1643 | when the empty text fits, get_to_use is the length of the longest prefix that fits: every prefix up to it fits and one letter more does not |
| Menu.ScrollStart | src/menu.rs:1725-1727 | the scroll loop only moves the start forward, and never past the cursor |
| Menu.ScrollStartFirstShowing | src/menu.rs:1725-1727 | the scroll start is the first position from which the cursor is within the letters that fit; every earlier position leaves it out of view |
| Menu.ArrowCursor | src/menu.rs:1695-1700 | Right moves the cursor one letter on unless at the end, Left one back unless at the start, and the cursor stays within the text |
| Menu.TypeChar | src/menu.rs:1706-1716 | a letter is inserted at the cursor and the cursor moves past it; backspace removes the letter before the cursor and moves back, and does nothing at the start |
| Menu.TypeThenBackspace | src/menu.rs:1706-1716 | typing a letter and then backspace restores the text and the cursor |
| Menu.BackspaceThenRetype | src/menu.rs:1706-1716 | backspace and then retyping the removed letter restores the text and the cursor |
| Menu.Unscroll | src/menu.rs:1719-1724 | a cursor left of the scroll start pulls the start back (by two where possible) to at most the cursor |
| Menu.ClickOffset | src/menu.rs:1666-1678 | a hit is the first measured prefix the click falls left of, at offset i-1 from the scroll start; none means the click is right of every shown prefix |
| Menu.ClickCursorAsWritten | src/menu.rs:1679-1682 | a click right of the text sets the cursor to the count of shown letters, ignoring the scroll start |
| Menu.ClickCursor | src/menu.rs:1664-1682 | the corrected click puts the cursor at the scroll start plus the hit offset, or after the last shown letter |
| Menu.ClickPastTextAsWritten | src/menu.rs:1679-1682 | on "abcdefghij" scrolled to 7 with three letters shown, a click right of the text puts the cursor at 3, before the scroll start, where the corrected rule gives 10 |
| Menu.TextBox.constructor | src/menu.rs:1569-1588 | a new text box holds the given text, unselected, with the scroll start and cursor at 0 |
| Menu.TextBox.GetToUse | src/menu.rs:1629-1643 | the loop returns the longest prefix from the scroll start that fits, and it stays within the text |
| Menu.TextBox.CheckClicked | src/menu.rs:1654-1683 | no press changes nothing; a press outside deselects; a press inside selects and places the cursor by the corrected click rule; the text and scroll start are kept |
| Menu.TextBox.KeyboardEntry | src/menu.rs:1685-1732 | an unselected box or no key changes nothing; otherwise the arrows move the cursor, Escape or Enter deselect and return the text, any other key edits the text, and the scroll start is pulled back and then advanced until the cursor shows |
| Menu.TextBox.ApplyKeys | src/menu.rs:1695-1717 | the arrow moves and the edit or the Escape/Enter exit, with the text, cursor, selection and output they determine |
| Menu.TextBox.ScrollToCursor | src/menu.rs:1719-1727 | the scroll start becomes the first position from which the cursor shows, after pulling it back; the text and cursor are kept |
| Menu.Carousel.constructor | src/menu.rs:2199-2211 | a new carousel is not hovered |
| Menu.Carousel.MouseInteract | src/menu.rs:2228-2247 | the carousel is hovered exactly over an allowed arrow; a press there returns the index one to the left or one to the right |
| Menu.Carousel.Update | src/menu.rs:2218-2226 | a change happens exactly on a press over the left arrow with an earlier entry or the right arrow with a later one, and the new index is the neighbouring entry, within range |
| Menu.NonCurrent | src/menu.rs:2094 | the choices in an open dropdown are the variants other than the current one, in order; with distinct variants there is one fewer |
| Menu.DropDown.constructor | src/menu.rs:2006-2024 | a new dropdown holds the variants, closed, not hovered, hovering the first row |
| Menu.DropDown.InteractOpen | src/menu.rs:2068-2096 | a press on a row of the open list returns that row's non-current variant; row 0 or a row past the list is an error (the source's index panics); a press on the closed box or outside closes the list; the hovered row becomes 0 over the closed box, the mouse row over the open list, and is kept elsewhere |
| Menu.OpenRowsInRange | src/menu.rs:2083-2095 | with distinct variants containing the current one, every row below the variant count picks a valid choice |
| Menu.ToScreenDimensions | src/menu.rs:4391-4398 | the presets are 16:9 at a multiple of 1080 lines, and Custom takes the entered width and height |
| Menu.PresetsDouble | src/lib.rs:470-480 | 4k doubles both sides of 1080p and 8k doubles both sides of 4k |
| Menu.Swap | src/menu.rs:3287 | Vec::swap exchanges the two entries and leaves the rest in place |
| Menu.ReorderSame | src/layers.rs:798-804 | moving a layer onto its own slot changes nothing |
| Menu.SwapStepDown | src/menu.rs:3285-3293 | one swap with the pointer below the released row moves the partial reorder one pointer step down |
| Menu.SwapStepUp | src/menu.rs:3285-3293 | one swap with the pointer above the released row moves the partial reorder one pointer step up |
| Menu.SwapTowards | src/menu.rs:3286-3292 | one pass of the swap loop keeps the managers equal to the reorder up to the new pointer |
| Menu.Zip | src/menu.rs:3270-3293 | the pairs of managers and layers, entry by entry |
| Menu.ReorderZip | src/menu.rs:3270-3293 | reordering the managers and the layers separately equals reordering the pairs |
| Menu.LayersMenu.constructor | src/menu.rs:3106-3111 | a new layers menu holds one row per layer, row i made for layer i |
| Menu.LayersMenu.Release | src/menu.rs:3257-3295 | (corrected: position bounds) dropping a layer on a different allowed slot moves the layer and its manager to the same destination, keeps the configuration valid and the implementors matching the new order; otherwise the stack and the managers are unchanged |
| Menu.LayersMenu.SwapManagers | src/menu.rs:3285-3293 | the swap loop leaves the managers reordered exactly as reorder_layer reorders the layers |
| Menu.ReleaseKeepsRowsPaired | src/menu.rs:3257-3295 | after a release every manager still sits next to its own layer |

## Left out

- Drawing and textures are not modelled: macroquad calls, `Texture2D`, `Image` and colour values. Where a colour matters it is a parameter: `colour_pixel` for a block, `get_colour_at_percentage` for the palette.
- Threads are not modelled: the thread pool, `Arc<Mutex<_>>`, the `AtomicBool` cancel flag, joining and progress counting. Render timing from `Instant` becomes an `elapsed` parameter.
- Floating point is modelled as exact reals, with no IEEE rounding, NaN or infinity. The viewer's initial `last_render_time` of infinity is modelled as `None`.
- Escape-time numerics are not modelled: `diverges`, smooth iteration, orbit-trap distance values, the Shading3D normal map, perturbation and reference orbits, `interpolate_colour`, `complex_to_screen`, and the view movement and zoom of `user_move_view`/`user_zoom`. The results of movement and zoom are boolean inputs of `Viewer.Visualiser.UserMove`.
- Arbitrary-precision arithmetic (`dashu_float::FBig`) is a library outside this model. Big values are exact pairs of reals.
- Complex.ChooseU32: models a release build, where u32 multiplication wraps; a debug build panics at the first overflowing multiplication instead.
- Menu.LayersMenu.Release: requires the stack to be a valid configuration whose constraints are placed for its current order. The layers menu re-places them after every change (src/menu.rs:3443-3446), and that step is outside `release`.
- Complex.MakeDouble: does not model the rounding from arbitrary precision to f64, so the round trip through double precision is exact in the model.
- `Palette::update_colour`, `interpolate_palettes`, `import_from_str` and `import_colour_map_from_str` are left out. They are float parsing and colour arithmetic, and the parser depends on `get_str_between`, which is not part of this model.
- `Palette::new_even` and `similar_palette` are left out. The first is a constructor that spaces the given colours evenly; the second compares the mapping type and the number of points. Neither is part of the palette-editing core.
- Palettes.ExportedMappingReadsBack: the text of a float is a parameter `show`, assumed never to contain '#' (true of Rust's float formatting, which is not modelled). Only the mapping type is read back; the rest of `import_from_str` is left out.
- Palettes.Palette.constructor: requires what `Palette::new`'s assertions demand (more than one point, length in [0, 1], unique positions). The source panics otherwise.
- Palettes.Palette.GeneratePalette: the cache length is proved; the colours in the cache are left to the `colourAt` parameter.
- LayerStack.Layers.constructor: requires a valid configuration, because `Layers::new` unwraps `valid_layers` and panics otherwise.
- LayerStack.Layers.AddLayer: requires the stack's shading layers to be covered, because `add_layer` unwraps the constraint placement and panics otherwise.
- Menu.TextBox.GetToUse: requires the empty text to fit the box. When it does not, the source's `i-1` underflows and panics.
- Text measurement is not modelled: `measure_text` becomes a `fits` or `leftOf` predicate on strings. Text is handled as characters, so the model assumes the source's byte indexes fall on ASCII characters.
- Mouse geometry (`Rect::contains`, the hover row computed from the mouse height) and key presses become booleans and naturals passed to the menu methods.
- An out-of-range argument that makes the source panic (an `assert!`, or a `Vec` index, `remove` or `insert` past the end) is a precondition. This covers Palettes.Palette.SetPaletteLength and Palettes.Palette.SetOffset (src/palettes.rs:163 and 174), LayerStack.Layers.ReorderLayer and LayerStack.Layers.DeleteLayer, Palettes.Palette.ChangePointPercent and Palettes.Palette.DeletePoint (the colour-map index), and Menu.Navbar.SetActiveButton, whose button index is out of range for the pages without a navbar, which its only call site (src/menu.rs:580-588) never passes.
- Menu.Carousel.Update and Menu.Carousel.MouseInteract: require the index to lie within the variants, as the source's `variants[index]` and `index-1` do.
- The layer managers' widgets, the menus' add and delete buttons, the video menu and recorder, play, export, and loading saves are not modelled. They are drawing and file I/O.
- `Buhddabrot` is not modelled: it is random sampling plus threads.
- `src/main.rs`, `src/specific_divergence.rs` and `src/palletes.rs` are not part of this model. They are start-up wiring, dead code and palette data.
- The gallery's DOM lookups, style strings and the asynchronous `fetch` of the panel text are not modelled. The panel's `left` style is a field.

## Findings

| source | as written | input that shows it | evidently intended | confidence | as-written member | corrected member |
|---|---|---|---|---|---|---|
| src/layers.rs:986-988 | when a shading layer's constraints cover only the out-set side, `range_allowed` accepts the range InSet | the stack [Colour OutSet, Shading OutSet]: the shading layer may be changed to InSet, which no colour layer covers, and the next `place_constraints` unwrap panics | accept OutSet (the covered side) | not executed | LayerRules.RangeAllowedAsWritten, LayerRules.RangeAllowedAsWrittenLeavesSide, LayerConstraints.ShadingLeavesHeldSide | LayerRules.RangeAllowed, LayerConstraints.ChangeRangeKeepsValid, LayerRules.ChangeRange |
| src/layers.rs:695-702 | a shading layer's range is held only when no colour layer anywhere in the stack covers the other side | [Colour OutSet, Shading OutSet, Colour InSet]: the shading layer is left free and may change to InSet, which only a later layer covers, so the stack becomes invalid | hold the range unless an earlier colour layer covers the other side | not executed | LayerConstraints.RangeConstraintsAsWritten, LayerConstraints.ShadingUnheldBeforeColour | LayerConstraints.RangeConstraints, LayerStack.HoldShadingLayers, LayerStack.PlaceRangeConstraints, LayerConstraints.ChangeRangeKeepsValid, LayerStack.Layers.constructor, LayerStack.Layers.AddLayer |
| src/layers.rs:749-760, 765-774, 955-957 | `set_position_constraint` replaces the earlier bound, so a Both shading layer keeps only the last cover's bound, and a colour layer's bound can be replaced in the same way | [Colour OutSet, Colour InSet, Shading Both]: the shading layer may move to slot 1, before its in-set cover; [Colour Both, Shading InSet, Shading OutSet]: the colour layer may move after the first shade; either move makes the stack invalid | narrow the bound to the latest lower limit of all covers | not executed | LayerConstraints.PositionConstraintAsWritten, LayerConstraints.ShadingMovesBeforeCover, LayerConstraints.ColourMovesAfterShade | LayerConstraints.PositionConstraint, LayerStack.PlacePositionConstraints, LayerConstraints.MoveKeepsValid, LayerStack.Layers.constructor, LayerStack.Layers.AddLayer, Menu.LayersMenu.Release |
| src/complex.rs:12-25 | `factorial` and `choose` multiply in `u32`, which wraps from 13! on | choose(13, 2) = 24 in a release build, where C(13, 2) = 78; choose(40, 20) divides by zero because 20! * 20! wraps to 0, so pow(z, 40) panics | the binomial coefficient, computed without overflow | not executed | Complex.ChooseU32Overflow, Complex.ChooseU32DivByZero, Complex.PowAsWritten | Complex.Choose, Complex.ChooseU32Exact, Complex.Pow |
| src/lib.rs:394-414 | `set_center_re`/`set_center_im` update the double-precision centre of an orbit trap and leave the arbitrary-precision copy unchanged | set the real part of a point trap at 0+0i to 1: the double distance from 0 is 1, but the big distance is still 0 | update both copies of the centre | not executed | OrbitTrap.SetCenterReAsWritten, OrbitTrap.SetCenterImAsWritten, OrbitTrap.StaleBigCentre | OrbitTrap.SetCenterRe, OrbitTrap.SetCenterIm, OrbitTrap.CorrectedSetterKeepsDistances |
| src/lib.rs:1172-1176 | the '-' key sets the maximum to the step two below the first step above it | max_iterations 600 becomes 250, skipping 500; at 300 it stays 300 | the greatest step below the current maximum | not executed | Viewer.StepDownAsWritten, Viewer.StepDownAsWrittenSkips | Viewer.StepDown, Viewer.StepDownIsGreatestBelow, Viewer.StepRoundTrip, Viewer.Visualiser.StepJump, Viewer.Visualiser.UserChangeMaxIteration, Viewer.Visualiser.UserMove |
| src/menu.rs:1679-1682 | a click right of the shown text sets the cursor to the number of shown letters, ignoring the scroll start | "abcdefghij" scrolled to 7 with three letters shown: the cursor becomes 3, before the start, and the next `content[start_pos..cursor_pos]` panics | scroll start plus the number of shown letters (10) | not executed | Menu.ClickCursorAsWritten, Menu.ClickPastTextAsWritten | Menu.ClickCursor, Menu.TextBox.CheckClicked |
