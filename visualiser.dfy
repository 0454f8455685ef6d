/**
 * The viewer's render bookkeeping (src/lib.rs, struct Visualiser): the
 * render quality (how many pixels one computed point covers), the switch
 * to arbitrary precision when the view is zoomed in far enough, and the
 * maximum iteration count the arrow, '-' and '=' keys change.
 *
 * Drawing, threads, timing and the float-valued view movement are not
 * modelled; where the source reads the keyboard or a clock the methods take
 * the value read as a parameter.
 */
module Viewer {
  import opened Wrappers
  import opened Complex

  /** MAX_ITERATION_STEPS (src/lib.rs:57). */
  const MAX_ITERATION_STEPS: seq<real> := [250.0, 500.0, 1000.0, 2500.0, 5000.0, 10000.0]
  /** MAX_ITER_INC_SPEED: iterations added per second while an arrow key is held. */
  const MAX_ITER_INC_SPEED: real := 10.0
  /** Below this pixel step the viewer switches to arbitrary precision. */
  const ARB_PRECISION_STEP: real := 0.0000000000000002
  /** START_ZOOM_SPEED. */
  const START_ZOOM_SPEED: real := 1.0
  const MIN_FPS: nat := 10
  /** FPS_DROP_EXCESS = (MIN_FPS as f32 * 0.75) as usize. */
  const FPS_DROP_EXCESS: nat := 7

  // ---------------------------------------------------------------
  // the iteration steps
  // ---------------------------------------------------------------

  /** The steps are strictly increasing. */
  lemma StepsIncrease(i: nat, j: nat)
    requires i < j < |MAX_ITERATION_STEPS|
    ensures MAX_ITERATION_STEPS[i] < MAX_ITERATION_STEPS[j]
  {
  }

  /** The least index from i on whose step exceeds m, or the number of steps. */
  function IndexHigherFrom(m: real, i: nat): (r: nat)
    requires i <= |MAX_ITERATION_STEPS|
    ensures i <= r <= |MAX_ITERATION_STEPS|
    ensures r < |MAX_ITERATION_STEPS| ==> MAX_ITERATION_STEPS[r] > m
    ensures forall j :: i <= j < r ==> MAX_ITERATION_STEPS[j] <= m
    decreases |MAX_ITERATION_STEPS| - i
  {
    if i == |MAX_ITERATION_STEPS| then i
    else if MAX_ITERATION_STEPS[i] > m then i
    else IndexHigherFrom(m, i + 1)
  }

  /** The index get_max_iteration_index_higher returns for max_iterations = m. */
  function IndexHigher(m: real): (r: nat)
    ensures r <= |MAX_ITERATION_STEPS|
    ensures r < |MAX_ITERATION_STEPS| ==> MAX_ITERATION_STEPS[r] > m
    ensures forall j :: 0 <= j < r ==> MAX_ITERATION_STEPS[j] <= m
  {
    IndexHigherFrom(m, 0)
  }

  /** get_max_iteration_index_higher's answer is the only index with its two properties. */
  lemma IndexHigherUnique(m: real, h: nat)
    requires h <= |MAX_ITERATION_STEPS|
    requires h < |MAX_ITERATION_STEPS| ==> MAX_ITERATION_STEPS[h] > m
    requires forall j :: 0 <= j < h ==> MAX_ITERATION_STEPS[j] <= m
    ensures h == IndexHigher(m)
  {
  }

  /** The steps at or above IndexHigher(m) all exceed m. */
  lemma AboveIndexHigher(m: real, j: nat)
    requires IndexHigher(m) <= j < |MAX_ITERATION_STEPS|
    ensures MAX_ITERATION_STEPS[j] > m
  {
    if IndexHigher(m) < j {
      StepsIncrease(IndexHigher(m), j);
    }
  }

  /**
   * The '=' key (src/lib.rs:1178-1182): the least step above m, and m
   * itself when no step is above it.
   */
  function StepUp(m: real): (r: real)
  {
    var higher := IndexHigher(m);
    if higher == |MAX_ITERATION_STEPS| then m else MAX_ITERATION_STEPS[higher]
  }

  /** '=' moves to the least step above m, or stays when m is at or above every step. */
  lemma StepUpIsLeastAbove(m: real)
    ensures StepUp(m) >= m
    ensures StepUp(m) > m ==> StepUp(m) in MAX_ITERATION_STEPS
    ensures forall j :: 0 <= j < |MAX_ITERATION_STEPS| && MAX_ITERATION_STEPS[j] > m ==>
      StepUp(m) > m && StepUp(m) <= MAX_ITERATION_STEPS[j]
  {
    var h := IndexHigher(m);
    forall j | 0 <= j < |MAX_ITERATION_STEPS| && MAX_ITERATION_STEPS[j] > m
      ensures StepUp(m) > m && StepUp(m) <= MAX_ITERATION_STEPS[j]
    {
      if h < j {
        StepsIncrease(h, j);
      }
    }
  }

  /**
   * The '-' key as src/lib.rs:1172-1176 writes it: two steps below the
   * first step above m.
   */
  function StepDownAsWritten(m: real): real
  {
    var higher := IndexHigher(m);
    if higher <= 1 then m else MAX_ITERATION_STEPS[higher - 2]
  }

  /**
   * The '-' key as evidently intended: the largest step strictly below m,
   * and m itself when no step is below it.  When m sits on a step, that
   * step is MAX_ITERATION_STEPS[higher - 1] and the step below is two
   * below higher, as the source has it.
   */
  function StepDown(m: real): real
  {
    var higher := IndexHigher(m);
    if higher >= 1 && MAX_ITERATION_STEPS[higher - 1] < m then MAX_ITERATION_STEPS[higher - 1]
    else if higher >= 2 then MAX_ITERATION_STEPS[higher - 2]
    else m
  }

  /** The corrected '-' moves to the largest step below m, or stays when no step is below. */
  lemma StepDownIsGreatestBelow(m: real)
    ensures StepDown(m) <= m
    ensures StepDown(m) < m ==> StepDown(m) in MAX_ITERATION_STEPS
    ensures forall j :: 0 <= j < |MAX_ITERATION_STEPS| && MAX_ITERATION_STEPS[j] < m ==>
      StepDown(m) < m && MAX_ITERATION_STEPS[j] <= StepDown(m)
  {
    var h := IndexHigher(m);
    forall j | 0 <= j < |MAX_ITERATION_STEPS| && MAX_ITERATION_STEPS[j] < m
      ensures StepDown(m) < m && MAX_ITERATION_STEPS[j] <= StepDown(m)
    {
      if j >= h {
        AboveIndexHigher(m, j);
      } else if j < h - 1 {
        StepsIncrease(j, h - 1);
        if MAX_ITERATION_STEPS[h - 1] >= m {
          assert j <= h - 2;
          if j < h - 2 { StepsIncrease(j, h - 2); }
        }
      }
    }
  }

  /** Where m sits exactly on a step, the source's '-' is the intended one. */
  lemma StepDownAsWrittenOnSteps(i: nat)
    requires i < |MAX_ITERATION_STEPS|
    ensures StepDownAsWritten(MAX_ITERATION_STEPS[i]) == StepDown(MAX_ITERATION_STEPS[i])
  {
    var m := MAX_ITERATION_STEPS[i];
    var h := IndexHigher(m);
    if h < i + 1 {
      assert MAX_ITERATION_STEPS[h] > m;
      if h < i { StepsIncrease(h, i); }
    } else if h > i + 1 {
      assert MAX_ITERATION_STEPS[i + 1] <= m;
      StepsIncrease(i, i + 1);
    }
  }

  /**
   * Off the steps it is not: from 600 the source's '-' skips 500 and
   * lands on 250, and from 300 it does not move although 250 is below.
   */
  lemma StepDownAsWrittenSkips()
    ensures StepDownAsWritten(600.0) == 250.0 && StepDown(600.0) == 500.0
    ensures StepDownAsWritten(300.0) == 300.0 && StepDown(300.0) == 250.0
  {
    assert IndexHigher(600.0) == 2 by { assert MAX_ITERATION_STEPS[2] > 600.0; }
    assert IndexHigher(300.0) == 1 by { assert MAX_ITERATION_STEPS[1] > 300.0; }
  }

  /** The arrow keys' direction: -1 for Left alone, 1 for Right alone, else 0. */
  function Held(left: bool, right: bool): real
  {
    if left && !right then -1.0 else if !left && right then 1.0 else 0.0
  }

  /** max_iterations after the arrow keys: moved by the held direction, never below 1. */
  function ContinuousChange(m: real, dt: real, left: bool, right: bool): (r: real)
    ensures r >= 1.0
    ensures left == right ==> r == if m < 1.0 then 1.0 else m
  {
    var moved := m + MAX_ITER_INC_SPEED * dt * Held(left, right);
    if moved < 1.0 then 1.0 else moved
  }

  /** max_iterations after the '-' and '=' keys: only one of them pressed alone acts. */
  function KeyJump(m: real, minus: bool, equal: bool): real
  {
    if minus && !equal then StepDown(m) else if !minus && equal then StepUp(m) else m
  }

  /** The jumps never take a value of at least 1 below 1. */
  lemma KeyJumpBounds(m: real, minus: bool, equal: bool)
    requires m >= 1.0
    ensures KeyJump(m, minus, equal) >= 1.0
  {
    StepUpIsLeastAbove(m);
  }

  /** From a step, '=' then '-' comes back, and so does '-' then '='. */
  lemma StepRoundTrip(i: nat)
    requires i < |MAX_ITERATION_STEPS|
    ensures i + 1 < |MAX_ITERATION_STEPS| ==> StepDown(StepUp(MAX_ITERATION_STEPS[i])) == MAX_ITERATION_STEPS[i]
    ensures i >= 1 ==> StepUp(StepDown(MAX_ITERATION_STEPS[i])) == MAX_ITERATION_STEPS[i]
  {
    var m := MAX_ITERATION_STEPS[i];
    StepUpIsLeastAbove(m);
    StepDownIsGreatestBelow(m);
    if i + 1 < |MAX_ITERATION_STEPS| {
      var u := StepUp(m);
      StepsIncrease(i, i + 1);
      assert u <= MAX_ITERATION_STEPS[i + 1];
      StepDownIsGreatestBelow(u);
      StepOnSteps(u);
      StepBetween(m, u);
    }
    if i >= 1 {
      var d := StepDown(m);
      StepsIncrease(i - 1, i);
      StepUpIsLeastAbove(d);
      StepOnSteps(d);
      StepBetween(d, m);
    }
  }

  /** A value in the steps is one of them by index. */
  lemma StepOnSteps(s: real)
    requires s in MAX_ITERATION_STEPS
    ensures exists j :: 0 <= j < |MAX_ITERATION_STEPS| && MAX_ITERATION_STEPS[j] == s
  {
  }

  /** Adjacent steps have no step strictly between them. */
  lemma StepBetween(a: real, b: real)
    requires a in MAX_ITERATION_STEPS && b in MAX_ITERATION_STEPS && a < b
    requires forall j :: 0 <= j < |MAX_ITERATION_STEPS| && MAX_ITERATION_STEPS[j] > a ==> b <= MAX_ITERATION_STEPS[j]
    ensures StepDown(b) == a && StepUp(a) == b
  {
    StepDownIsGreatestBelow(b);
    StepUpIsLeastAbove(a);
  }

  /** The pixel-step rule of update_precision: arbitrary precision from 2e-16 down. */
  predicate NeedsArbPrecision(pixelStep: real)
  {
    pixelStep <= ARB_PRECISION_STEP
  }

  // ---------------------------------------------------------------
  // the viewer
  // ---------------------------------------------------------------

  /**
   * The bookkeeping fields of Visualiser.  `lastRenderTime` is None until
   * a render finishes (the source starts it at f32::INFINITY).
   */
  class Visualiser {
    var center: ComplexType
    var pixelStep: real
    var maxIterations: real
    var rendering: bool
    var moveSpeed: real
    var quality: nat
    var savedQuality: nat
    var arbPrecision: bool
    var moving: bool
    var lastRenderTime: Option<real>

    /**
     * The render quality never drops below one pixel per point (it divides
     * the thread height in ThreadSplitter), nor does saved_quality, and
     * arbitrary precision always comes with a Big centre (the render
     * panics on a Double one).
     */
    predicate Valid()
      reads this
    {
      quality >= 1 && savedQuality >= 1 && (arbPrecision ==> center.Big?)
    }

    /** Visualiser::new. */
    constructor (pixelStep0: real, maxIterations0: real)
      ensures Valid()
      ensures pixelStep == pixelStep0 && maxIterations == maxIterations0
      ensures center == Double(Complex(-0.5, 0.0)) && moveSpeed == START_ZOOM_SPEED
      ensures quality == 2 && savedQuality == 1
      ensures !rendering && !arbPrecision && !moving && lastRenderTime == None
    {
      pixelStep := pixelStep0;
      maxIterations := maxIterations0;
      center := Double(Complex(-0.5, 0.0));
      moveSpeed := START_ZOOM_SPEED;
      rendering := false;
      quality := 2;
      savedQuality := 1;
      arbPrecision := false;
      moving := false;
      lastRenderTime := None;
    }

    /**
     * get_max_iteration_index_higher: the index of the first step above
     * max_iterations, or the number of steps when there is none.
     */
    method GetMaxIterationIndexHigher() returns (higher: nat)
      ensures higher <= |MAX_ITERATION_STEPS|
      ensures higher < |MAX_ITERATION_STEPS| ==> MAX_ITERATION_STEPS[higher] > maxIterations
      ensures forall j :: 0 <= j < higher ==> MAX_ITERATION_STEPS[j] <= maxIterations
    {
      higher := 0;
      for i := 0 to |MAX_ITERATION_STEPS|
        invariant forall j :: 0 <= j < i ==> MAX_ITERATION_STEPS[j] <= maxIterations
        invariant higher == if i == |MAX_ITERATION_STEPS| then i else 0
      {
        if MAX_ITERATION_STEPS[i] > maxIterations {
          higher := i;
          return;
        }
        if i == |MAX_ITERATION_STEPS| - 1 {
          higher := |MAX_ITERATION_STEPS|;
        }
      }
    }

    /** Every field but max_iterations is as it was. */
    twostate predicate OnlyMaxIterationsChanged()
      reads this
    {
      center == old(center) && pixelStep == old(pixelStep) && rendering == old(rendering) &&
      moveSpeed == old(moveSpeed) && quality == old(quality) && savedQuality == old(savedQuality) &&
      arbPrecision == old(arbPrecision) && moving == old(moving) && lastRenderTime == old(lastRenderTime)
    }

    /**
     * user_change_max_iteration: a held arrow key moves max_iterations by
     * MAX_ITER_INC_SPEED per second (never below 1), then '-' or '='
     * alone jumps to the step below or above; returns whether anything
     * asked for a change.  The '-' jump is the corrected StepDown.
     */
    method UserChangeMaxIteration(dt: real, left: bool, right: bool, minus: bool, equal: bool)
      returns (iter: bool)
      modifies this
      ensures maxIterations == KeyJump(ContinuousChange(old(maxIterations), dt, left, right), minus, equal)
      ensures maxIterations >= 1.0
      ensures iter <==> (left != right) || (minus != equal)
      ensures OnlyMaxIterationsChanged()
    {
      iter := ArrowChange(dt, left, right);
      var jumped := StepJump(minus, equal);
      iter := iter || jumped;
    }

    /** The arrow keys' part of user_change_max_iteration. */
    method ArrowChange(dt: real, left: bool, right: bool) returns (iter: bool)
      modifies this
      ensures maxIterations == ContinuousChange(old(maxIterations), dt, left, right)
      ensures iter <==> left != right
      ensures OnlyMaxIterationsChanged()
    {
      iter := true;
      var held: real;
      if left && !right {
        held := -1.0;
      } else if !left && right {
        held := 1.0;
      } else {
        iter := false;
        held := 0.0;
      }
      maxIterations := maxIterations + MAX_ITER_INC_SPEED * dt * held;
      if maxIterations < 1.0 {
        maxIterations := 1.0;
      }
    }

    /** The '-' and '=' part of user_change_max_iteration. */
    method StepJump(minus: bool, equal: bool) returns (iter: bool)
      requires maxIterations >= 1.0
      modifies this
      ensures maxIterations == KeyJump(old(maxIterations), minus, equal) && maxIterations >= 1.0
      ensures iter <==> minus != equal
      ensures OnlyMaxIterationsChanged()
    {
      KeyJumpBounds(maxIterations, minus, equal);
      iter := false;
      if minus && !equal {
        iter := true;
        var higher := GetMaxIterationIndexHigher();
        IndexHigherUnique(maxIterations, higher);
        if higher >= 1 && MAX_ITERATION_STEPS[higher - 1] < maxIterations {
          maxIterations := MAX_ITERATION_STEPS[higher - 1];
        } else if higher >= 2 {
          maxIterations := MAX_ITERATION_STEPS[higher - 2];
        }
      } else if !minus && equal {
        iter := true;
        var higher := GetMaxIterationIndexHigher();
        IndexHigherUnique(maxIterations, higher);
        if higher != |MAX_ITERATION_STEPS| {
          maxIterations := MAX_ITERATION_STEPS[higher];
        }
      }
    }

    /** user_teleport: 'T' goes back to the starting zoom. */
    method UserTeleport(pressed: bool) returns (teleported: bool)
      requires Valid()
      modifies this
      ensures Valid() && teleported == pressed
      ensures pressed ==> pixelStep == 0.005 && moveSpeed == 1.0
      ensures !pressed ==> pixelStep == old(pixelStep) && moveSpeed == old(moveSpeed)
      ensures center == old(center) && maxIterations == old(maxIterations) && rendering == old(rendering)
      ensures quality == old(quality) && savedQuality == old(savedQuality)
      ensures arbPrecision == old(arbPrecision) && moving == old(moving) && lastRenderTime == old(lastRenderTime)
    {
      if !pressed {
        return false;
      }
      pixelStep := 0.005;
      moveSpeed := 1.0;
      teleported := true;
    }

    /**
     * update_precision: arbitrary precision is on exactly when the pixel
     * step is at most 2e-16; switching it on makes the centre Big and
     * raises the quality by one.
     */
    method UpdatePrecision()
      requires Valid()
      modifies this
      ensures Valid()
      ensures arbPrecision <==> NeedsArbPrecision(pixelStep)
      ensures NeedsArbPrecision(pixelStep) && !old(arbPrecision) ==>
        center == MakeBig(old(center)) && quality == old(quality) + 1
      ensures !(NeedsArbPrecision(pixelStep) && !old(arbPrecision)) ==>
        center == old(center) && quality == old(quality)
      ensures center.c == old(center.c)
      ensures pixelStep == old(pixelStep) && maxIterations == old(maxIterations) && rendering == old(rendering)
      ensures moveSpeed == old(moveSpeed) && savedQuality == old(savedQuality)
      ensures moving == old(moving) && lastRenderTime == old(lastRenderTime)
    {
      if pixelStep <= ARB_PRECISION_STEP && !arbPrecision {
        arbPrecision := true;
        center := MakeBig(center);
        quality := quality + 1;
      } else if pixelStep > ARB_PRECISION_STEP && arbPrecision {
        arbPrecision := false;
      }
    }

    /**
     * set_pixel_step: a step that is not positive is ignored; otherwise the
     * step and the move speed are set and the precision is updated.
     */
    method SetPixelStep(value: real)
      requires Valid()
      modifies this
      ensures Valid()
      ensures value <= 0.0 ==> (pixelStep == old(pixelStep) && moveSpeed == old(moveSpeed) &&
        arbPrecision == old(arbPrecision) && center == old(center) && quality == old(quality))
      ensures value > 0.0 ==> (pixelStep == value && moveSpeed == value * (START_ZOOM_SPEED / 0.005) &&
        (arbPrecision <==> NeedsArbPrecision(value)))
      ensures center.c == old(center.c) && old(quality) <= quality <= old(quality) + 1
      ensures value > 0.0 && NeedsArbPrecision(value) && !old(arbPrecision) ==>
        center == MakeBig(old(center)) && quality == old(quality) + 1
      ensures value > 0.0 && !(NeedsArbPrecision(value) && !old(arbPrecision)) ==>
        center == old(center) && quality == old(quality)
      ensures maxIterations == old(maxIterations) && rendering == old(rendering)
      ensures savedQuality == old(savedQuality) && moving == old(moving) && lastRenderTime == old(lastRenderTime)
    {
      if value <= 0.0 {
        return;
      }
      pixelStep := value;
      moveSpeed := value * (START_ZOOM_SPEED / 0.005);
      UpdatePrecision();
    }

    /**
     * generate_image's quality bookkeeping: a request while rendering is
     * dropped when moving, and otherwise cancels the render and raises the
     * quality by one; the new render is then marked as running.
     */
    method GenerateImage()
      requires Valid()
      modifies this
      ensures Valid()
      ensures old(rendering) && old(moving) ==> quality == old(quality) && rendering
      ensures old(rendering) && !old(moving) ==> quality == old(quality) + 1 && rendering
      ensures !old(rendering) ==> quality == old(quality) && rendering
      ensures center == old(center) && pixelStep == old(pixelStep) && maxIterations == old(maxIterations)
      ensures moveSpeed == old(moveSpeed) && savedQuality == old(savedQuality) && arbPrecision == old(arbPrecision)
      ensures moving == old(moving) && lastRenderTime == old(lastRenderTime)
    {
      if rendering {
        if moving {
          return;
        }
        quality := quality + 1;
        rendering := false;
      }
      rendering := true;
    }

    /**
     * finish_render: records the render time; a render faster than
     * 1 / (MIN_FPS + FPS_DROP_EXCESS) seconds lowers the quality by one,
     * but never below 1.
     */
    method FinishRender(elapsed: real)
      requires Valid()
      modifies this
      ensures Valid() && !rendering && lastRenderTime == Some(elapsed)
      ensures quality == if elapsed <= 1.0 / ((MIN_FPS + FPS_DROP_EXCESS) as real) && old(quality) > 1
                         then old(quality) - 1 else old(quality)
      ensures center == old(center) && pixelStep == old(pixelStep) && maxIterations == old(maxIterations)
      ensures moveSpeed == old(moveSpeed) && savedQuality == old(savedQuality) && arbPrecision == old(arbPrecision)
      ensures moving == old(moving)
    {
      rendering := false;
      lastRenderTime := Some(elapsed);
      if elapsed <= 1.0 / ((MIN_FPS + FPS_DROP_EXCESS) as real) && quality > 1 {
        quality := quality - 1;
      }
    }

    /**
     * manage_render_time's quality bookkeeping.  `poolIdle` says the
     * thread pool has no active or queued job; `elapsed` is the time since
     * the render started.  Texture uploads and joining are left out.
     */
    method ManageRenderTime(poolIdle: bool, elapsed: real)
      requires Valid()
      modifies this
      ensures Valid()
      ensures !old(rendering) ==> quality == old(quality) && !rendering && lastRenderTime == old(lastRenderTime)
      // a moving view is first brought back up to the saved quality; the
      // render then finishes, keeps going, or is cancelled one level coarser
      ensures var q := if old(quality) < savedQuality && moving then savedQuality else old(quality);
        var finished := (old(lastRenderTime).Some? && old(lastRenderTime).value <= 1.0 / (MIN_FPS as real)) || poolIdle;
        old(rendering) && finished ==>
          (!rendering && lastRenderTime == Some(elapsed) &&
           quality == (if elapsed <= 1.0 / ((MIN_FPS + FPS_DROP_EXCESS) as real) && q > 1 then q - 1 else q))
      ensures var q := if old(quality) < savedQuality && moving then savedQuality else old(quality);
        var finished := (old(lastRenderTime).Some? && old(lastRenderTime).value <= 1.0 / (MIN_FPS as real)) || poolIdle;
        old(rendering) && !finished ==>
          (lastRenderTime == old(lastRenderTime) &&
           (if elapsed >= 1.0 / (MIN_FPS as real) && moving then !rendering && quality == q + 1
            else rendering && quality == q))
      ensures center == old(center) && pixelStep == old(pixelStep) && maxIterations == old(maxIterations)
      ensures moveSpeed == old(moveSpeed) && savedQuality == old(savedQuality) && arbPrecision == old(arbPrecision)
      ensures moving == old(moving)
    {
      if !rendering {
        return;
      }
      if quality < savedQuality && moving {
        quality := savedQuality;
      }
      if lastRenderTime.Some? && lastRenderTime.value <= 1.0 / (MIN_FPS as real) {
        FinishRender(elapsed);
        return;
      }
      if poolIdle {
        FinishRender(elapsed);
        return;
      }
      if elapsed < 1.0 / (MIN_FPS as real) {
        return;
      }
      if moving {
        quality := quality + 1;
        rendering := false;
      }
    }

    /**
     * user_move: the precision is updated first; any change asked for
     * (view moved, zoom, max iterations, teleport) marks the view as
     * moving and requests a render, and once the user stops, an idle
     * viewer halves the quality (never below 1) and renders again.
     * `movedView` and `zoomed` stand for the results of the view and zoom
     * keys, whose float updates of the centre and pixel step are left out.
     */
    method UserMove(movedView: bool, zoomed: bool, dt: real, left: bool, right: bool,
                    minus: bool, equal: bool, teleport: bool)
      requires Valid()
      modifies this
      ensures Valid()
      ensures moving <==> movedView || zoomed || (left != right) || (minus != equal) || teleport
      ensures var q := if NeedsArbPrecision(old(pixelStep)) && !old(arbPrecision) then old(quality) + 1 else old(quality);
        (moving ==> rendering && quality == q) &&
        (!moving && !old(rendering) && q > 1 ==> rendering && quality == q / 2) &&
        (!moving && (old(rendering) || q <= 1) ==> rendering == old(rendering) && quality == q)
      ensures maxIterations == KeyJump(ContinuousChange(old(maxIterations), dt, left, right), minus, equal)
      ensures teleport ==> pixelStep == 0.005 && moveSpeed == 1.0
      ensures !teleport ==> pixelStep == old(pixelStep) && moveSpeed == old(moveSpeed)
      ensures arbPrecision <==> NeedsArbPrecision(old(pixelStep))
      ensures center == if NeedsArbPrecision(old(pixelStep)) && !old(arbPrecision) then MakeBig(old(center)) else old(center)
      ensures savedQuality == old(savedQuality) && lastRenderTime == old(lastRenderTime)
    {
      UpdatePrecision();
      var iter := UserChangeMaxIteration(dt, left, right, minus, equal);
      var tp := UserTeleport(teleport);
      if movedView || zoomed || iter || tp {
        moving := true;
        GenerateImage();
      } else if !rendering && quality > 1 {
        moving := false;
        quality := quality / 2;
        GenerateImage();
      } else {
        moving := false;
      }
    }
  }
}
