/**
 * The gallery page's sliding information panel (docs/js/galleryscript.js).
 * Clicking a gallery image shows its panel, which slides from its start
 * position towards the other side by DISPLAY_SPEED percent per frame and
 * stops at the edge. Fetching the panel text and the DOM updates other
 * than the panel's left position are not modelled.
 */
module Gallery {

  const DISPLAY_SPEED: int := 4
  /** Leftmost and rightmost panel positions, in percent. */
  const LEFT_EDGE: int := 2
  const RIGHT_EDGE: int := 50
  /** info_index when no panel is shown. */
  const NO_PANEL: int := -1

  /** One frame of the slide (galleryscript.js:53-62). */
  function Slide(x: int, direction: int): (r: int)
    ensures direction == -1 ==> r >= LEFT_EDGE && (x >= LEFT_EDGE ==> r <= x)
    ensures direction == 1 ==> r <= RIGHT_EDGE && (x <= RIGHT_EDGE ==> r >= x)
    ensures (direction == -1 || direction == 1) && LEFT_EDGE <= x <= RIGHT_EDGE ==>
              LEFT_EDGE <= r <= RIGHT_EDGE
  {
    var moved := x + direction * DISPLAY_SPEED;
    if direction == -1 then
      (if moved <= LEFT_EDGE then LEFT_EDGE else moved)
    else
      (if moved >= RIGHT_EDGE then RIGHT_EDGE else moved)
  }

  /** The panel position after k frames. */
  function Frames(x: int, direction: int, k: nat): int
  {
    if k == 0 then x else Slide(Frames(x, direction, k - 1), direction)
  }

  function Max(a: int, b: int): int { if a < b then b else a }
  function Min(a: int, b: int): int { if a < b then a else b }

  /** A panel opened on the right slides left, 4% per frame, down to 2%. */
  lemma {:induction false} SlideLeftClosedForm(k: nat)
    ensures Frames(RIGHT_EDGE, -1, k) == Max(LEFT_EDGE, RIGHT_EDGE - DISPLAY_SPEED * k)
  {
    if k > 0 {
      SlideLeftClosedForm(k - 1);
    }
  }

  /** A panel opened on the left slides right, 4% per frame, up to 50%. */
  lemma {:induction false} SlideRightClosedForm(k: nat)
    ensures Frames(LEFT_EDGE, 1, k) == Min(RIGHT_EDGE, LEFT_EDGE + DISPLAY_SPEED * k)
  {
    if k > 0 {
      SlideRightClosedForm(k - 1);
    }
  }

  /** Both slides reach the far edge after twelve frames and then stay there. */
  lemma SlideSettles(k: nat)
    requires k >= 12
    ensures Frames(RIGHT_EDGE, -1, k) == LEFT_EDGE
    ensures Frames(LEFT_EDGE, 1, k) == RIGHT_EDGE
    ensures Frames(RIGHT_EDGE, -1, 11) != LEFT_EDGE
    ensures Frames(LEFT_EDGE, 1, 11) != RIGHT_EDGE
  {
    SlideLeftClosedForm(k);
    SlideRightClosedForm(k);
    SlideLeftClosedForm(11);
    SlideRightClosedForm(11);
  }

  /** The page's global state. */
  class Page {
    var infoIndex: int
    var moveDirection: int
    var x: int
    /** The left position last written to the shown panel's style. */
    var left: int

    ghost predicate Valid()
      reads this
    {
      (moveDirection == -1 || moveDirection == 1) &&
      (x == 0 || LEFT_EDGE <= x <= RIGHT_EDGE) &&
      (infoIndex != NO_PANEL ==> LEFT_EDGE <= x <= RIGHT_EDGE)
    }

    /** The initial state (galleryscript.js:1-3). */
    constructor ()
      ensures Valid()
      ensures infoIndex == NO_PANEL && moveDirection == -1 && x == 0
    {
      infoIndex, moveDirection, x, left := NO_PANEL, -1, 0, 0;
    }

    /**
     * display_info (galleryscript.js:7-36): even panels start at the right
     * edge and slide left, odd panels start at the left edge and slide right.
     */
    method DisplayInfo(galleryNum: int)
      modifies this
      ensures Valid()
      ensures infoIndex == galleryNum
      ensures galleryNum % 2 == 0 ==> x == left == RIGHT_EDGE && moveDirection == -1
      ensures galleryNum % 2 != 0 ==> x == left == LEFT_EDGE && moveDirection == 1
    {
      infoIndex := galleryNum;
      if galleryNum % 2 == 0 {
        left := RIGHT_EDGE;
        moveDirection := -1;
        x := RIGHT_EDGE;
      } else {
        left := LEFT_EDGE;
        moveDirection := 1;
        x := LEFT_EDGE;
      }
    }

    /** close_info (galleryscript.js:38-46). */
    method CloseInfo()
      requires Valid()
      modifies this
      ensures Valid()
      ensures infoIndex == NO_PANEL
      ensures x == old(x) && moveDirection == old(moveDirection) && left == old(left)
    {
      infoIndex := NO_PANEL;
    }

    /** One interval callback (galleryscript.js:48-65). */
    method Tick()
      requires Valid()
      modifies this
      ensures Valid()
      ensures infoIndex == old(infoIndex) && moveDirection == old(moveDirection)
      ensures old(infoIndex) == NO_PANEL ==> x == old(x) && left == old(left)
      ensures old(infoIndex) != NO_PANEL ==> x == left == Slide(old(x), moveDirection)
    {
      if infoIndex == NO_PANEL {
        return;
      }
      x := x + moveDirection * DISPLAY_SPEED;
      if moveDirection == -1 {
        if x <= LEFT_EDGE {
          x := LEFT_EDGE;
        }
      } else {
        if x >= RIGHT_EDGE {
          x := RIGHT_EDGE;
        }
      }
      left := x;
    }
  }
}
