/**
 * The menu logic of src/menu.rs that is not drawing: which menu page is
 * open and which navbar button shows it, the text box's cursor, editing
 * and scrolling, the carousel's arrows, the drop-down's choice, the
 * screenshot resolutions, and the layers page dropping a dragged layer
 * into a new slot.
 *
 * Mouse position, key presses and text measurement are inputs: where the
 * source asks macroquad whether a key is pressed, whether the mouse is
 * inside a rectangle or how wide a string is, the methods take the
 * answer as a parameter.
 */
module Menu {
  import opened Wrappers
  import opened LayerOrder
  import opened LayerRules
  import LayerStack
  import LayerConstraints
  import Render

  // ---------------------------------------------------------------
  // menu states and the navbar
  // ---------------------------------------------------------------

  /** MenuState: the open page; UpdateGradient carries the index of the page to return to. */
  datatype MenuState =
    | Closed | General | Layers | LayerEditor | Screenshot | Video
    | PaletteEditor | VideoRecorder
    | UpdateGradient(next: nat)

  /** The navbar has one button per page it can show. */
  const NAVBAR_BUTTONS: nat := 5

  /** The pages that have a navbar button. */
  predicate HasButton(s: MenuState)
  {
    s.General? || s.Layers? || s.LayerEditor? || s.Screenshot? || s.Video?
  }

  /** map_state_indexes: the pages' buttons are 0..4, every other state gets its own index above. */
  function MapStateIndexes(s: MenuState): (i: nat)
    ensures i < NAVBAR_BUTTONS <==> HasButton(s)
    ensures i <= 8 && (i == 8 <==> s.UpdateGradient?)
  {
    match s
    case General => 0
    case Layers => 1
    case LayerEditor => 2
    case Screenshot => 3
    case Video => 4
    case PaletteEditor => 5
    case VideoRecorder => 6
    case Closed => 7
    case UpdateGradient(_) => 8
  }

  /** map_button_states: the page of a navbar button; any other index opens General. */
  function MapButtonStates(i: int): (s: MenuState)
    ensures HasButton(s)
    ensures 0 <= i < NAVBAR_BUTTONS ==> MapStateIndexes(s) == i
    ensures !(0 <= i < NAVBAR_BUTTONS) ==> s == General
  {
    match i
    case 0 => General
    case 1 => Layers
    case 2 => LayerEditor
    case 3 => Screenshot
    case 4 => Video
    case _ => General
  }

  /** The button index of a page leads back to that page. */
  lemma StateIndexRoundTrip(s: MenuState)
    requires HasButton(s)
    ensures MapButtonStates(MapStateIndexes(s)) == s
  {
  }

  /** Only the UpdateGradient states share an index. */
  lemma StateIndexInjective(s: MenuState, t: MenuState)
    requires MapStateIndexes(s) == MapStateIndexes(t) && !s.UpdateGradient?
    ensures s == t
  {
  }

  /** no_navbar: the palette editor and the video recorder hide the navbar. */
  function NoNavbar(s: MenuState): (b: bool)
    ensures b <==> MapStateIndexes(s) == 5 || MapStateIndexes(s) == 6
    ensures b ==> !HasButton(s)
  {
    s == PaletteEditor || s == VideoRecorder
  }

  /** refresh_gradients: go to UpdateGradient, remembering the page (the palette editor returns to 0). */
  function RefreshGradients(s: MenuState): (t: MenuState)
    ensures t.UpdateGradient?
    ensures HasButton(s) ==> MapButtonStates(t.next) == s
    ensures !HasButton(s) ==> MapButtonStates(t.next) == General
  {
    match s
    case PaletteEditor => UpdateGradient(0)
    case _ => UpdateGradient(MapStateIndexes(s))
  }

  /** After the gradients are redrawn the menu opens the page UpdateGradient names. */
  function AfterUpdate(s: MenuState): (t: MenuState)
    ensures s.UpdateGradient? ==> HasButton(t)
    ensures !s.UpdateGradient? ==> t == s
  {
    match s
    case UpdateGradient(i) => MapButtonStates(i)
    case _ => s
  }

  /** Refreshing the gradients from a page with a button comes back to the same page. */
  lemma RefreshReturnsToPage(s: MenuState)
    ensures HasButton(s) ==> AfterUpdate(RefreshGradients(s)) == s
    ensures !HasButton(s) ==> AfterUpdate(RefreshGradients(s)) == General
  {
  }

  /** The index of the first true entry, searching from k. */
  function FirstHovered(s: seq<bool>, k: nat): (r: Option<nat>)
    requires k <= |s|
    ensures r.Some? ==> k <= r.value < |s| && s[r.value] && forall j :: k <= j < r.value ==> !s[j]
    ensures r.None? ==> forall j :: k <= j < |s| ==> !s[j]
    decreases |s| - k
  {
    if k == |s| then None
    else if s[k] then Some(k)
    else FirstHovered(s, k + 1)
  }

  /** The navbar: one `active` flag per button, the button of the open page raised. */
  class Navbar {
    var active: array<bool>

    ghost predicate Valid()
      reads this
    {
      active.Length == NAVBAR_BUTTONS
    }

    /** Navbar::new: the General button starts active. */
    constructor ()
      ensures Valid() && fresh(active)
      ensures forall i :: 0 <= i < NAVBAR_BUTTONS ==> (active[i] <==> i == 0)
    {
      active := new bool[NAVBAR_BUTTONS](i => i == 0);
    }

    /**
     * set_active_button: lower every button, then raise the page's one.
     * The source indexes its five buttons by the state's index, so the
     * state must be a page with a button.
     */
    method SetActiveButton(state: MenuState)
      requires Valid() && HasButton(state)
      modifies active
      ensures forall i :: 0 <= i < NAVBAR_BUTTONS ==> (active[i] <==> i == MapStateIndexes(state))
    {
      for i := 0 to NAVBAR_BUTTONS
        invariant forall j :: 0 <= j < i ==> !active[j]
      {
        active[i] := false;
      }
      active[MapStateIndexes(state)] := true;
    }

    /**
     * Navbar::update: the states without a navbar pass through untouched;
     * otherwise the open page's button is raised and a click on the first
     * hovered button switches to that button's page.  `hovering[i]` is
     * whether the mouse is over button i.
     */
    method Update(state: MenuState, pressed: bool, insideBar: bool, hovering: seq<bool>)
      returns (next: MenuState)
      requires Valid() && |hovering| == NAVBAR_BUTTONS
      requires !NoNavbar(state) ==> HasButton(state)
      modifies active
      ensures NoNavbar(state) ==> next == state && unchanged(active)
      ensures !NoNavbar(state) ==> (HasButton(next) &&
        forall i :: 0 <= i < NAVBAR_BUTTONS ==> (active[i] <==> i == MapStateIndexes(next)))
      ensures !NoNavbar(state) ==>
        next == (if pressed && insideBar && FirstHovered(hovering, 0).Some?
                 then MapButtonStates(FirstHovered(hovering, 0).value) else state)
    {
      if NoNavbar(state) {
        return state;
      }
      SetActiveButton(state);
      if !pressed || !insideBar {
        return state;
      }
      var clicked: Option<nat> := None;
      var i := 0;
      while i < NAVBAR_BUTTONS
        invariant 0 <= i <= NAVBAR_BUTTONS
        invariant FirstHovered(hovering, 0) == if clicked.Some? then clicked else FirstHovered(hovering, i)
      {
        if hovering[i] {
          clicked := Some(i);
          break;
        }
        i := i + 1;
      }
      if clicked.None? {
        return state;
      }
      for j := 0 to NAVBAR_BUTTONS
        invariant forall k :: 0 <= k < j ==> (active[k] <==> k == clicked.value)
      {
        active[j] := j == clicked.value;
      }
      next := MapButtonStates(clicked.value);
    }
  }

  // ---------------------------------------------------------------
  // the text box
  // ---------------------------------------------------------------

  /** The character macroquad reports for the backspace key. */
  const BACKSPACE: char := '\U{0008}'

  /**
   * The number of letters of `w` that fit, counting on from i: the
   * source measures ever longer prefixes and stops before the first one
   * that is too wide.
   */
  function FitFrom(w: string, fits: string -> bool, i: nat): (n: nat)
    requires i <= |w|
    ensures i <= n <= |w|
    ensures forall k :: i < k <= n ==> fits(w[..k])
    ensures n < |w| ==> !fits(w[..n + 1])
    decreases |w| - i
  {
    if i == |w| || !fits(w[..i + 1]) then i else FitFrom(w, fits, i + 1)
  }

  /** get_to_use: how many letters of `w` fit in the box. */
  function FitCount(w: string, fits: string -> bool): (n: nat)
    ensures n <= |w|
  {
    FitFrom(w, fits, 0)
  }

  /**
   * get_to_use finds the longest run of letters whose every prefix fits,
   * provided the empty text fits.
   */
  lemma FitCountLongest(w: string, fits: string -> bool)
    requires fits([])
    ensures var n := FitCount(w, fits);
      (forall k :: 0 <= k <= n ==> fits(w[..k])) && (n < |w| ==> !fits(w[..n + 1]))
  {
    assert w[..0] == [];
  }

  /**
   * The first scroll position from `start` on that shows the cursor:
   * the source advances start_pos while the cursor is further from it
   * than the letters that fit.
   */
  function ScrollStart(content: string, cursor: nat, start: nat, fits: string -> bool): (st: nat)
    requires start <= cursor <= |content|
    ensures start <= st <= cursor
    decreases cursor - start
  {
    if cursor - start <= FitCount(content[start..], fits) then start
    else ScrollStart(content, cursor, start + 1, fits)
  }

  /** The view scrolls to the first position at or after `start` that shows the cursor. */
  lemma {:induction false} ScrollStartFirstShowing(content: string, cursor: nat, start: nat, fits: string -> bool)
    requires start <= cursor <= |content|
    ensures var st := ScrollStart(content, cursor, start, fits);
      cursor - st <= FitCount(content[st..], fits) &&
      forall k :: start <= k < st ==> cursor - k > FitCount(content[k..], fits)
    decreases cursor - start
  {
    if cursor - start > FitCount(content[start..], fits) {
      ScrollStartFirstShowing(content, cursor, start + 1, fits);
    }
  }

  /** Right moves the cursor while it is before the end, Left while it is after the start. */
  function ArrowCursor(cursor: nat, letters: nat, right: bool, left: bool): (c: nat)
    requires cursor <= letters
    ensures c <= letters
    ensures cursor - 1 <= c <= cursor + 1
    ensures right && !left && cursor < letters ==> c == cursor + 1
    ensures left && !right && cursor > 0 ==> c == cursor - 1
    ensures (!right && !left) || (right && cursor == letters && !left) ==> c == cursor
  {
    var c1 := if right && cursor < letters then cursor + 1 else cursor;
    if left && c1 > 0 then c1 - 1 else c1
  }

  /** A typed character inserted at the cursor, or the one before the cursor removed by backspace. */
  datatype Edited = Edited(content: string, cursor: nat)

  function TypeChar(content: string, cursor: nat, c: char): (e: Edited)
    requires cursor <= |content|
    ensures e.cursor <= |e.content|
    ensures c != BACKSPACE ==>
      |e.content| == |content| + 1 && e.content[cursor] == c && e.cursor == cursor + 1 &&
      multiset(e.content) == multiset(content) + multiset{c}
    ensures c == BACKSPACE && cursor > 0 ==>
      |e.content| == |content| - 1 && e.cursor == cursor - 1 &&
      multiset(e.content) + multiset{content[cursor - 1]} == multiset(content)
    ensures c == BACKSPACE && cursor == 0 ==> e == Edited(content, cursor)
  {
    if c == BACKSPACE then
      if cursor > 0 then
        RemoveMultiset(content, cursor - 1);
        Edited(Remove(content, cursor - 1), cursor - 1)
      else Edited(content, cursor)
    else
      InsertMultiset(content, cursor, c);
      Edited(Insert(content, cursor, c), cursor + 1)
  }

  /** Typing a character and then backspace gives back the text and the cursor. */
  lemma TypeThenBackspace(content: string, cursor: nat, c: char)
    requires cursor <= |content| && c != BACKSPACE
    ensures var e := TypeChar(content, cursor, c);
      TypeChar(e.content, e.cursor, BACKSPACE) == Edited(content, cursor)
  {
    InsertRemoveInverse(content, cursor, c);
  }

  /** Backspace and then retyping the removed character gives back the text and the cursor. */
  lemma BackspaceThenRetype(content: string, cursor: nat)
    requires 0 < cursor <= |content| && content[cursor - 1] != BACKSPACE
    ensures var e := TypeChar(content, cursor, BACKSPACE);
      TypeChar(e.content, e.cursor, content[cursor - 1]) == Edited(content, cursor)
  {
    InsertRemoveInverse(content, cursor - 1, content[cursor - 1]);
  }

  /** When the cursor has moved before start_pos, the view scrolls back by up to two letters. */
  function Unscroll(start: nat, cursor: nat): (s: nat)
    requires cursor + 2 >= start
    ensures s <= start && s <= cursor
  {
    if cursor < start then
      if start - 1 > 0 then start - 2 else start - 1
    else start
  }

  /** Where a click puts the cursor, as an offset from start_pos, when it falls on a letter. */
  function ClickOffset(w: string, leftOf: string -> bool, k: nat, toUse: nat): (o: Option<nat>)
    requires 1 <= k && toUse <= |w|
    ensures o.Some? ==> k - 1 <= o.value < toUse && leftOf(w[..o.value + 1])
    ensures o.None? ==> forall j :: k <= j <= toUse ==> !leftOf(w[..j])
    decreases toUse + 1 - k
  {
    if k > toUse then None
    else if leftOf(w[..k]) then Some(k - 1)
    else ClickOffset(w, leftOf, k + 1, toUse)
  }

  /** check_clicked as written: a click past the visible letters sets the cursor to their count. */
  function ClickCursorAsWritten(start: nat, toUse: nat, hit: Option<nat>): (c: nat)
    ensures hit.Some? ==> c == start + hit.value
    ensures hit.None? ==> c == toUse
  {
    match hit
    case Some(o) => start + o
    case None => toUse
  }

  /** check_clicked as intended: a click past the visible letters puts the cursor after the last of them. */
  function ClickCursor(start: nat, toUse: nat, hit: Option<nat>): (c: nat)
    ensures start <= c <= start + toUse || (hit.Some? && c == start + hit.value)
    ensures hit.None? ==> c == start + toUse
    ensures hit.Some? ==> c == start + hit.value
  {
    match hit
    case Some(o) => start + o
    case None => start + toUse
  }

  /**
   * A box scrolled to letter 7 of "abcdefghij" that shows three letters:
   * clicking right of the text puts the cursor as written at 3, before
   * the first visible letter, so the next drawing slices content[7..3].
   */
  lemma ClickPastTextAsWritten()
    ensures var w := "abcdefghij"[7..];
      var fits := (x: string) => |x| <= 3;
      var hit := ClickOffset(w, (x: string) => false, 1, FitCount(w, fits));
      FitCount(w, fits) == 3 && hit.None? &&
      ClickCursorAsWritten(7, 3, hit) < 7 && ClickCursor(7, 3, hit) == 10
  {
    var w := "abcdefghij"[7..];
    var fits := (x: string) => |x| <= 3;
    assert |w| == 3 && fits(w[..1]) && fits(w[..2]) && fits(w[..3]);
  }

  /**
   * The text box: the content, its letter count, whether it is selected,
   * the first visible letter and the cursor.  A selected box keeps the
   * cursor between the first visible letter and the end of the text.
   */
  class TextBox {
    var content: string
    var letters: nat
    var selected: bool
    var startPos: nat
    var cursorPos: nat

    ghost predicate Valid()
      reads this
    {
      Measured() && (selected ==> startPos <= cursorPos <= letters)
    }

    /** The letter count is the content's and the view starts inside the content. */
    ghost predicate Measured()
      reads this
    {
      letters == |content| && startPos <= letters
    }

    /** TextBox::new: unselected, scrolled to the start, cursor at 0. */
    constructor (data: string)
      ensures Valid() && content == data && !selected && startPos == 0 && cursorPos == 0
    {
      content := data;
      letters := |data|;
      selected := false;
      startPos := 0;
      cursorPos := 0;
    }

    /** get_to_use: the letters from start_pos on that fit in the box. */
    method GetToUse(fits: string -> bool) returns (toUse: nat)
      requires Measured() && fits([])
      ensures toUse == FitCount(content[startPos..], fits)
      ensures startPos + toUse <= letters
    {
      var w := content[startPos..];
      var toEnd := letters - startPos;
      var i := 0;
      while i <= toEnd
        invariant 0 <= i <= toEnd + 1
        invariant i > 0 ==> FitFrom(w, fits, i - 1) == FitFrom(w, fits, 0)
      {
        assert content[startPos..startPos + i] == w[..i];
        if !fits(content[startPos..startPos + i]) {
          assert i > 0 by { assert w[..0] == []; }
          return i - 1;
        }
        i := i + 1;
      }
      return toEnd;
    }

    /**
     * check_clicked: a click outside deselects; a click inside selects and
     * puts the cursor before the first visible letter whose prefix ends
     * right of the mouse, or after the last visible letter.  `leftOf(p)`
     * is whether the mouse is left of the end of the visible prefix p.
     */
    method CheckClicked(pressed: bool, inside: bool, leftOf: string -> bool, fits: string -> bool)
      requires Valid() && fits([])
      modifies this
      ensures Valid() && content == old(content) && letters == old(letters) && startPos == old(startPos)
      ensures !pressed ==> selected == old(selected) && cursorPos == old(cursorPos)
      ensures pressed && !inside ==> !selected && cursorPos == old(cursorPos)
      ensures pressed && inside ==> (selected &&
        var w := content[startPos..];
        var toUse := FitCount(w, fits);
        cursorPos == ClickCursor(startPos, toUse, ClickOffset(w, leftOf, 1, toUse)))
    {
      if !pressed {
        return;
      }
      if !inside {
        selected := false;
        return;
      }
      selected := true;
      var w := content[startPos..];
      var toUse := GetToUse(fits);
      var i := 1;
      while i <= toUse
        invariant 1 <= i <= toUse + 1
        invariant ClickOffset(w, leftOf, 1, toUse) == ClickOffset(w, leftOf, i, toUse)
      {
        assert content[startPos..startPos + i] == w[..i];
        if leftOf(content[startPos..startPos + i]) {
          cursorPos := startPos + i - 1;
          return;
        }
        i := i + 1;
      }
      cursorPos := startPos + toUse;
    }

    /**
     * keyboard_entry.  Nothing happens unless the box is selected and a
     * character, Right or Left is reported.  The arrows move the cursor;
     * Escape or Enter deselect and hand back the content; otherwise the
     * character is typed at the cursor.  Then the view scrolls back if the
     * cursor went before it and forward until the cursor is visible.
     */
    method KeyboardEntry(key: Option<char>, right: bool, left: bool, escape: bool, enter: bool,
                         fits: string -> bool)
      returns (output: Option<string>)
      requires Valid() && fits([])
      modifies this
      ensures Valid()
      ensures !old(selected) || (key.None? && !right && !left) ==>
        output.None? && content == old(content) && letters == old(letters) &&
        selected == old(selected) && startPos == old(startPos) && cursorPos == old(cursorPos)
      ensures old(selected) && (key.Some? || right || left) ==>
        var c1 := ArrowCursor(old(cursorPos), old(letters), right, left);
        var e := if escape || enter || key.None? then Edited(old(content), c1)
                 else TypeChar(old(content), c1, key.value);
        content == e.content && cursorPos == e.cursor &&
        selected == !(escape || enter) &&
        output == (if escape || enter then Some(old(content)) else None) &&
        startPos == ScrollStart(e.content, e.cursor, Unscroll(old(startPos), e.cursor), fits)
    {
      if !selected {
        return None;
      }
      if key.None? && !right && !left {
        return None;
      }
      output := ApplyKeys(key, right, left, escape, enter);
      ScrollToCursor(fits);
    }

    /** The middle of keyboard_entry: the arrows, then Escape/Enter or the typed character. */
    method ApplyKeys(key: Option<char>, right: bool, left: bool, escape: bool, enter: bool)
      returns (output: Option<string>)
      requires Valid() && selected
      modifies this
      ensures letters == |content| && cursorPos <= letters && cursorPos + 2 >= startPos
      ensures startPos == old(startPos)
      ensures var c1 := ArrowCursor(old(cursorPos), old(letters), right, left);
        var e := if escape || enter || key.None? then Edited(old(content), c1)
                 else TypeChar(old(content), c1, key.value);
        content == e.content && cursorPos == e.cursor &&
        selected == !(escape || enter) &&
        output == (if escape || enter then Some(old(content)) else None)
    {
      output := None;
      if right && cursorPos < letters {
        cursorPos := cursorPos + 1;
      }
      if left && cursorPos > 0 {
        cursorPos := cursorPos - 1;
      }
      if escape || enter {
        selected := false;
        output := Some(content);
      } else if key.Some? {
        var e := TypeChar(content, cursorPos, key.value);
        content, cursorPos := e.content, e.cursor;
        letters := |content|;
      }
    }

    /**
     * The end of keyboard_entry: step the view back by up to two letters
     * when the cursor went before it, then forward until the cursor shows.
     */
    method ScrollToCursor(fits: string -> bool)
      requires letters == |content| && cursorPos <= letters && cursorPos + 2 >= startPos && fits([])
      modifies this
      ensures Measured() && startPos <= cursorPos
      ensures content == old(content) && letters == old(letters) && cursorPos == old(cursorPos)
      ensures selected == old(selected)
      ensures startPos == ScrollStart(content, cursorPos, Unscroll(old(startPos), cursorPos), fits)
    {
      if cursorPos < startPos {
        startPos := startPos - 1;
        if startPos > 0 {
          startPos := startPos - 1;
        }
      }
      ghost var from := startPos;
      assert from == Unscroll(old(startPos), cursorPos);
      var toUse := GetToUse(fits);
      while cursorPos - startPos > toUse
        invariant from <= startPos <= cursorPos <= letters == |content|
        invariant content == old(content) && cursorPos == old(cursorPos) && selected == old(selected)
        invariant ScrollStart(content, cursorPos, from, fits) == ScrollStart(content, cursorPos, startPos, fits)
        invariant toUse == FitCount(content[startPos..], fits)
        decreases cursorPos - startPos
      {
        startPos := startPos + 1;
        toUse := GetToUse(fits);
      }
    }
  }

  // ---------------------------------------------------------------
  // carousel and drop-down
  // ---------------------------------------------------------------

  /** The carousel steps through a list of variants with a left and a right arrow. */
  class Carousel {
    var hovering: bool

    constructor ()
      ensures !hovering
    {
      hovering := false;
    }

    /**
     * mouse_interact: an arrow counts only when its move is allowed; a
     * click on it steps the index by one.
     */
    method MouseInteract(index: nat, allowedLeft: bool, allowedRight: bool,
                         overLeft: bool, overRight: bool, pressed: bool)
      returns (r: Option<nat>)
      requires allowedLeft ==> index > 0
      modifies this
      ensures hovering <==> (overLeft && allowedLeft) || (overRight && allowedRight)
      ensures r.Some? <==> hovering && pressed
      ensures r.Some? && overLeft && allowedLeft ==> r.value == index - 1
      ensures r.Some? && !(overLeft && allowedLeft) ==> r.value == index + 1 && allowedRight
    {
      var leftContains := overLeft && allowedLeft;
      var rightContains := overRight && allowedRight;
      if !leftContains && !rightContains {
        hovering := false;
        return None;
      }
      hovering := true;
      if hovering && pressed {
        if leftContains {
          r := Some(index - 1);
        } else {
          r := Some(index + 1);
        }
      } else {
        r := None;
      }
    }

    /**
     * update: the left arrow is allowed past the first variant and the
     * right arrow before the last, so a changed index stays in bounds.
     * The source indexes the variants by `index`.
     */
    method Update(len: nat, index: nat, overLeft: bool, overRight: bool, pressed: bool)
      returns (r: Option<nat>)
      requires index < len
      modifies this
      ensures r.Some? ==> r.value < len && (r.value + 1 == index || r.value == index + 1)
      ensures r.Some? <==> pressed && ((overLeft && index > 0) || (overRight && index < len - 1))
    {
      var allowedLeft := index > 0;
      var allowedRight := index < len - 1;
      r := MouseInteract(index, allowedLeft, allowedRight, overLeft, overRight, pressed);
    }
  }

  /** The variants other than the current one, in order. */
  function NonCurrent<T(==, !new)>(variants: seq<T>, current: T): (r: seq<T>)
    ensures forall x :: x in r <==> x in variants && x != current
    ensures |r| <= |variants|
    ensures current !in variants ==> r == variants
    ensures current in variants && Distinct(variants) ==> |r| == |variants| - 1
  {
    if variants == [] then []
    else
      var rest := NonCurrent(variants[1..], current);
      assert forall x :: x in variants[1..] ==> x in variants;
      assert Distinct(variants) ==> Distinct(variants[1..]);
      if variants[0] == current then
        assert Distinct(variants) ==> current !in variants[1..];
        rest
      else [variants[0]] + rest
  }

  predicate Distinct<T(==)>(s: seq<T>)
  {
    forall i, j :: 0 <= i < j < |s| ==> s[i] != s[j]
  }

  /** The drop-down: whether its list is open, whether it is hovered and the hovered row. */
  class DropDown<T(==, !new)> {
    const variants: seq<T>
    var open: bool
    var hovering: bool
    var hoverIndex: nat

    constructor (vs: seq<T>)
      ensures variants == vs && !open && !hovering && hoverIndex == 0
    {
      variants := vs;
      open := false;
      hovering := false;
      hoverIndex := 0;
    }

    /**
     * interact_open: a click outside closes the list; the closed box
     * hovers row 0 and a click on it closes the list; a click on row k of
     * the open list picks the (k-1)-th variant other than the current one.
     * `row` is the hovered row the source computes from the mouse
     * position.  The source panics when that row is 0 or past the list;
     * the model returns Err there.
     */
    method InteractOpen(current: T, closedContain: bool, openContain: bool, pressed: bool, row: nat)
      returns (r: Result<Option<T>, string>)
      modifies this
      ensures r.Ok? && r.value.Some? ==> r.value.value in variants && r.value.value != current
      ensures r.Ok? && r.value.Some? ==>
        1 <= row <= |NonCurrent(variants, current)| && r.value.value == NonCurrent(variants, current)[row - 1]
      ensures r.Err? <==> (!closedContain && openContain && pressed &&
        (row == 0 || row - 1 >= |NonCurrent(variants, current)|))
      ensures r.Ok? && r.value.Some? <==> !closedContain && openContain && pressed && !r.Err?
      ensures open == (old(open) && !(pressed && (closedContain || !openContain)))
      ensures hovering == (closedContain || openContain)
      ensures hoverIndex == if closedContain then 0 else if openContain then row else old(hoverIndex)
    {
      if !(closedContain || openContain) {
        hovering := false;
        if pressed {
          open := false;
        }
        return Ok(None);
      }
      hovering := true;
      if closedContain {
        hoverIndex := 0;
      } else {
        hoverIndex := row;
      }
      if !pressed {
        return Ok(None);
      }
      if closedContain {
        open := false;
        return Ok(None);
      }
      var nonCurrent := NonCurrent(variants, current);
      if hoverIndex == 0 || hoverIndex - 1 >= |nonCurrent| {
        return Err("index out of bounds");
      }
      r := Ok(Some(nonCurrent[hoverIndex - 1]));
    }
  }

  /**
   * With distinct variants that include the current one, any row from 1
   * to one less than the number of variants picks a variant.
   */
  lemma OpenRowsInRange<T(!new)>(variants: seq<T>, current: T, row: nat)
    requires current in variants && Distinct(variants) && 1 <= row < |variants|
    ensures row - 1 < |NonCurrent(variants, current)|
  {
  }

  // ---------------------------------------------------------------
  // screenshot resolutions
  // ---------------------------------------------------------------

  datatype ScreenshotResolution = R1080p | R4k | R8k | Custom

  /** to_screen_dimensions: the presets have fixed sizes; Custom takes the entered width and height. */
  function ToScreenDimensions(res: ScreenshotResolution, width: nat, height: nat): (d: Render.ScreenDimensions)
    ensures res.Custom? ==> d == Render.ScreenDimensions(width, height)
    ensures !res.Custom? ==> d.x * 9 == d.y * 16 && d.y >= 1080 && d.y % 1080 == 0
    ensures !res.Custom? ==> Render.AsString(d) != Render.SizeString(d)
  {
    match res
    case R1080p => Render.DIMS_1080P
    case R4k => Render.DIMS_4K
    case R8k => Render.DIMS_8K
    case Custom => Render.ScreenDimensions(width, height)
  }

  /** Each preset doubles both sides of the previous one. */
  lemma PresetsDouble(w: nat, h: nat)
    ensures var a, b, c := ToScreenDimensions(R1080p, w, h), ToScreenDimensions(R4k, w, h), ToScreenDimensions(R8k, w, h);
      b.x == 2 * a.x && b.y == 2 * a.y && c.x == 2 * b.x && c.y == 2 * b.y
  {
  }

  // ---------------------------------------------------------------
  // dropping a layer on the layers page
  // ---------------------------------------------------------------

  /** One row of the layers page; its widgets are not modelled, `id` tells rows apart. */
  datatype LayerManager = LayerManager(id: nat)

  /** Swap two entries of a sequence (Vec::swap). */
  function Swap<T>(s: seq<T>, i: nat, j: nat): (r: seq<T>)
    requires i < |s| && j < |s|
    ensures |r| == |s| && r[i] == s[j] && r[j] == s[i]
    ensures forall k :: 0 <= k < |s| && k != i && k != j ==> r[k] == s[k]
  {
    s[i := s[j]][j := s[i]]
  }

  /** Moving an element onto its own place changes nothing. */
  lemma ReorderSame<T>(s: seq<T>, i: nat)
    requires i < |s|
    ensures Reorder(s, i, i) == s
  {
    InsertRemoveInverse(s, i, s[i]);
  }

  /**
   * One turn of the swap loop moving down: with the target moved back
   * from p to r, swapping r and p gives the target moved back from p - 1.
   */
  lemma SwapStepDown<T>(t: seq<T>, r: nat, p: nat)
    requires r < p < |t|
    ensures Swap(Reorder(t, p, r), r, p) == Reorder(t, p - 1, r)
  {
    var a := Swap(Reorder(t, p, r), r, p);
    var b := Reorder(t, p - 1, r);
    var ra, rb := Remove(t, p), Remove(t, p - 1);
    forall k | 0 <= k < |a|
      ensures a[k] == b[k]
    {
      if k < r {
        assert a[k] == ra[k] == t[k] == rb[k] == b[k];
      } else if k == r {
        assert a[k] == ra[p - 1] == t[p - 1] == b[k];
      } else if k < p {
        assert a[k] == ra[k - 1] == t[k - 1] == rb[k - 1] == b[k];
      } else if k == p {
        assert a[k] == t[p] == rb[p - 1] == b[k];
      } else {
        assert a[k] == ra[k - 1] == t[k] == rb[k - 1] == b[k];
      }
    }
  }

  /**
   * One turn of the swap loop moving up: with the target moved back
   * from p to r, swapping r and p gives the target moved back from p + 1.
   */
  lemma SwapStepUp<T>(t: seq<T>, r: nat, p: nat)
    requires p < r < |t|
    ensures Swap(Reorder(t, p, r), r, p) == Reorder(t, p + 1, r)
  {
    var a := Swap(Reorder(t, p, r), r, p);
    var b := Reorder(t, p + 1, r);
    var ra, rb := Remove(t, p), Remove(t, p + 1);
    forall k | 0 <= k < |a|
      ensures a[k] == b[k]
    {
      if k < p {
        assert a[k] == ra[k] == t[k] == rb[k] == b[k];
      } else if k == p {
        assert a[k] == t[p] == rb[p] == b[k];
      } else if k < r {
        assert a[k] == ra[k] == t[k + 1] == rb[k] == b[k];
      } else if k == r {
        assert a[k] == ra[p] == t[p + 1] == b[k];
      } else {
        assert a[k] == ra[k - 1] == t[k] == rb[k - 1] == b[k];
      }
    }
  }

  /**
   * One turn of the swap loop of release: swap the dropped row with the
   * row at `ptr`, then step `ptr` towards the dropped row.  The rows are
   * the target order with the dropped row moved back from `ptr`.
   */
  method SwapTowards<T>(ghost target: seq<T>, rows: seq<T>, releaseI: nat, dest: nat, ptr: nat)
    returns (rows': seq<T>, ptr': nat)
    requires releaseI < |target| && dest < |target| && ptr != releaseI
    requires if releaseI < dest then releaseI <= ptr <= dest else dest <= ptr <= releaseI
    requires rows == Reorder(target, ptr, releaseI)
    ensures ptr' == if releaseI < dest then ptr - 1 else ptr + 1
    ensures rows' == Reorder(target, ptr', releaseI)
  {
    if releaseI < dest {
      SwapStepDown(target, releaseI, ptr);
    } else {
      SwapStepUp(target, releaseI, ptr);
    }
    rows' := Swap(rows, releaseI, ptr);
    if releaseI < dest {
      ptr' := ptr - 1;
    } else {
      ptr' := ptr + 1;
    }
  }

  /** Pair up two sequences of equal length. */
  function Zip<A, B>(a: seq<A>, b: seq<B>): (z: seq<(A, B)>)
    requires |a| == |b|
    ensures |z| == |a| && forall k :: 0 <= k < |z| ==> z[k] == (a[k], b[k])
  {
    seq(|a|, k requires 0 <= k < |a| => (a[k], b[k]))
  }

  /** Reordering two aligned sequences the same way keeps their entries paired. */
  lemma ReorderZip<A, B>(a: seq<A>, b: seq<B>, take: nat, dest: nat)
    requires |a| == |b| && take < |a| && dest < |a|
    ensures Zip(Reorder(a, take, dest), Reorder(b, take, dest)) == Reorder(Zip(a, b), take, dest)
  {
    ReorderIndices(a, take, dest);
    ReorderIndices(b, take, dest);
    ReorderIndices(Zip(a, b), take, dest);
  }

  /** The layers page: one manager row per layer, in the layers' order. */
  class LayersMenu {
    var managers: seq<LayerManager>

    /** LayersMenu::new: one row per layer of the stack, row i created for layer i. */
    constructor (layers: seq<Layer>)
      ensures |managers| == |layers|
      ensures forall i :: 0 <= i < |managers| ==> managers[i] == LayerManager(i)
    {
      var ms: seq<LayerManager> := [];
      var i := 0;
      while i < |layers|
        invariant i <= |layers| && |ms| == i
        invariant forall k :: 0 <= k < i ==> ms[k] == LayerManager(k)
      {
        ms := ms + [LayerManager(i)];
        i := i + 1;
      }
      managers := ms;
    }

    /**
     * release: drop the layer held at `releaseI` into slot `dragI`
     * (0..len, from the mouse).  Nothing happens for its own slot or for
     * a slot its position constraint refuses; otherwise the layer list is
     * reordered and the swap loop moves the manager rows the same way.
     */
    method Release(releaseI: nat, dragI: nat, vis: LayerStack.Layers)
      requires releaseI < |vis.layers| && dragI <= |vis.layers| && |managers| == |vis.layers|
      requires ValidConfig(vis.layers) && LayerConstraints.HasPlacedConstraints(vis.layers)
      modifies this, vis
      ensures |managers| == |vis.layers|
      ensures var moved := dragI != releaseI && PositionAllowed(old(vis.layers)[releaseI], dragI);
        var dest := SlotDest(releaseI, dragI);
        (moved ==> (dest < |old(managers)| &&
          vis.layers == Reorder(old(vis.layers), releaseI, dest) &&
          managers == Reorder(old(managers), releaseI, dest) &&
          ValidConfig(vis.layers) && vis.Valid() &&
          vis.arbPrecision == old(vis.arbPrecision))) &&
        (!moved ==> (vis.layers == old(vis.layers) && managers == old(managers) &&
          vis.implementors == old(vis.implementors) && vis.implementorMap == old(vis.implementorMap) &&
          vis.arbPrecision == old(vis.arbPrecision)))
    {
      var dest := dragI;
      if dest == releaseI {
        return;
      }
      if !PositionAllowed(vis.layers[releaseI], dest) {
        return;
      }
      LayerConstraints.MoveKeepsValid(vis.layers, releaseI, dest);
      if dest > releaseI {
        dest := dest - 1;
      }
      vis.ReorderLayer(releaseI, dest);
      SwapManagers(releaseI, dest);
    }

    /**
     * The swap loop of release: swapping the dropped row with each row
     * from the destination back towards it moves it to the destination.
     */
    method SwapManagers(releaseI: nat, dest: nat)
      requires releaseI < |managers| && dest < |managers|
      modifies this
      ensures managers == Reorder(old(managers), releaseI, dest)
    {
      var rows := managers;
      ghost var target := Reorder(rows, releaseI, dest);
      ReorderInverse(rows, releaseI, dest);
      var ptr := dest;
      while ptr != releaseI
        invariant |rows| == |target|
        invariant if releaseI < dest then releaseI <= ptr <= dest else dest <= ptr <= releaseI
        invariant rows == Reorder(target, ptr, releaseI)
        decreases if releaseI < dest then ptr - releaseI else releaseI - ptr
      {
        rows, ptr := SwapTowards(target, rows, releaseI, dest, ptr);
      }
      ReorderSame(target, releaseI);
      managers := rows;
    }
  }

  /**
   * After a drop the manager rows and the layers are still paired as
   * before: the pair of the dropped row moves to the new slot and every
   * other pair keeps its relative order.
   */
  lemma ReleaseKeepsRowsPaired(managers: seq<LayerManager>, layers: seq<Layer>, releaseI: nat, dragI: nat)
    requires |managers| == |layers| && releaseI < |layers| && dragI <= |layers| && dragI != releaseI
    ensures SlotDest(releaseI, dragI) < |layers|
    ensures var d := SlotDest(releaseI, dragI);
      Zip(Reorder(managers, releaseI, d), Reorder(layers, releaseI, d)) == Reorder(Zip(managers, layers), releaseI, d)
  {
    ReorderZip(managers, layers, releaseI, SlotDest(releaseI, dragI));
  }
}
