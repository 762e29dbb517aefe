/**
 * The draggable divider of the collaborative playground
 * (`mouseMoveHandler` in components/LeftPane.tsx and components/Editor.tsx,
 * which are identical): while the width is within [6, W − 240], W being the
 * window's inner width, a mouse move shifts it by `movementX`; a width
 * outside that range snaps back to W − 240 when it is above half the
 * window and to 6 otherwise, ignoring the move.
 *
 * `window.innerWidth / 2` is not always a whole number, so widths are `real`.
 */
module Splitter {

  predicate InRange(width: real, innerWidth: int)
  {
    6.0 <= width <= (innerWidth - 240) as real
  }

  /** The `setResize` updater. */
  function Resize(width: real, movementX: int, innerWidth: int): real
  {
    if InRange(width, innerWidth) then width + movementX as real
    else if width > innerWidth as real / 2.0 then (innerWidth - 240) as real
    else 6.0
  }

  /** Within range the width follows the mouse. */
  lemma InRangeFollowsMouse(width: real, movementX: int, innerWidth: int)
    requires InRange(width, innerWidth)
    ensures Resize(width, movementX, innerWidth) == width + movementX as real
  {
  }

  /** Out of range the move is ignored and the width snaps to the nearer bound's side. */
  lemma OutOfRangeSnaps(width: real, movementX: int, innerWidth: int)
    requires !InRange(width, innerWidth)
    ensures width > innerWidth as real / 2.0 ==> Resize(width, movementX, innerWidth) == (innerWidth - 240) as real
    ensures width <= innerWidth as real / 2.0 ==> Resize(width, movementX, innerWidth) == 6.0
  {
  }

  /** On a window at least 246 wide, a snap always lands inside the range. */
  lemma SnapLandsInRange(width: real, movementX: int, innerWidth: int)
    requires innerWidth >= 246
    requires !InRange(width, innerWidth)
    ensures InRange(Resize(width, movementX, innerWidth), innerWidth)
  {
  }

  /** A step from inside the range leaves it by at most the size of the move. */
  lemma StepOvershootBounded(width: real, movementX: int, innerWidth: int)
    requires InRange(width, innerWidth)
    ensures var r := Resize(width, movementX, innerWidth);
      6.0 - Abs(movementX) as real <= r <= (innerWidth - 240) as real + Abs(movementX) as real
  {
  }

  function Abs(x: int): nat
  {
    if x < 0 then -x else x
  }

  /**
   * On a window at least 246 wide, two moves in a row never leave the width
   * out of range twice: after any move the next one starts in range or
   * lands in range.
   */
  lemma NeverOutTwice(width: real, dx1: int, dx2: int, innerWidth: int)
    requires innerWidth >= 246
    ensures var w1 := Resize(width, dx1, innerWidth);
      InRange(w1, innerWidth) || InRange(Resize(w1, dx2, innerWidth), innerWidth)
  {
    var w1 := Resize(width, dx1, innerWidth);
    if !InRange(w1, innerWidth) {
      SnapLandsInRange(w1, dx2, innerWidth);
    }
  }

  /**
   * The divider: its width, the overlay the parent shows while dragging,
   * and whether the mousemove listener is attached.
   */
  class Divider {
    var width: real
    var showOverlay: bool
    var dragging: bool

    /** Mounting: the width becomes half the window (`setResize(window.innerWidth / 2)`). */
    constructor (innerWidth: int, showOverlay: bool)
      ensures width == innerWidth as real / 2.0
      ensures this.showOverlay == showOverlay && !dragging
    {
      width := innerWidth as real / 2.0;
      this.showOverlay := showOverlay;
      dragging := false;
    }

    /** `mouseDownHandler`: listeners attached, overlay shown. */
    method MouseDown()
      modifies this
      ensures dragging && showOverlay && width == old(width)
    {
      dragging := true;
      showOverlay := true;
    }

    /** A mouse move reaches the updater only while the listener is attached. */
    method MouseMove(movementX: int, innerWidth: int)
      modifies this
      ensures width == if old(dragging) then Resize(old(width), movementX, innerWidth) else old(width)
      ensures dragging == old(dragging) && showOverlay == old(showOverlay)
    {
      if dragging {
        width := Resize(width, movementX, innerWidth);
      }
    }

    /** `mouseUpHandler`: the move listener is removed and the overlay hidden. */
    method MouseUp()
      modifies this
      ensures !dragging && !showOverlay && width == old(width)
    {
      dragging := false;
      showOverlay := false;
    }
  }
}
