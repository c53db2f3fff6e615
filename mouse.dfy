/**
 * The mouse controller. The operating system's cursor and button injection
 * is modelled as a sink that records every call it receives, in order;
 * each controller method is specified by the event it appends.
 */
module MouseControl {

  datatype Button = Left | Right

  /** One call received by the operating system's input layer. */
  datatype Event =
    | MoveTo(x: int, y: int)
    | Click(button: Button)
    | DoubleClick(button: Button)
    | Scroll(clicks: int)
    | DragBy(dx: int, dy: int)

  const DefaultScrollAmount: int := 3

  /** `max(lo, min(v, hi))`. */
  function Clamp(v: int, lo: int, hi: int): (r: int)
    ensures lo <= hi ==> lo <= r <= hi
    ensures lo <= v <= hi ==> r == v
    ensures lo <= hi && v < lo ==> r == lo
    ensures lo <= hi && hi < v ==> r == hi
    ensures hi < lo ==> r == lo
  {
    var upper := if v < hi then v else hi;
    if lo < upper then upper else lo
  }

  /** Clamping twice is clamping once. */
  lemma ClampIdempotent(v: int, lo: int, hi: int)
    ensures Clamp(Clamp(v, lo, hi), lo, hi) == Clamp(v, lo, hi)
  {
  }

  /** The cursor move the controller issues for a requested position on a screen of the given size. */
  function CursorMove(x: int, y: int, width: int, height: int): (e: Event)
    ensures e.MoveTo?
    ensures width >= 1 ==> 0 <= e.x <= width - 1
    ensures height >= 1 ==> 0 <= e.y <= height - 1
    ensures 0 <= x < width ==> e.x == x
    ensures 0 <= y < height ==> e.y == y
  {
    MoveTo(Clamp(x, 0, width - 1), Clamp(y, 0, height - 1))
  }

  class MouseController {
    /** The screen size, fixed when the controller is made. */
    const screenWidth: int
    const screenHeight: int
    /** Every call the controller has made on the operating system, oldest first. */
    var sent: seq<Event>

    /** `width` and `height` are the resolution the display reports. */
    constructor (width: int, height: int)
      ensures screenWidth == width && screenHeight == height
      ensures sent == []
    {
      screenWidth, screenHeight := width, height;
      sent := [];
    }

    method GetScreenSize() returns (width: int, height: int)
      ensures width == screenWidth && height == screenHeight
    {
      width, height := screenWidth, screenHeight;
    }

    /** Move the cursor, keeping it on the screen. */
    method MoveMouse(x: int, y: int)
      modifies this
      ensures sent == old(sent) + [CursorMove(x, y, screenWidth, screenHeight)]
    {
      var cx := Clamp(x, 0, screenWidth - 1);
      var cy := Clamp(y, 0, screenHeight - 1);
      sent := sent + [MoveTo(cx, cy)];
    }

    method LeftClick()
      modifies this
      ensures sent == old(sent) + [Click(Left)]
    {
      sent := sent + [Click(Left)];
    }

    method RightClick()
      modifies this
      ensures sent == old(sent) + [Click(Right)]
    {
      sent := sent + [Click(Right)];
    }

    method DoubleLeftClick()
      modifies this
      ensures sent == old(sent) + [DoubleClick(Left)]
    {
      sent := sent + [DoubleClick(Left)];
    }

    /** A positive scroll amount scrolls up. */
    method ScrollUp(amount: int := DefaultScrollAmount)
      modifies this
      ensures sent == old(sent) + [Scroll(amount)]
    {
      sent := sent + [Scroll(amount)];
    }

    /** Scrolling down sends the negated amount. */
    method ScrollDown(amount: int := DefaultScrollAmount)
      modifies this
      ensures sent == old(sent) + [Scroll(-amount)]
    {
      sent := sent + [Scroll(-amount)];
    }

    /** A drag is passed on as one displacement relative to the current cursor. */
    method Drag(startX: int, startY: int, endX: int, endY: int)
      modifies this
      ensures sent == old(sent) + [DragBy(endX - startX, endY - startY)]
      ensures startX + sent[|sent| - 1].dx == endX && startY + sent[|sent| - 1].dy == endY
    {
      sent := sent + [DragBy(endX - startX, endY - startY)];
    }
  }
}
