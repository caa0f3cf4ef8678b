/** The drag-selection logic of the full-screen overlay: normalising two points to a
    rectangle, and the form whose mouse handlers track the drag and, on release,
    request a capture of the selected region and close the overlay. Rendering, the
    capture itself and closing the window are side effects outside the model; the
    form records them, in order, in a ghost event log. */
module SelectionOverlay {
  import opened CSharpInt
  import opened Drawing

  /** `GetRectangle`: the origin is the component-wise minimum of the two points and
      the size is `Math.Abs` of the unchecked coordinate differences, so the result
      is an `OverflowException` when `Math.Abs` is handed `int.MinValue`. A produced
      rectangle has its origin at one of the points on each axis, never beyond the
      other, and a non-negative width and height. */
  function GetRectangle(p1: Point, p2: Point): (r: Result<Rectangle>)
    ensures r.Ok? ==>
      r.value.x <= p1.x && r.value.x <= p2.x && (r.value.x == p1.x || r.value.x == p2.x) &&
      r.value.y <= p1.y && r.value.y <= p2.y && (r.value.y == p1.y || r.value.y == p2.y) &&
      r.value.width >= 0 && r.value.height >= 0
  {
    var width :- Abs32(Sub32(p2.x, p1.x));
    var height :- Abs32(Sub32(p2.y, p1.y));
    Ok(Rectangle(Min(p1.x, p2.x), Min(p1.y, p2.y), width, height))
  }

  /** The true distance between two coordinates; it may exceed the `int` range. */
  function Distance(a: int, b: int): (d: nat) {
    if a <= b then b - a else a - b
  }

  function Max(a: int, b: int): (m: int) {
    if a <= b then b else a
  }

  /** The true distances between the two points fit in an `int` without reaching
      `int.MinValue`'s magnitude, so neither the subtraction nor `Math.Abs` goes
      wrong. */
  predicate DistancesFit(p1: Point, p2: Point) {
    Distance(p1.x, p2.x) < 0x8000_0000 && Distance(p1.y, p2.y) < 0x8000_0000
  }

  /** One side of the rectangle: `Math.Abs(b - a)` with wrapping subtraction throws
      exactly when the distance is 2^31, is the distance when that is below 2^31,
      and is the distance's complement to 2^32 above it. */
  lemma AbsDifference(a: Int32, b: Int32)
    ensures Abs32(Sub32(b, a)).Err? <==> Distance(a, b) == 0x8000_0000
    ensures Abs32(Sub32(b, a)).Ok? ==>
      Abs32(Sub32(b, a)).value ==
        if Distance(a, b) < 0x8000_0000 then Distance(a, b) else Modulus - Distance(a, b)
  {
  }

  /** `GetRectangle` throws exactly when one of the two distances is 2^31. */
  lemma GetRectangleOverflow(p1: Point, p2: Point)
    ensures GetRectangle(p1, p2).Err? <==>
      Distance(p1.x, p2.x) == 0x8000_0000 || Distance(p1.y, p2.y) == 0x8000_0000
  {
  }

  /** The size of the produced rectangle: the true distances while they fit, their
      complements to 2^32 once the subtraction has wrapped around. */
  lemma GetRectangleSize(p1: Point, p2: Point)
    ensures GetRectangle(p1, p2).Ok? ==>
      var r := GetRectangle(p1, p2).value;
      var dx, dy := Distance(p1.x, p2.x), Distance(p1.y, p2.y);
      r.width == (if dx < 0x8000_0000 then dx else Modulus - dx) &&
      r.height == (if dy < 0x8000_0000 then dy else Modulus - dy)
  {
  }

  /** The order of the two points does not matter, overflow included. */
  lemma GetRectangleSymmetric(p1: Point, p2: Point)
    ensures GetRectangle(p1, p2) == GetRectangle(p2, p1)
  {
  }

  /** While the distances fit, a rectangle is produced, it reaches from the smaller
      to the larger coordinate on each axis, and the two points are its opposite
      corners. */
  lemma GetRectangleSpans(p1: Point, p2: Point)
    requires DistancesFit(p1, p2)
    ensures GetRectangle(p1, p2).Ok?
    ensures var r := GetRectangle(p1, p2).value;
      r.x + r.width == Max(p1.x, p2.x) && r.y + r.height == Max(p1.y, p2.y) &&
      OppositeCorners(r, p1, p2)
  {
  }

  /** While the distances fit, the result is the smallest rectangle touching both
      points: it touches them, and every rectangle that touches both encloses it. */
  lemma GetRectangleSmallest(p1: Point, p2: Point, q: Rectangle)
    requires DistancesFit(p1, p2)
    ensures GetRectangle(p1, p2).Ok?
    ensures Touches(GetRectangle(p1, p2).value, p1) && Touches(GetRectangle(p1, p2).value, p2)
    ensures Touches(q, p1) && Touches(q, p2) ==> Encloses(q, GetRectangle(p1, p2).value)
  {
  }

  /** Points whose coordinates lie in [-2^30, 2^30), which covers any real virtual
      screen, always satisfy `DistancesFit`. */
  lemma ScreenCoordinatesFit(p1: Point, p2: Point)
    requires -0x4000_0000 <= p1.x < 0x4000_0000 && -0x4000_0000 <= p1.y < 0x4000_0000
    requires -0x4000_0000 <= p2.x < 0x4000_0000 && -0x4000_0000 <= p2.y < 0x4000_0000
    ensures DistancesFit(p1, p2)
  {
  }

  /** The capture test of `OnMouseUp`: a produced rectangle has positive width and
      height exactly when the two points differ in both coordinates. A wrapped
      difference is never zero, so this holds beyond `DistancesFit` too. */
  lemma PositiveAreaIff(p1: Point, p2: Point)
    ensures GetRectangle(p1, p2).Ok? ==>
      var r := GetRectangle(p1, p2).value;
      (r.width > 0 && r.height > 0 <==> p1.x != p2.x && p1.y != p2.y)
  {
  }

  /** What the overlay's side effects would be, in order. */
  datatype Event =
    | Redrawn(rect: Rectangle)            // `DrawSelection` painted the outline of `rect`
    | CaptureRequested(rect: Rectangle)   // `CaptureScreen(rect)` was called
    | Closed                              // `Close()` was called
    | Faulted(error: Error)               // an exception escaped the event handler

  /** The log entry of one `DrawSelection` call for the given drag: a single entry,
      the repaint of a rectangle exactly when `GetRectangle` produces one and the
      fault otherwise; a repaint never captures or closes. */
  function RedrawEvents(start: Point, end: Point): (evs: seq<Event>)
    ensures |evs| == 1 && (evs[0].Redrawn? || evs[0].Faulted?)
    ensures evs[0].Redrawn? <==> GetRectangle(start, end).Ok?
    ensures GetRectangle(start, end).Ok? ==> evs == [Redrawn(GetRectangle(start, end).value)]
    ensures GetRectangle(start, end).Err? ==> evs == [Faulted(OverflowException)]
    ensures CaptureCount(evs) == 0
  {
    match GetRectangle(start, end)
    case Ok(r) => [Redrawn(r)]
    case Err(e) => [Faulted(e)]
  }

  /** What the overlay last showed is what gets captured: when a release lands where
      the last move of the drag did, any capture it requests is of exactly the
      rectangle that move repainted. */
  lemma CaptureMatchesLastRedraw(start: Point, end: Point)
    ensures var up := MouseUpEvents(start, end);
      forall i :: 0 <= i < |up| && up[i].CaptureRequested? ==>
        RedrawEvents(start, end) == [Redrawn(up[i].rect)]
  {
  }

  /** The log entries of one `OnMouseUp` call for the given drag: at most one capture
      request, followed by `Closed` exactly when `GetRectangle` produces a
      rectangle; never a repaint. */
  function MouseUpEvents(start: Point, end: Point): (evs: seq<Event>)
    ensures 1 <= |evs| <= 2
    ensures evs[|evs| - 1] == Closed <==> GetRectangle(start, end).Ok?
    ensures |evs| == 2 ==> evs[0].CaptureRequested?
    ensures forall i :: 0 <= i < |evs| ==> !evs[i].Redrawn?
  {
    match GetRectangle(start, end)
    case Err(e) => [Faulted(e)]
    case Ok(r) => (if r.width > 0 && r.height > 0 then [CaptureRequested(r)] else []) + [Closed]
  }

  /** How many captures a log requests. */
  function CaptureCount(events: seq<Event>): (n: nat) {
    if events == [] then 0
    else (if events[0].CaptureRequested? then 1 else 0) + CaptureCount(events[1..])
  }

  /** The captures of a log are those of its two halves, so a count proved for the
      entries one handler appends carries over to the whole log. */
  lemma {:induction false} CaptureCountAppend(a: seq<Event>, b: seq<Event>)
    ensures CaptureCount(a + b) == CaptureCount(a) + CaptureCount(b)
  {
    if a == [] {
      assert a + b == b;
    } else {
      assert (a + b)[1..] == a[1..] + b;
      CaptureCountAppend(a[1..], b);
    }
  }

  /** A release requests exactly one capture, of the normalised rectangle, when the
      points differ in both coordinates and none otherwise, and then closes the
      overlay; only an `OverflowException` from `GetRectangle` prevents both. */
  lemma MouseUpCapturesOnceIff(start: Point, end: Point)
    ensures GetRectangle(start, end).Err? ==>
      MouseUpEvents(start, end) == [Faulted(OverflowException)]
    ensures GetRectangle(start, end).Ok? ==>
      var evs := MouseUpEvents(start, end);
      evs[|evs| - 1] == Closed &&
      CaptureCount(evs) == (if start.x != end.x && start.y != end.y then 1 else 0) &&
      forall i :: 0 <= i < |evs| && evs[i].CaptureRequested? ==>
        evs[i].rect == GetRectangle(start, end).value &&
        evs[i].rect.width > 0 && evs[i].rect.height > 0
  {
    PositiveAreaIff(start, end);
    var evs := MouseUpEvents(start, end);
    if GetRectangle(start, end).Ok? {
      var r := GetRectangle(start, end).value;
      if r.width > 0 && r.height > 0 {
        assert evs == [CaptureRequested(r), Closed];
        assert evs[1..] == [Closed] && evs[1..][1..] == [];
        assert CaptureCount([Closed]) == 0;
      } else {
        assert evs == [Closed];
        assert evs[1..] == [];
      }
    }
  }

  /** The overlay form: the drag's two end points and whether a drag is under way. */
  class ScreenCaptureSelectionForm {
    var start: Point
    var end: Point
    var isSelecting: bool
    /** The side effects performed so far, oldest first. */
    ghost var events: seq<Event>

    /** A new overlay: both points are `Point.Empty` and no drag is under way. */
    constructor ()
      ensures start == EmptyPoint && end == EmptyPoint && !isSelecting && events == []
    {
      start := EmptyPoint;
      end := EmptyPoint;
      isSelecting := false;
      events := [];
    }

    /** Pressing a button starts a drag at the pointer. */
    method OnMouseDown(location: Point)
      modifies this
      ensures start == location && isSelecting
      ensures end == old(end) && events == old(events)
    {
      start := location;
      isSelecting := true;
    }

    /** Moving the pointer during a drag moves the end point and repaints the
        selection; outside a drag it changes nothing. */
    method OnMouseMove(location: Point)
      modifies this
      ensures start == old(start) && isSelecting == old(isSelecting)
      ensures old(isSelecting) ==>
        end == location && events == old(events) + RedrawEvents(start, location)
      ensures !old(isSelecting) ==> end == old(end) && events == old(events)
    {
      if isSelecting {
        end := location;
        DrawSelection();
      }
    }

    /** Releasing the button ends the drag at the pointer, requests a capture when the
        normalised rectangle has positive width and height, and closes the overlay. */
    method OnMouseUp(location: Point)
      modifies this
      ensures end == location && !isSelecting && start == old(start)
      ensures events == old(events) + MouseUpEvents(start, location)
      ensures CaptureCount(events) == old(CaptureCount(events)) + CaptureCount(MouseUpEvents(start, location))
    {
      CaptureCountAppend(events, MouseUpEvents(start, location));
      end := location;
      isSelecting := false;
      var rect := GetRectangle(start, end);
      match rect
      case Err(e) =>
        events := events + [Faulted(e)];
      case Ok(r) =>
        if r.width > 0 && r.height > 0 {
          CaptureScreen(r);
        }
        Close();
    }

    /** Paints the outline of the current selection; only the rectangle painted is
        modelled. */
    method DrawSelection()
      modifies this`events
      ensures events == old(events) + RedrawEvents(start, end)
    {
      var rect := GetRectangle(start, end);
      match rect
      case Err(e) =>
        events := events + [Faulted(e)];
      case Ok(r) =>
        events := events + [Redrawn(r)];
    }

    /** Copies the selected region of the screen to the clipboard; only the request is
        modelled. Its one caller has already checked the size. */
    method CaptureScreen(rect: Rectangle)
      requires rect.width > 0 && rect.height > 0
      modifies this`events
      ensures events == old(events) + [CaptureRequested(rect)]
    {
      events := events + [CaptureRequested(rect)];
    }

    /** Dismisses the overlay. */
    method Close()
      modifies this`events
      ensures events == old(events) + [Closed]
    {
      events := events + [Closed];
    }
  }

  /** A drag from (100,100) to (50,300) captures the rectangle with origin (50,100),
      width 50 and height 200, and closes the overlay. */
  method DragScenario() {
    var form := new ScreenCaptureSelectionForm();
    form.OnMouseDown(Point(100, 100));
    form.OnMouseMove(Point(50, 300));
    form.OnMouseUp(Point(50, 300));
    var rect := Rectangle(50, 100, 50, 200);
    assert form.events == [Redrawn(rect), CaptureRequested(rect), Closed];
  }

  /** For any press and release that `GetRectangle` can measure, the whole log of a
      new overlay holds one capture exactly when the points differ on both axes. */
  method PressReleaseScenario(p: Point, q: Point) {
    var form := new ScreenCaptureSelectionForm();
    form.OnMouseDown(p);
    form.OnMouseUp(q);
    MouseUpCapturesOnceIff(p, q);
    assert GetRectangle(p, q).Ok? ==>
      CaptureCount(form.events) == if p.x != q.x && p.y != q.y then 1 else 0;
  }

  /** A click at (10,10) without movement captures nothing and closes the overlay. */
  method ClickScenario() {
    var form := new ScreenCaptureSelectionForm();
    form.OnMouseDown(Point(10, 10));
    form.OnMouseUp(Point(10, 10));
    assert form.events == [Closed];
  }

  /** A release with no press before it measures from `Point.Empty`. */
  method ReleaseWithoutPressScenario() {
    var form := new ScreenCaptureSelectionForm();
    form.OnMouseMove(Point(30, 40));
    form.OnMouseUp(Point(30, 40));
    assert form.events == [CaptureRequested(Rectangle(0, 0, 30, 40)), Closed];
  }
}
