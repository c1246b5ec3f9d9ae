/** The mouse-driven ROI selection state machine, as pure transitions over the
    four fields of the node's ROI context that the pointer handlers read and
    write. The class in WebRoi.dfy performs these transitions in place; its
    methods are proved to agree with the functions here. */
module Selection {
  import opened Wrappers
  import opened Geometry

  /** Both extents of a drag must exceed this many viewport pixels to commit. */
  const MinDragExtent: real := 10.0

  /** `renderRect`: the viewport of the last drawn frame, in node pixels.
      `dragStart`, `dragCurrent`: the drag points, in viewport-relative pixels.
      `selection`: the committed region, as fractions of the viewport. */
  datatype RoiState = RoiState(
    renderRect: Option<Rect>,
    dragStart: Option<Point>,
    dragCurrent: Option<Point>,
    selection: Option<Rect>)

  /** The context as the node creates it: nothing laid out, selected or dragged. */
  const Initial: RoiState := RoiState(None, None, None, None)

  datatype Phase = Idle | Dragging | Committed

  function PhaseOf(s: RoiState): Phase {
    if s.dragStart.Some? then Dragging
    else if s.selection.Some? then Committed
    else Idle
  }

  /** What every handler keeps: both drag points or neither; a drag only over a
      laid-out, non-empty viewport; no committed selection while dragging. */
  predicate WellFormed(s: RoiState) {
    && (s.dragStart.Some? <==> s.dragCurrent.Some?)
    && (s.dragStart.Some? ==> s.renderRect.Some? && s.selection.None?)
    && (s.renderRect.Some? ==> 0.0 < s.renderRect.value.w && 0.0 < s.renderRect.value.h)
  }

  /** Both drag points lie within the current viewport. */
  predicate DragInside(s: RoiState)
    requires WellFormed(s)
  {
    s.dragStart.Some? ==>
      var r := s.renderRect.value;
      InBox(s.dragStart.value, r.w, r.h) && InBox(s.dragCurrent.value, r.w, r.h)
  }

  /** The drag stays inside the viewport and the selection inside the frame. */
  predicate Consistent(s: RoiState) {
    && WellFormed(s)
    && DragInside(s)
    && (s.selection.Some? ==> UnitRect(s.selection.value))
  }

  /** The rectangle spanned by the two drag points, in viewport pixels. */
  function DragRect(s: RoiState): Rect
    requires s.dragStart.Some? && s.dragCurrent.Some?
  {
    Span(s.dragStart.value, s.dragCurrent.value)
  }

  /** Whether a press at `pos` starts a drag (and is captured by the node). */
  predicate Captures(s: RoiState, pos: Point) {
    s.renderRect.Some? && ContainsInclusive(s.renderRect.value, pos)
  }

  /** Press: inside the viewport it starts a drag at the press point and drops
      any committed selection at once; elsewhere nothing changes. */
  function Press(s: RoiState, pos: Point): (r: RoiState)
    requires WellFormed(s)
    ensures WellFormed(r)
    ensures !Captures(s, pos) ==> r == s
    ensures Captures(s, pos) ==>
      && PhaseOf(r) == Dragging
      && r.renderRect == s.renderRect
      && r.selection.None?
      && r.dragCurrent == r.dragStart
      && r.dragStart.value.x + s.renderRect.value.x == pos.x
      && r.dragStart.value.y + s.renderRect.value.y == pos.y
  {
    if Captures(s, pos) then
      var local := ToLocal(s.renderRect.value, pos);
      s.(dragStart := Some(local), dragCurrent := Some(local), selection := None)
    else
      s
  }

  /** Move: while dragging, the current point follows the pointer, clamped to
      the viewport; no other field changes. Without a drag nothing changes. */
  function Move(s: RoiState, pos: Point): (r: RoiState)
    requires WellFormed(s)
    ensures WellFormed(r)
    ensures s.dragStart.None? ==> r == s
    ensures s.dragStart.Some? ==>
      var v := s.renderRect.value;
      && r == s.(dragCurrent := r.dragCurrent)
      && r.dragCurrent.Some?
      && InBox(r.dragCurrent.value, v.w, v.h)
      && (ContainsInclusive(v, pos) ==> r.dragCurrent.value == ToLocal(v, pos))
      && r.dragCurrent == Some(Point(Clamp(pos.x - v.x, v.w), Clamp(pos.y - v.y, v.h)))
  {
    if s.dragStart.None? then s
    else
      var v := s.renderRect.value;
      var local := ToLocal(v, pos);
      s.(dragCurrent := Some(Point(Clamp(local.x, v.w), Clamp(local.y, v.h))))
  }

  /** Release: ends the drag whatever its size. It commits the dragged rectangle
      as fractions of the viewport exactly when it is wider AND taller than
      10 px; otherwise the selection is cancelled. */
  function Release(s: RoiState): (r: RoiState)
    requires WellFormed(s)
    ensures WellFormed(r)
    ensures s.dragStart.None? ==> r == s
    ensures s.dragStart.Some? ==>
      && r.renderRect == s.renderRect
      && r.dragStart.None? && r.dragCurrent.None?
      && (PhaseOf(r) == Committed <==>
            DragRect(s).w > MinDragExtent && DragRect(s).h > MinDragExtent)
      && (PhaseOf(r) == Idle <==>
            DragRect(s).w <= MinDragExtent || DragRect(s).h <= MinDragExtent)
  {
    if s.dragStart.None? then s
    else
      var box := DragRect(s);
      var v := s.renderRect.value;
      var sel := if box.w > MinDragExtent && box.h > MinDragExtent
                 then Some(ToFraction(box, v.w, v.h))
                 else None;
      s.(dragStart := None, dragCurrent := None, selection := sel)
  }

  /** Double-click and the RESET button: discard the selection, nothing else. */
  function ClearSelection(s: RoiState): (r: RoiState)
    ensures PhaseOf(r) != Committed
    ensures r.selection.None?
    ensures r.renderRect == s.renderRect
    ensures r.dragStart == s.dragStart && r.dragCurrent == s.dragCurrent
  {
    s.(selection := None)
  }

  /** The draw tick records where the viewport was laid out this frame. */
  function Layout(s: RoiState, viewport: Rect): (r: RoiState)
    ensures r.renderRect == Some(viewport)
    ensures r.dragStart == s.dragStart && r.dragCurrent == s.dragCurrent
    ensures r.selection == s.selection
  {
    s.(renderRect := Some(viewport))
  }

  /** A committed selection, scaled back to the viewport it was made on, is
      exactly the rectangle that was dragged. */
  lemma CommitKeepsDragRect(s: RoiState)
    requires WellFormed(s) && s.dragStart.Some?
    requires Release(s).selection.Some?
    ensures Scale(Release(s).selection.value, s.renderRect.value.w, s.renderRect.value.h)
            == DragRect(s)
  {
    ScaleUndoesFraction(DragRect(s), s.renderRect.value.w, s.renderRect.value.h);
  }

  // ---------------------------------------------------------------------------
  // Consistency is kept by every handler, and by the tick while the viewport
  // does not change under a drag.

  lemma PressKeepsConsistent(s: RoiState, pos: Point)
    requires Consistent(s)
    ensures Consistent(Press(s, pos))
  {
  }

  lemma MoveKeepsConsistent(s: RoiState, pos: Point)
    requires Consistent(s)
    ensures Consistent(Move(s, pos))
  {
  }

  /** A drag kept inside the viewport commits a selection inside the frame:
      0 <= x, 0 <= y, x + w <= 1 and y + h <= 1. */
  lemma ReleaseKeepsConsistent(s: RoiState)
    requires Consistent(s)
    ensures Consistent(Release(s))
  {
    if s.dragStart.Some? {
      var box := DragRect(s);
      var v := s.renderRect.value;
      if box.w > MinDragExtent && box.h > MinDragExtent {
        FractionOfInnerRectIsUnit(box, v.w, v.h);
      }
    }
  }

  lemma ClearKeepsConsistent(s: RoiState)
    requires Consistent(s)
    ensures Consistent(ClearSelection(s))
  {
  }

  /** The tick keeps consistency when no drag is under way, or when it lays the
      viewport out where it already was. */
  lemma LayoutKeepsConsistent(s: RoiState, viewport: Rect)
    requires Consistent(s)
    requires 0.0 < viewport.w && 0.0 < viewport.h
    requires s.dragStart.None? || s.renderRect == Some(viewport)
    ensures Consistent(Layout(s, viewport))
  {
  }

  /** The bound above needs the viewport to stay put during the drag. The drag
      of ShrinkDuringDragSetup runs from (100, 75) to the far corner of a
      400 x 300 viewport; released after the viewport shrank to 200 x 150, it
      commits a selection that reaches twice across the frame. */
  lemma ShrinkDuringDragLeavesFrame()
    ensures
      var narrow := Rect(10.0, 60.0, 200.0, 150.0);
      var dragged := RoiState(Some(Rect(10.0, 60.0, 400.0, 300.0)), Some(Point(100.0, 75.0)),
                              Some(Point(400.0, 300.0)), None);
      && Release(Layout(dragged, narrow))
           == RoiState(Some(narrow), None, None, Some(Rect(0.5, 0.5, 1.5, 1.5)))
  {
    var narrow := Rect(10.0, 60.0, 200.0, 150.0);
    var shrunk := RoiState(Some(narrow), Some(Point(100.0, 75.0)), Some(Point(400.0, 300.0)), None);
    var box := Rect(100.0, 75.0, 300.0, 225.0);
    assert DragRect(shrunk) == box;
    assert ToFraction(box, 200.0, 150.0) == Rect(0.5, 0.5, 1.5, 1.5);
  }

  /** The drag of ShrinkDuringDragLeavesFrame: a press at (110, 135) on a
      400 x 300 viewport at (10, 60) and a move past its far corner, clamped to
      it. The drag is consistent up to the release. */
  lemma ShrinkDuringDragSetup()
    ensures
      var wide := Some(Rect(10.0, 60.0, 400.0, 300.0));
      var start := Some(Point(100.0, 75.0));
      var dragged := RoiState(wide, start, Some(Point(400.0, 300.0)), None);
      && Press(RoiState(wide, None, None, None), Point(110.0, 135.0))
           == RoiState(wide, start, start, None)
      && Move(RoiState(wide, start, start, None), Point(450.0, 400.0)) == dragged
      && Consistent(dragged)
  {
  }

  // ---------------------------------------------------------------------------
  // Concrete runs.

  /** Viewport at (10, 60), 400 x 300: a press at (110, 160) starts a drag at
      (100, 100) of the viewport and a move to (210, 260) takes it to (200, 200). */
  lemma DragScenarioSetup()
    ensures
      var v := Some(Rect(10.0, 60.0, 400.0, 300.0));
      var start := Some(Point(100.0, 100.0));
      && Captures(RoiState(v, None, None, None), Point(110.0, 160.0))
      && Press(RoiState(v, None, None, None), Point(110.0, 160.0)) == RoiState(v, start, start, None)
      && Move(RoiState(v, start, start, None), Point(210.0, 260.0))
           == RoiState(v, start, Some(Point(200.0, 200.0)), None)
  {
  }

  /** ... and the release commits a quarter of the width and a third of the
      height, starting a quarter and a third of the way in. */
  lemma DragScenario()
    ensures
      var v := Some(Rect(10.0, 60.0, 400.0, 300.0));
      var dragged := RoiState(v, Some(Point(100.0, 100.0)), Some(Point(200.0, 200.0)), None);
      Release(dragged) == RoiState(v, None, None, Some(Rect(0.25, 1.0 / 3.0, 0.25, 1.0 / 3.0)))
  {
    var dragged := RoiState(Some(Rect(10.0, 60.0, 400.0, 300.0)), Some(Point(100.0, 100.0)),
                            Some(Point(200.0, 200.0)), None);
    var box := Rect(100.0, 100.0, 100.0, 100.0);
    assert DragRect(dragged) == box;
    assert ToFraction(box, 400.0, 300.0) == Rect(0.25, 1.0 / 3.0, 0.25, 1.0 / 3.0);
  }

  /** A press at (15, 65) released without moving is a click: it cancels the
      selection that was there and leaves the machine idle. */
  lemma ClickCancelsSelection()
    ensures
      var s0 := RoiState(Some(Rect(10.0, 60.0, 400.0, 300.0)), None, None,
                         Some(Rect(0.25, 0.25, 0.5, 0.5)));
      var s1 := Release(Press(s0, Point(15.0, 65.0)));
      && PhaseOf(s0) == Committed
      && PhaseOf(s1) == Idle
      && s1.selection.None?
  {
  }

  /** A press outside the viewport, or before any frame was laid out, is not
      captured and changes nothing. */
  lemma PressOutsideIgnored()
    ensures
      var s0 := RoiState(Some(Rect(10.0, 60.0, 400.0, 300.0)), None, None,
                         Some(Rect(0.25, 0.25, 0.5, 0.5)));
      && !Captures(s0, Point(5.0, 100.0))
      && Press(s0, Point(5.0, 100.0)) == s0
      && !Captures(Initial, Point(110.0, 160.0))
  {
  }
}
