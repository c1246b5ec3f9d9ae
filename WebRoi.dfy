/** The ROI widget as the host sees it: a node whose pointer handlers and draw
    tick update, in place, the context object created with the node. Each method
    performs its transition step by step, as the handlers do, and is proved to
    agree with the pure transition of the Selection and Render modules. */
module WebRoi {
  import opened Wrappers
  import opened Geometry
  import opened Selection
  import opened Render

  /** The off-screen canvas the crop is copied into. */
  class Canvas {
    var width: int
    var height: int
    /** How many times the draw tick has assigned a new size (each assignment
        discards and reallocates the canvas bitmap). */
    ghost var resizes: nat

    /** A fresh canvas element has the default size of 300 x 150. */
    constructor ()
      ensures width == 300 && height == 150 && resizes == 0
    {
      width, height := 300, 150;
      resizes := 0;
    }

    /** The resize rule of the draw tick: assign the new size only when it
        differs from the current one. */
    method FitTo(w: int, h: int)
      modifies this
      ensures width == w && height == h
      ensures resizes == old(resizes) + (if old(width) == w && old(height) == h then 0 else 1)
    {
      if width != w || height != h {
        width := w;
        height := h;
        resizes := resizes + 1;
      }
    }
  }

  /** The crop source rectangle as the draw tick computes it: start from the
      whole frame, replace it by the floored fractions of a selection, then
      raise a zero or negative width or height to 1. */
  method CropSourceOf(selection: Option<Rect>, vidW: int, vidH: int) returns (c: SourceRect)
    ensures c == CropSource(selection, vidW, vidH)
  {
    var sx, sy, sW, sH := 0, 0, vidW, vidH;
    if selection.Some? {
      var sel := selection.value;
      sx := (sel.x * vidW as real).Floor;
      sy := (sel.y * vidH as real).Floor;
      sW := (sel.w * vidW as real).Floor;
      sH := (sel.h * vidH as real).Floor;
    }
    if sW <= 0 { sW := 1; }
    if sH <= 0 { sH := 1; }
    c := SourceRect(sx, sy, sW, sH);
  }

  /** The context object stored on the node at creation. */
  class RoiContext {
    var renderRect: Option<Rect>
    var selection: Option<Rect>
    var dragStart: Option<Point>
    var dragCurrent: Option<Point>
    const cropCanvas: Canvas

    /** The fields the handlers and the tick act on, as a value. */
    function State(): RoiState
      reads this
    {
      RoiState(renderRect, dragStart, dragCurrent, selection)
    }

    ghost predicate Valid()
      reads this
    {
      WellFormed(State())
    }

    /** Nothing laid out, selected or dragged yet; a fresh crop canvas. */
    constructor ()
      ensures Valid() && State() == Initial
      ensures fresh(cropCanvas) && cropCanvas.width == 300 && cropCanvas.height == 150
    {
      renderRect, selection, dragStart, dragCurrent := None, None, None, None;
      cropCanvas := new Canvas();
    }

    /** The RESET ROI button: discards the selection and nothing else. */
    method Reset()
      requires Valid()
      modifies this
      ensures Valid() && State() == ClearSelection(old(State()))
    {
      selection := None;
    }
  }

  /** Preferred node size: `[width, height]`. */
  datatype Size = Size(width: real, height: real)

  /** The fallback size of `computeSize` when the host has none of its own. */
  const DefaultSize: Size := Size(200.0, 100.0)

  /** Vertical room the node keeps around the video: 60 px above it for the
      buttons and 40 px below it. */
  const ChromeHeight: real := 100.0

  /** A WebROICapture node: its width (`size[0]`) and, once created, its context. */
  class RoiNode {
    var width: real
    var ctx: RoiContext?

    ghost predicate Valid()
      reads this, ctx
    {
      ctx != null ==> ctx.Valid()
    }

    /** A node before `onNodeCreated` has run has no context. */
    constructor (width: real)
      ensures this.width == width && ctx == null && Valid()
    {
      this.width := width;
      ctx := null;
    }

    /** `onNodeCreated`: attach a fresh, idle context. */
    method OnNodeCreated()
      modifies this
      ensures width == old(width) && ctx != null && fresh(ctx) && fresh(ctx.cropCanvas)
      ensures Valid() && ctx.State() == Initial
    {
      ctx := new RoiContext();
    }

    /** Press: captured (true) exactly when it lands inside the laid-out
        viewport, in which case a drag starts there and the selection is gone. */
    method OnMouseDown(pos: Point) returns (captured: bool)
      requires Valid()
      modifies ctx
      ensures Valid()
      ensures ctx == null ==> !captured
      ensures ctx != null ==> captured == Captures(old(ctx.State()), pos)
      ensures ctx != null ==> ctx.State() == Press(old(ctx.State()), pos)
    {
      if ctx == null || ctx.renderRect.None? {
        return false;
      }
      var r := ctx.renderRect.value;
      if r.x <= pos.x <= r.x + r.w && r.y <= pos.y <= r.y + r.h {
        ctx.dragStart := Some(Point(pos.x - r.x, pos.y - r.y));
        ctx.dragCurrent := Some(Point(pos.x - r.x, pos.y - r.y));
        ctx.selection := None;
        return true;
      }
      return false;
    }

    /** Move: while dragging, the current point follows the pointer, clamped
        to the viewport. */
    method OnMouseMove(pos: Point)
      requires Valid()
      modifies ctx
      ensures Valid()
      ensures ctx != null ==> ctx.State() == Move(old(ctx.State()), pos)
    {
      if ctx == null || ctx.dragStart.None? {
        return;
      }
      var r := ctx.renderRect.value;
      var currX := pos.x - r.x;
      var currY := pos.y - r.y;
      currX := Max(0.0, Min(currX, r.w));
      currY := Max(0.0, Min(currY, r.h));
      ctx.dragCurrent := Some(Point(currX, currY));
    }

    /** Release: ends the drag, committing it as fractions of the viewport when
        it is more than 10 px in both directions. `pos` is not consulted: the
        last point reached by a move counts. */
    method OnMouseUp(pos: Point)
      requires Valid()
      modifies ctx
      ensures Valid()
      ensures ctx != null ==> ctx.State() == Release(old(ctx.State()))
    {
      if ctx == null || ctx.dragStart.None? {
        return;
      }
      var x1, y1 := ctx.dragStart.value.x, ctx.dragStart.value.y;
      var x2, y2 := ctx.dragCurrent.value.x, ctx.dragCurrent.value.y;
      var x, y := Min(x1, x2), Min(y1, y2);
      var w, h := Abs(x1 - x2), Abs(y1 - y2);
      if w > MinDragExtent && h > MinDragExtent {
        var r := ctx.renderRect.value;
        ctx.selection := Some(Rect(x / r.w, y / r.h, w / r.w, h / r.h));
      } else {
        ctx.selection := None;
      }
      ctx.dragStart := None;
      ctx.dragCurrent := None;
    }

    /** Double-click: discards the selection, as the RESET button does. */
    method OnDblClick(pos: Point)
      requires Valid()
      modifies ctx
      ensures Valid()
      ensures ctx != null ==> ctx.State() == ClearSelection(old(ctx.State()))
    {
      if ctx != null {
        ctx.selection := None;
      }
    }

    /** `onDrawForeground`: for a ready video, lay the viewport out, pick the
        overlay, compute the crop source and fit the crop canvas to it. The
        canvas is resized only when its size differs from the crop's. */
    method OnDrawForeground(collapsed: bool, video: Video) returns (f: Frame)
      requires Valid()
      requires Ready(video) ==> 0 < video.videoWidth && 0 < video.videoHeight && SideMargin < width
      modifies if ctx == null then {} else {ctx, ctx.cropCanvas}
      ensures Valid()
      ensures ctx == null || collapsed ==> f == Skipped
      ensures ctx != null && !collapsed ==> f == Paint(old(ctx.State()), width, video)
      ensures ctx != null ==>
        ctx.State() == if f.Painted? then Layout(old(ctx.State()), f.viewport) else old(ctx.State())
      ensures ctx != null && f.Painted? ==>
        ctx.cropCanvas.width == f.source.sw && ctx.cropCanvas.height == f.source.sh
      ensures ctx != null ==>
        var same := old(ctx.cropCanvas.width) == ctx.cropCanvas.width
                    && old(ctx.cropCanvas.height) == ctx.cropCanvas.height;
        ctx.cropCanvas.resizes == old(ctx.cropCanvas.resizes) + (if same then 0 else 1)
      ensures ctx != null && f.Skipped? ==> unchanged(ctx.cropCanvas)
    {
      if collapsed || ctx == null || !Ready(video) {
        return Skipped;
      }
      var contentWidth := width - SideMargin;
      var aspectRatio := video.videoHeight as real / video.videoWidth as real;
      var contentHeight := contentWidth * aspectRatio;
      assert 0.0 < contentHeight by { MulPositive(contentWidth, aspectRatio); }
      var view := Rect(DrawX, DrawY, contentWidth, contentHeight);
      assert view == Viewport(width, video.videoWidth, video.videoHeight);
      ctx.renderRect := Some(view);

      var overlay := OverlayFor(ctx.State(), contentWidth, contentHeight);

      var source := CropSourceOf(ctx.selection, video.videoWidth, video.videoHeight);
      ctx.cropCanvas.FitTo(source.sw, source.sh);
      f := Painted(view, overlay, source);
    }

    /** `computeSize`: while sharing a video of known size, the node is as tall
        as the laid-out viewport plus the room for the buttons above it and the
        margin below; otherwise the host's own size, or 200 x 100. */
    function ComputeSize(video: Video, inherited: Option<Size>): (r: Size)
      reads this
      ensures ctx != null && video.sharing && 0 < video.videoWidth ==>
        var view := Viewport(width, video.videoWidth, video.videoHeight);
        r.width == width && r.height == view.h + ChromeHeight
      ensures !(ctx != null && video.sharing && 0 < video.videoWidth) ==>
        r == inherited.GetOr(DefaultSize)
    {
      if ctx != null && video.sharing && 0 < video.videoWidth then
        var ar := video.videoHeight as real / video.videoWidth as real;
        Size(width, (width - SideMargin) * ar + ChromeHeight)
      else
        inherited.GetOr(DefaultSize)
    }
  }

  /** Two ticks in a row with the same video and no event between them draw
      the same frame, and only the first may resize the crop canvas. */
  method RedrawIsIdempotent(node: RoiNode, video: Video) returns (first: Frame, second: Frame, ghost between: nat)
    requires node.Valid() && node.ctx != null
    requires Ready(video) ==> 0 < video.videoWidth && 0 < video.videoHeight && SideMargin < node.width
    modifies node.ctx, node.ctx.cropCanvas
    ensures node.Valid()
    ensures first == second
    ensures between <= old(node.ctx.cropCanvas.resizes) + 1
    ensures node.ctx.cropCanvas.resizes == between
    ensures second.Painted? ==>
      node.ctx.cropCanvas.width == second.source.sw && node.ctx.cropCanvas.height == second.source.sh
  {
    first := node.OnDrawForeground(false, video);
    between := node.ctx.cropCanvas.resizes;
    second := node.OnDrawForeground(false, video);
  }

  /** The drag of Selection.DragScenario, driven through a node 420 px wide
      showing a 1600 x 1200 capture: the tick lays the viewport out at
      (10, 60) as 400 x 300, the press, move and release commit a quarter by a
      third, and the next tick crops 400 x 400 pixels from (400, 400). */
  method DragThroughNode() returns (second: Frame)
    ensures second == Painted(Rect(10.0, 60.0, 400.0, 300.0),
                              Solid(Rect(110.0, 160.0, 100.0, 100.0)),
                              SourceRect(400, 400, 400, 400))
  {
    var node := new RoiNode(420.0);
    node.OnNodeCreated();
    var video := Video(true, 4, 1600, 1200);
    var first := node.OnDrawForeground(false, video);
    assert first.viewport == Rect(10.0, 60.0, 400.0, 300.0);
    var captured := node.OnMouseDown(Point(110.0, 160.0));
    DragScenarioSetup();
    assert captured;
    node.OnMouseMove(Point(210.0, 260.0));
    node.OnMouseUp(Point(500.0, 500.0));
    DragScenario();
    assert node.ctx.selection == Some(Rect(0.25, 1.0 / 3.0, 0.25, 1.0 / 3.0));
    ghost var st := node.ctx.State();
    second := node.OnDrawForeground(false, video);
    assert second == Paint(st, 420.0, video);
    SecondTick(st);
  }

  /** The tick after the drag of DragThroughNode, as a pure computation. */
  lemma SecondTick(st: RoiState)
    requires st.dragStart.None? && st.dragCurrent.None?
    requires st.selection == Some(Rect(0.25, 1.0 / 3.0, 0.25, 1.0 / 3.0))
    ensures Paint(st, 420.0, Video(true, 4, 1600, 1200))
         == Painted(Rect(10.0, 60.0, 400.0, 300.0),
                    Solid(Rect(110.0, 160.0, 100.0, 100.0)),
                    SourceRect(400, 400, 400, 400))
  {
    var sel := st.selection.value;
    assert Viewport(420.0, 1600, 1200) == Rect(10.0, 60.0, 400.0, 300.0);
    assert Scale(sel, 400.0, 300.0) == Rect(100.0, 100.0, 100.0, 100.0);
    assert CropSource(st.selection, 1600, 1200) == SourceRect(400, 400, 400, 400) by {
      assert (0.25 * 1600 as real).Floor == 400;
      assert (1.0 / 3.0 * 1200 as real).Floor == 400;
    }
  }
}
