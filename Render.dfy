/** The per-frame geometry of the draw tick: where the video is laid out, which
    overlay rectangle is stroked, and which source rectangle of the video frame
    is copied into the crop canvas. Drawing calls themselves are not modelled;
    only the rectangles handed to them are. */
module Render {
  import opened Wrappers
  import opened Geometry
  import opened Selection

  /** What the draw tick reads from the capture: whether sharing has started,
      the video element's `readyState`, and its intrinsic size. */
  datatype Video = Video(sharing: bool, readyState: int, videoWidth: int, videoHeight: int)

  /** `HAVE_CURRENT_DATA`: the least ready state at which a frame can be drawn. */
  const HaveCurrentData: int := 2

  /** The tick goes past the status text only for a shared, decodable video. */
  predicate Ready(v: Video) {
    v.sharing && v.readyState >= HaveCurrentData
  }

  /** The one rectangle stroked over the video: dashed while dragging, solid
      for a committed selection, none otherwise. Boxes are in node pixels. */
  datatype Overlay = NoOverlay | Dashed(box: Rect) | Solid(box: Rect)

  /** The overlay for a content area of `contentWidth` x `contentHeight`: a drag
      in progress wins over the committed selection. */
  function OverlayFor(s: RoiState, contentWidth: real, contentHeight: real): (o: Overlay)
    ensures o.Dashed? <==> s.dragStart.Some? && s.dragCurrent.Some?
    ensures o.Solid? <==> (s.dragStart.None? || s.dragCurrent.None?) && s.selection.Some?
    ensures o.NoOverlay? <==> (s.dragStart.None? || s.dragCurrent.None?) && s.selection.None?
    ensures o.Dashed? ==> o.box == Offset(DragRect(s), DrawX, DrawY)
    ensures o.Solid? ==> o.box == Offset(Scale(s.selection.value, contentWidth, contentHeight), DrawX, DrawY)
  {
    if s.dragStart.Some? && s.dragCurrent.Some? then
      Dashed(Offset(DragRect(s), DrawX, DrawY))
    else if s.selection.Some? then
      Solid(Offset(Scale(s.selection.value, contentWidth, contentHeight), DrawX, DrawY))
    else
      NoOverlay
  }

  /** On release over an unchanged viewport, the solid box of the committed
      selection is stroked exactly where the dashed drag box was. */
  lemma CommittedOverlayStaysPut(s: RoiState)
    requires WellFormed(s) && s.dragStart.Some?
    requires DragRect(s).w > MinDragExtent && DragRect(s).h > MinDragExtent
    ensures
      var v := s.renderRect.value;
      OverlayFor(Release(s), v.w, v.h) == Solid(OverlayFor(s, v.w, v.h).box)
  {
    CommitKeepsDragRect(s);
  }

  /** The rectangle of the video frame copied into the crop canvas, in video
      pixels: `drawImage(video, sx, sy, sw, sh, 0, 0, sw, sh)`. */
  datatype SourceRect = SourceRect(sx: int, sy: int, sw: int, sh: int)

  /** The guard `if (n <= 0) n = 1`. */
  function AtLeastOne(n: int): (m: int)
    ensures 1 <= m
    ensures 1 <= n ==> m == n
    ensures n <= 0 ==> m == 1
  {
    if n <= 0 then 1 else n
  }

  /** The crop source: the whole frame without a selection, otherwise each
      fraction times the frame dimension, rounded down; width and height are
      then raised to at least 1 so the copy is never empty. */
  function CropSource(sel: Option<Rect>, vidW: int, vidH: int): (c: SourceRect)
    ensures 1 <= c.sw && 1 <= c.sh
    ensures sel.None? && 1 <= vidW && 1 <= vidH ==> c == SourceRect(0, 0, vidW, vidH)
  {
    var raw := match sel
      case None => SourceRect(0, 0, vidW, vidH)
      case Some(f) => SourceRect((f.x * vidW as real).Floor, (f.y * vidH as real).Floor,
                                 (f.w * vidW as real).Floor, (f.h * vidH as real).Floor);
    raw.(sw := AtLeastOne(raw.sw), sh := AtLeastOne(raw.sh))
  }

  /** A selection inside the unit square crops a region inside the frame. */
  lemma CropInBounds(f: Rect, vidW: int, vidH: int)
    requires UnitRect(f) && 1 <= vidW && 1 <= vidH
    ensures
      var c := CropSource(Some(f), vidW, vidH);
      0 <= c.sx && 0 <= c.sy && c.sx + c.sw <= vidW && c.sy + c.sh <= vidH
  {
    var sx, sw := FloorSpanFits(f.x, f.w, vidW);
    var sy, sh := FloorSpanFits(f.y, f.h, vidH);
    assert CropSource(Some(f), vidW, vidH) == SourceRect(sx, sy, sw, sh);
  }

  /** One axis of CropInBounds: with 0 <= a, 0 < b, a + b <= 1 and n >= 1,
      floor(a n) >= 0 and floor(a n) + max(1, floor(b n)) <= n. */
  lemma FloorSpanFits(a: real, b: real, n: int) returns (start: int, size: int)
    requires 0.0 <= a && 0.0 < b && a + b <= 1.0 && 1 <= n
    ensures start == (a * n as real).Floor && size == AtLeastOne((b * n as real).Floor)
    ensures 0 <= start && start + size <= n
  {
    start, size := (a * n as real).Floor, AtLeastOne((b * n as real).Floor);
    var N := n as real;
    var p, q := a * N, b * N;
    assert 0.0 <= p by { MulNonNegative(a, N); }
    assert p + q <= N by { assert p + q == (a + b) * N; MulAtMostOne(a + b, N); }
    assert p < N by { assert 0.0 < q by { MulPositive(b, N); } }
  }

  lemma MulNonNegative(a: real, b: real)
    requires 0.0 <= a && 0.0 <= b
    ensures 0.0 <= a * b
  {
  }

  lemma MulPositive(a: real, b: real)
    requires 0.0 < a && 0.0 < b
    ensures 0.0 < a * b
  {
  }

  lemma MulAtMostOne(a: real, b: real)
    requires a <= 1.0 && 0.0 <= b
    ensures a * b <= b
  {
    assert b - a * b == (1.0 - a) * b;
    MulNonNegative(1.0 - a, b);
  }

  /** For any selection, inside the unit square or past it, and any frame,
      cropping loses less than one source pixel: the corner is the
      selection's corner rounded down, and a width or height of at least one
      pixel is rounded down, a thinner one raised to exactly 1. */
  lemma CropWithinOnePixel(f: Rect, vidW: int, vidH: int)
    ensures
      var c := CropSource(Some(f), vidW, vidH);
      var W, H := vidW as real, vidH as real;
      && c.sx as real <= f.x * W < c.sx as real + 1.0
      && c.sy as real <= f.y * H < c.sy as real + 1.0
      && (1.0 <= f.w * W ==> c.sw as real <= f.w * W < c.sw as real + 1.0)
      && (1.0 <= f.h * H ==> c.sh as real <= f.h * H < c.sh as real + 1.0)
      && (f.w * W < 1.0 ==> c.sw == 1)
      && (f.h * H < 1.0 ==> c.sh == 1)
  {
  }

  /** The guard of the crop raises sizes but does not clip them: the selection
      of ShrinkDuringDragLeavesFrame reads far past a 1920 x 1080 frame. */
  lemma OversizedSelectionCropsPastFrame()
    ensures CropSource(Some(Rect(0.5, 0.5, 1.5, 1.5)), 1920, 1080)
            == SourceRect(960, 540, 2880, 1620)
  {
    assert (0.5 * 1920.0).Floor == 960;
    assert (1.5 * 1920.0).Floor == 2880;
    assert (0.5 * 1080.0).Floor == 540;
    assert (1.5 * 1080.0).Floor == 1620;
  }

  /** What one draw tick of a ready video produces. */
  datatype Frame = Skipped | Painted(viewport: Rect, overlay: Overlay, source: SourceRect)

  /** One tick: lay the viewport out from the node width and the video's
      aspect ratio, choose the overlay for it, and crop by the committed
      selection. A drag in progress never affects the crop. */
  function Paint(s: RoiState, nodeWidth: real, video: Video): (f: Frame)
    requires Ready(video) ==> video.videoWidth != 0
    ensures f.Painted? <==> Ready(video)
    ensures f.Painted? ==>
      && f.viewport.x == DrawX && f.viewport.y == DrawY
      && f.viewport.w == nodeWidth - SideMargin
      && f.viewport.h * video.videoWidth as real == f.viewport.w * video.videoHeight as real
      && f.overlay == OverlayFor(s, f.viewport.w, f.viewport.h)
      && f.source == CropSource(s.selection, video.videoWidth, video.videoHeight)
  {
    if !Ready(video) then Skipped
    else
      var view := Viewport(nodeWidth, video.videoWidth, video.videoHeight);
      Painted(view, OverlayFor(s, view.w, view.h),
              CropSource(s.selection, video.videoWidth, video.videoHeight))
  }

  /** For a consistent context, every tick copies a region inside the frame. */
  lemma PaintCropsInsideFrame(s: RoiState, nodeWidth: real, video: Video)
    requires Consistent(s)
    requires Ready(video) && 1 <= video.videoWidth && 1 <= video.videoHeight
    ensures
      var c := Paint(s, nodeWidth, video).source;
      && 0 <= c.sx && 0 <= c.sy
      && c.sx + c.sw <= video.videoWidth && c.sy + c.sh <= video.videoHeight
  {
    if s.selection.Some? {
      CropInBounds(s.selection.value, video.videoWidth, video.videoHeight);
    }
  }

  /** Resizing the node between two ticks: the second tick runs on the state the
      first one laid out, over a node of another width. With a committed
      selection and no drag, the viewport and the solid box (relative to the
      viewport origin) grow by the ratio of the content widths, because the
      height follows the aspect ratio; the stored fractions, and so the crop,
      stay the same. */
  lemma ResizeScalesOverlayKeepsCrop(s: RoiState, n1: real, n2: real, video: Video)
    requires Ready(video) && 0 < video.videoWidth
    requires SideMargin < n1 && SideMargin < n2
    requires s.dragStart.None? && s.selection.Some?
    ensures
      var f1 := Paint(s, n1, video);
      var f2 := Paint(Layout(s, f1.viewport), n2, video);
      var k := (n2 - SideMargin) / (n1 - SideMargin);
      && f1.overlay.Solid? && f2.overlay.Solid?
      && f2.viewport.w == k * f1.viewport.w && f2.viewport.h == k * f1.viewport.h
      && f2.overlay.box.x - DrawX == k * (f1.overlay.box.x - DrawX)
      && f2.overlay.box.y - DrawY == k * (f1.overlay.box.y - DrawY)
      && f2.overlay.box.w == k * f1.overlay.box.w
      && f2.overlay.box.h == k * f1.overlay.box.h
      && f2.source == f1.source
  {
    var vw, vh := video.videoWidth, video.videoHeight;
    var v1 := Viewport(n1, vw, vh);
    var v2 := Viewport(n2, vw, vh);
    var k := (n2 - SideMargin) / (n1 - SideMargin);
    var f := s.selection.value;
    assert Layout(s, v1).selection == s.selection;
    ViewportScales(n1, n2, vw, vh);
    ScaleIsProportional(f, v1.w, v1.h, k);
    assert Paint(s, n1, video) == Painted(v1, Solid(Offset(Scale(f, v1.w, v1.h), DrawX, DrawY)),
                                          CropSource(s.selection, vw, vh));
    assert Paint(Layout(s, v1), n2, video)
        == Painted(v2, Solid(Offset(Scale(f, v2.w, v2.h), DrawX, DrawY)), CropSource(s.selection, vw, vh));
  }

  /** Two layouts of one video differ by the ratio of their content widths. */
  lemma ViewportScales(n1: real, n2: real, vw: int, vh: int)
    requires SideMargin < n1 && 0 < vw
    ensures
      var k := (n2 - SideMargin) / (n1 - SideMargin);
      && Viewport(n2, vw, vh).w == k * Viewport(n1, vw, vh).w
      && Viewport(n2, vw, vh).h == k * Viewport(n1, vw, vh).h
  {
    var k := (n2 - SideMargin) / (n1 - SideMargin);
    var ratio := vh as real / vw as real;
    var c1, c2 := n1 - SideMargin, n2 - SideMargin;
    assert c2 == k * c1;
    assert c2 * ratio == k * (c1 * ratio);
  }
}
