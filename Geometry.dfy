/** Points and rectangles of the node surface, with the arithmetic the ROI widget
    performs on them: viewport layout, the inclusive hit test, clamping, the
    min-corner/abs-extent rectangle spanned by two drag points, and the conversion
    between viewport pixels and resolution-independent fractions. Coordinates are
    exact reals; IEEE rounding is not modelled. */
module Geometry {

  datatype Point = Point(x: real, y: real)

  /** A rectangle given by its top-left corner and its extents. Used for the
      rendered viewport (node pixels), for drag rectangles (viewport pixels) and
      for the committed selection (fractions of the viewport). */
  datatype Rect = Rect(x: real, y: real, w: real, h: real)

  /** Where the video is drawn on the node: 10 px from the left edge, 60 px from
      the top (below the START and RESET buttons). */
  const DrawX: real := 10.0
  const DrawY: real := 60.0

  /** Total horizontal margin: the content is the node width minus 20 px. */
  const SideMargin: real := 20.0

  function Min(a: real, b: real): real { if a <= b then a else b }

  function Max(a: real, b: real): real { if a <= b then b else a }

  function Abs(a: real): real { if a < 0.0 then -a else a }

  /** `Math.max(0, Math.min(v, hi))`: the point of [0, hi] nearest to `v`. */
  function Clamp(v: real, hi: real): (r: real)
    ensures 0.0 <= hi ==> 0.0 <= r <= hi
    ensures 0.0 <= v <= hi ==> r == v
    ensures 0.0 <= hi && v < 0.0 ==> r == 0.0
    ensures 0.0 <= hi && hi < v ==> r == hi
  {
    Max(0.0, Min(v, hi))
  }

  /** Inside `p` lies within [0, w] x [0, h], bounds included. */
  predicate InBox(p: Point, w: real, h: real) {
    0.0 <= p.x <= w && 0.0 <= p.y <= h
  }

  /** The hit test of a press: `pos` lies in `r`, all four edges included. */
  predicate ContainsInclusive(r: Rect, pos: Point) {
    r.x <= pos.x <= r.x + r.w && r.y <= pos.y <= r.y + r.h
  }

  /** A node-surface point expressed relative to the top-left corner of `r`. */
  function ToLocal(r: Rect, pos: Point): (q: Point)
    ensures InBox(q, r.w, r.h) <==> ContainsInclusive(r, pos)
    ensures q.x + r.x == pos.x && q.y + r.y == pos.y
  {
    Point(pos.x - r.x, pos.y - r.y)
  }

  /** The rectangle whose opposite corners are `a` and `b`: the min corner and the
      absolute extents, as the drag overlay and the release both compute it. */
  function Span(a: Point, b: Point): (r: Rect)
    ensures 0.0 <= r.w && 0.0 <= r.h
    ensures r.w == Abs(a.x - b.x) && r.h == Abs(a.y - b.y)
    ensures r.x <= a.x <= r.x + r.w && r.x <= b.x <= r.x + r.w
    ensures r.y <= a.y <= r.y + r.h && r.y <= b.y <= r.y + r.h
    ensures (r.x == a.x || r.x == b.x) && (r.y == a.y || r.y == b.y)
  {
    Rect(Min(a.x, b.x), Min(a.y, b.y), Abs(a.x - b.x), Abs(a.y - b.y))
  }

  /** `r` shifted by (dx, dy): how viewport-relative rectangles are drawn on the node. */
  function Offset(r: Rect, dx: real, dy: real): Rect {
    Rect(r.x + dx, r.y + dy, r.w, r.h)
  }

  /** Fractional rectangle scaled to a content area of `w` x `h` pixels. */
  function Scale(f: Rect, w: real, h: real): Rect {
    Rect(f.x * w, f.y * h, f.w * w, f.h * h)
  }

  /** A viewport-pixel rectangle as fractions of a `w` x `h` viewport: the
      resolution-independent form a selection is stored in. */
  function ToFraction(px: Rect, w: real, h: real): Rect
    requires w != 0.0 && h != 0.0
  {
    Rect(px.x / w, px.y / h, px.w / w, px.h / h)
  }

  /** Scaling a fraction back to the viewport it was taken from gives the pixel
      rectangle again. */
  lemma ScaleUndoesFraction(px: Rect, w: real, h: real)
    requires w != 0.0 && h != 0.0
    ensures Scale(ToFraction(px, w, h), w, h) == px
  {
  }

  /** A non-empty fractional rectangle lying within the unit square. */
  predicate UnitRect(f: Rect) {
    0.0 <= f.x && 0.0 <= f.y && 0.0 < f.w && 0.0 < f.h && f.x + f.w <= 1.0 && f.y + f.h <= 1.0
  }

  /** The viewport laid out for a node `nodeWidth` wide and a video of
      `videoWidth` x `videoHeight`: at (10, 60), as wide as the node minus the
      margin, and with the video's aspect ratio. */
  function Viewport(nodeWidth: real, videoWidth: int, videoHeight: int): (r: Rect)
    requires videoWidth != 0
    ensures r.x == DrawX && r.y == DrawY && r.w == nodeWidth - SideMargin
    ensures r.h * videoWidth as real == r.w * videoHeight as real
  {
    var contentWidth := nodeWidth - SideMargin;
    var aspectRatio := videoHeight as real / videoWidth as real;
    Rect(DrawX, DrawY, contentWidth, contentWidth * aspectRatio)
  }

  /** A non-empty pixel rectangle inside a `w` x `h` viewport becomes a fraction
      inside the unit square. */
  lemma FractionOfInnerRectIsUnit(px: Rect, w: real, h: real)
    requires 0.0 < w && 0.0 < h
    requires 0.0 <= px.x && 0.0 <= px.y && 0.0 < px.w && 0.0 < px.h
    requires px.x + px.w <= w && px.y + px.h <= h
    ensures UnitRect(ToFraction(px, w, h))
  {
    FractionBelowOne(px.x, px.w, w);
    FractionBelowOne(px.y, px.h, h);
  }

  lemma FractionBelowOne(a: real, b: real, d: real)
    requires 0.0 < d && 0.0 <= a && 0.0 < b && a + b <= d
    ensures 0.0 <= a / d && 0.0 < b / d && a / d + b / d <= 1.0
  {
    assert a / d + b / d == (a + b) / d;
    assert (a + b) / d <= d / d;
  }

  /** Scaling fractions onto a viewport `k` times as large gives a rectangle
      `k` times as large. */
  lemma ScaleIsProportional(f: Rect, w: real, h: real, k: real)
    ensures Scale(f, k * w, k * h) == Rect(k * Scale(f, w, h).x, k * Scale(f, w, h).y,
                                           k * Scale(f, w, h).w, k * Scale(f, w, h).h)
  {
  }
}
