# WebROI: region-of-interest selection and per-frame crop

A Dafny model of the browser side of the ComfyUI WebROI capture node
(`ComfyUI_Web_ROI/js/web_roi.js`). The node shows a shared screen or window as
a live video. The user drags a rectangle over the video to choose a region of
interest (ROI). On every redraw the node crops the current frame to that region
and hands the crop to the Python side.

The model covers two parts.

- **The selection state machine.** The pointer handlers `onMouseDown`,
  `onMouseMove`, `onMouseUp` and `onDblClick`, and the RESET ROI button, act on
  four fields of the node's context: `renderRect`, `dragStart`, `dragCurrent` and
  `selection`.
  - A press inside the laid-out video viewport starts a drag. It also drops the
    old selection at once.
  - Moves are clamped to the viewport.
  - A release commits the dragged rectangle, as fractions of the viewport, only
    when it is more than 10 px wide AND more than 10 px tall. Any other release
    cancels the selection.
- **The per-frame geometry.** `onDrawForeground` lays the viewport out from the
  node width and the video's aspect ratio. It picks the overlay (drag box
  first, then the selection). It computes the crop source rectangle as
  `floor(fraction × frame size)`, with width and height at least 1. It resizes
  the crop canvas only when its size changes. `computeSize` gives the preferred
  node height.

Files:

- `Wrappers.dfy`: `Option`, used for the nullable context fields.
- `Geometry.dfy`: points, rectangles, clamping, the two-point span, the viewport
  layout, and the conversion between fractions and viewport pixels.
- `Selection.dfy`: the state machine as pure transitions over a `RoiState`
  value. Also the invariants `WellFormed` and `Consistent`, the lemmas that the
  transitions keep them, and concrete runs.
- `Render.dfy`: the overlay, the crop source rectangle and one draw tick
  (`Paint`) as functions, with the crop-in-bounds lemmas.
- `WebRoi.dfy`: the node and its context as classes. The handlers and the draw
  tick are methods that update the fields in place. Each method is proved to
  agree with the pure transition it performs.

Coordinates and fractions are exact `real`s. Crop integers come from `.Floor`.

Three behaviours of the code are worth knowing:

- A selection is never clipped to the unit square before it is used as a crop
  source. The code only raises a zero or negative crop width or height to 1,
  at `web_roi.js:98-99`.
  - A selection committed while the viewport stays put is always inside the
    frame (`Selection.ReleaseKeepsConsistent`, `Render.CropInBounds`).
  - If the viewport shrinks between press and release, the selection can reach
    past the frame (`Selection.ShrinkDuringDragLeavesFrame`). The crop source
    then reaches past the frame too (`Render.OversizedSelectionCropsPastFrame`).
- The draw tick does not check for a video of zero size; only `computeSize`
  does (`web_roi.js:210`). The model instead requires a positive size for the
  tick (see Left out).
- `onMouseUp` ignores its position: only the press point and the moves matter.
  A click released a pixel away from its press point still gives a 0 × 0 drag,
  which cancels the selection (`Selection.ClickCancelsSelection`).

## Model

| member | source | states |
|---|---|---|
| `Geometry.Clamp` | ComfyUI_Web_ROI/js/web_roi.js:154-156 | the clamped coordinate lies in [0, hi]; it equals the input when the input is already in range, 0 below the range and hi above it |
| `Geometry.ToLocal` | ComfyUI_Web_ROI/js/web_roi.js:135-138 | a point is inside the viewport, edges included, exactly when its viewport-relative form lies in [0, w] × [0, h]; adding the origin back gives the original point |
| `Geometry.Span` | ComfyUI_Web_ROI/js/web_roi.js:56-59 | the min-corner/abs-extent rectangle of two points has non-negative extents equal to the distances between them, contains both points, and has its sides on them |
| `Geometry.Viewport` | ComfyUI_Web_ROI/js/web_roi.js:37-45 | the viewport sits at (10, 60), is the node width minus 20 wide, and has the video's aspect ratio |
| `Geometry.ScaleUndoesFraction` | ComfyUI_Web_ROI/js/web_roi.js:180-185 | a pixel rectangle turned into fractions of a viewport and scaled back to that viewport is the same rectangle |
| `Geometry.FractionOfInnerRectIsUnit` | ComfyUI_Web_ROI/js/web_roi.js:180-185 | a non-empty rectangle inside the viewport becomes fractions with 0 ≤ x, y and x + w ≤ 1, y + h ≤ 1 |
| `Selection.Press` | ComfyUI_Web_ROI/js/web_roi.js:126-141 | a press outside the laid-out viewport (or before any layout) changes nothing; a press inside starts a drag at the press point relative to the viewport origin, with both drag points equal, and clears the selection |
| `Selection.Move` | ComfyUI_Web_ROI/js/web_roi.js:145-159 | without a drag nothing changes; during a drag only `dragCurrent` changes, it stays within [0, w] × [0, h], it is the pointer's relative position when the pointer is over the viewport, and otherwise each axis is clamped on its own to [0, w] or [0, h] |
| `Selection.Release` | ComfyUI_Web_ROI/js/web_roi.js:162-192 | without a drag nothing changes; otherwise both drag points are cleared whatever the outcome, and the machine ends Committed exactly when the drag is wider than 10 AND taller than 10, Idle otherwise |
| `Selection.CommitKeepsDragRect` | ComfyUI_Web_ROI/js/web_roi.js:172-185 | the committed fractions, scaled back to the viewport they were taken on, give exactly the dragged rectangle |
| `Selection.ClearSelection` | ComfyUI_Web_ROI/js/web_roi.js:195-201 | double-click and RESET leave no committed selection and change no other field |
| `Selection.Layout` | ComfyUI_Web_ROI/js/web_roi.js:45 | the tick records the new viewport and leaves the drag and the selection alone |
| `Selection.PressKeepsConsistent` | ComfyUI_Web_ROI/js/web_roi.js:135-140 | a press keeps the drag inside the viewport and the selection inside the frame |
| `Selection.MoveKeepsConsistent` | ComfyUI_Web_ROI/js/web_roi.js:151-158 | a clamped move keeps the drag inside the viewport |
| `Selection.ReleaseKeepsConsistent` | ComfyUI_Web_ROI/js/web_roi.js:172-185 | a drag that stayed inside the viewport commits a selection with 0 ≤ x, y and x + w ≤ 1, y + h ≤ 1 |
| `Selection.ClearKeepsConsistent` | ComfyUI_Web_ROI/js/web_roi.js:198 | clearing the selection keeps consistency |
| `Selection.LayoutKeepsConsistent` | ComfyUI_Web_ROI/js/web_roi.js:37-45 | a tick keeps consistency when no drag is under way, or when the viewport is laid out where it already was |
| `Selection.ShrinkDuringDragLeavesFrame` | ComfyUI_Web_ROI/js/web_roi.js:172-185 | a drag across a 400 × 300 viewport, released after the viewport shrank to 200 × 150, commits (0.5, 0.5, 1.5, 1.5), which reaches past the frame |
| `Selection.ShrinkDuringDragSetup` | ComfyUI_Web_ROI/js/web_roi.js:135-158 | the press and the clamped move that build that drag, which is consistent up to the release |
| `Selection.DragScenarioSetup` | ComfyUI_Web_ROI/js/web_roi.js:135-158 | over the viewport (10, 60, 400, 300), a press at (110, 160) is captured and starts a drag at (100, 100); a move to (210, 260) takes it to (200, 200) |
| `Selection.DragScenario` | ComfyUI_Web_ROI/js/web_roi.js:166-191 | releasing that drag commits the selection (0.25, 1/3, 0.25, 1/3) and clears both drag points |
| `Selection.ClickCancelsSelection` | ComfyUI_Web_ROI/js/web_roi.js:177-188 | a press at (15, 65) released without a move cancels an existing selection and leaves the machine Idle |
| `Selection.PressOutsideIgnored` | ComfyUI_Web_ROI/js/web_roi.js:128-141 | a press left of the viewport, or before any frame was laid out, is not captured and changes nothing |
| `Render.OverlayFor` | ComfyUI_Web_ROI/js/web_roi.js:52-81 | the overlay is dashed exactly when both drag points exist, solid exactly when there is no drag and there is a selection, and absent otherwise; the dashed box is the drag span offset by (10, 60), the solid box is the selection scaled to the content size and offset by (10, 60) |
| `Render.CommittedOverlayStaysPut` | ComfyUI_Web_ROI/js/web_roi.js:55-81 | after a committing release over an unchanged viewport, the solid box is drawn exactly where the dashed drag box was |
| `Render.AtLeastOne` | ComfyUI_Web_ROI/js/web_roi.js:99 | the crop size guard turns a zero or negative size into exactly 1 and leaves a positive size unchanged |
| `Render.CropSource` | ComfyUI_Web_ROI/js/web_roi.js:85-99 | the crop width and height are at least 1; without a selection the crop is the whole frame |
| `Render.CropInBounds` | ComfyUI_Web_ROI/js/web_roi.js:89-99 | a selection inside the unit square crops a region inside the frame: 0 ≤ sx, sy and sx + sW ≤ vidW, sy + sH ≤ vidH |
| `Render.CropWithinOnePixel` | ComfyUI_Web_ROI/js/web_roi.js:89-99 | for every selection, including one past the unit square, the crop corner is the selection's corner rounded down, within one source pixel; a width or height of at least one pixel is rounded down, within one pixel; a thinner one becomes exactly 1 |
| `Render.OversizedSelectionCropsPastFrame` | ComfyUI_Web_ROI/js/web_roi.js:98-99 | the guard does not clip: the selection (0.5, 0.5, 1.5, 1.5) on a 1920 × 1080 frame crops (960, 540, 2880, 1620) |
| `Render.Paint` | ComfyUI_Web_ROI/js/web_roi.js:33-99 | a tick paints exactly when the video is shared and ready; the viewport sits at (10, 60), is the node width minus 20 wide and has the video's aspect ratio; the overlay is chosen for that viewport; the crop follows the committed selection only, never a drag in progress |
| `Render.ResizeScalesOverlayKeepsCrop` | ComfyUI_Web_ROI/js/web_roi.js:37-99 | when the node is resized between two ticks, with a committed selection and no drag, the viewport and the solid box grow by the ratio of the content widths on both axes, and the crop source stays the same |
| `Render.PaintCropsInsideFrame` | ComfyUI_Web_ROI/js/web_roi.js:85-99 | for a consistent context, every tick copies a region inside the frame |
| `WebRoi.Canvas.constructor` | ComfyUI_Web_ROI/js/web_roi.js:227 | a new crop canvas is 300 × 150 and has never been resized |
| `WebRoi.Canvas.FitTo` | ComfyUI_Web_ROI/js/web_roi.js:102-105 | afterwards the canvas has the crop's size; it is resized (counted once) only when its size differed |
| `WebRoi.CropSourceOf` | ComfyUI_Web_ROI/js/web_roi.js:89-99 | the step-by-step computation of the tick gives the crop source rectangle |
| `WebRoi.RoiContext.constructor` | ComfyUI_Web_ROI/js/web_roi.js:225-235 | a new context has no viewport, no selection and no drag, and a fresh 300 × 150 crop canvas |
| `WebRoi.RoiContext.Reset` | ComfyUI_Web_ROI/js/web_roi.js:250-252 | the RESET ROI button clears the selection and nothing else |
| `WebRoi.RoiNode.OnNodeCreated` | ComfyUI_Web_ROI/js/web_roi.js:222-237 | creation attaches a fresh, idle context and keeps the node width |
| `WebRoi.RoiNode.OnMouseDown` | ComfyUI_Web_ROI/js/web_roi.js:126-142 | without a context the press is not captured; otherwise it returns whether the press was captured and updates the context as `Press` says |
| `WebRoi.RoiNode.OnMouseMove` | ComfyUI_Web_ROI/js/web_roi.js:145-159 | updates the context in place as `Move` says |
| `WebRoi.RoiNode.OnMouseUp` | ComfyUI_Web_ROI/js/web_roi.js:162-192 | updates the context in place as `Release` says; the release position is not used |
| `WebRoi.RoiNode.OnDblClick` | ComfyUI_Web_ROI/js/web_roi.js:195-201 | clears the selection in place, as `ClearSelection` says |
| `WebRoi.RoiNode.OnDrawForeground` | ComfyUI_Web_ROI/js/web_roi.js:13-119 | a collapsed node or a node without a context skips the tick; otherwise the tick produces `Paint`'s frame, records its viewport in `renderRect`, leaves the drag and the selection alone, and fits the crop canvas to the crop, resizing it only when its size changed |
| `WebRoi.RoiNode.ComputeSize` | ComfyUI_Web_ROI/js/web_roi.js:207-216 | while sharing a video of known width, the node keeps its width and is as tall as the laid-out viewport plus 100 px; otherwise the host's own size, or 200 × 100 |
| `WebRoi.DragThroughNode` | ComfyUI_Web_ROI/js/web_roi.js:33-192 | on a node 420 px wide showing a 1600 × 1200 capture, a press at (110, 160), a move to (210, 260) and a release give a next tick with viewport (10, 60, 400, 300), the solid box (110, 160, 100, 100) and the crop (400, 400, 400, 400) |
| `WebRoi.RedrawIsIdempotent` | ComfyUI_Web_ROI/js/web_roi.js:102-105 | two ticks in a row with the same video draw the same frame; the first resizes the crop canvas at most once, the second leaves it alone, and the canvas ends at the crop's size |

## Left out

- Canvas drawing (the red liveness dot, the status text, `drawImage` of the video, `strokeRect` styles and dashes): rendering side effects. Only the rectangles they are given are modelled (`Frame.viewport`, `Frame.overlay`, `Frame.source`).
- `statusText`: it is only drawn, and written by the capture code, which is not part of this model.
- The JPEG encoding (`toDataURL("image/jpeg", 0.7)`) and the write to the `image_data` widget: browser APIs.
- `startScreenShare`, `getDisplayMedia` and the `onloadedmetadata` callback: asynchronous media I/O. This is why `isSharing` and the video's `readyState` and size are an input of the tick (`Render.Video`), not fields of the context.
- `renderLoop` / `requestAnimationFrame` and the `setTimeout` that hides the widget and sets the node size to 360 × 150: event-loop plumbing.
- Extension registration and prototype patching. The original `computeSize` of the host is the `inherited` parameter of `WebRoi.RoiNode.ComputeSize`.
- The `try`/`catch` around the tick: the model has no exceptions, so the logged-and-skipped error path is not represented.
- `web_roi.py` (base64, PIL and tensor decoding) and `__init__.py` (re-exports): library glue outside the core.
- IEEE floating point: coordinates, fractions and aspect ratios are exact reals, so rounding of the JavaScript numbers is not modelled.
- WebRoi.RoiNode.OnDrawForeground: requires, for a ready video, a positive video size and a node wider than the 20 px margin. This is stronger than needed. A zero video width makes the aspect ratio at `web_roi.js:39` (and the content height at line 40) NaN or Infinity, which exact reals cannot express. A node narrower than 20 px gives a negative viewport, which reals do express: the hit test at `web_roi.js:135` then never passes. The requirement excludes it anyway, because `Selection.WellFormed` keeps the viewport extents positive. A zero viewport width, from a node exactly 20 px wide, cannot be expressed: a release after such a shrink divides by it at `web_roi.js:181-184`.
- The `console.log` calls (the load banner and "Selection Reset" on double-click): logging only.
- WebRoi.Canvas.FitTo: the ghost counter `resizes` stands for the bitmap reallocation that assigning a canvas size causes; the pixels themselves are not modelled. Assigning width and then height is counted as one resize.
