/** The minimap slider: a window over the minimap that can be dragged as a
    whole or resized by its left or right handle. The three minimap versions
    share this clamp arithmetic; each touch move is computed from the
    geometry captured when the touch started (the wrap's box, the slider's
    box, the slider's width and the touch's page x) and the current page x. */
module Slider {
  import opened Num

  /** An element's box as getCoords reports it: its page x and its width,
      with the right edge at `left + width`. */
  datatype Box = Box(left: real, width: real)

  function Right(b: Box): real {
    b.left + b.width
  }

  /** Which branch of a drag handler ran: the one clamping to the minimum
      width or to the wrap's left edge (`Low`), the one clamping to the
      wrap's right edge (`High`), or the unclamped one. */
  datatype Branch = Low | High | Free

  /** The slider after a touch move: its horizontal translate relative to the
      wrap, and its width. */
  datatype Drag = Drag(translate: real, width: real, branch: Branch)

  /** `Math.max(lo, Math.min(x, hi))`: the reference each handler is compared
      with. */
  function Clamp(x: real, lo: real, hi: real): real {
    Max(lo, Min(x, hi))
  }

  /** Dragging the whole slider. The grab offsets `leftShift` and
      `rightShift` keep the slider under the finger; if its left edge would
      leave the wrap it is put at 0, if its right edge would, at
      `wrapWidth - sliderWidth`, otherwise at `startX + delta`. The width is
      never touched. Inside the wrap the slider stays inside the wrap. */
  function Move(wrap: Box, grab: Box, width: real, originX: real, pageX: real): (r: Drag)
    ensures r.width == width
    ensures r.branch == Low <==> grab.left + (pageX - originX) < wrap.left
    ensures r.branch == Low ==> r.translate == 0.0
    ensures r.branch == High ==> r.translate == wrap.width - grab.width
    ensures r.branch == Free ==> r.translate == grab.left - wrap.left + (pageX - originX)
    ensures grab.width <= wrap.width ==> 0.0 <= r.translate && r.translate + grab.width <= wrap.width
  {
    var startX := grab.left - wrap.left;
    var leftShift := originX - grab.left;
    var rightShift := Right(grab) - originX;
    var delta := pageX - originX;
    if pageX - leftShift < wrap.left then Drag(0.0, width, Low)
    else if pageX + rightShift > Right(wrap) then Drag(wrap.width - grab.width, width, High)
    else Drag(startX + delta, width, Free)
  }

  /** Moving the slider is clamping `startX + delta` to the positions that
      keep it inside the wrap. */
  lemma MoveIsClamp(wrap: Box, grab: Box, width: real, originX: real, pageX: real)
    requires grab.width <= wrap.width
    ensures Move(wrap, grab, width, originX, pageX).translate
         == Clamp(grab.left - wrap.left + (pageX - originX), 0.0, wrap.width - grab.width)
  {
  }

  /** Dragging the right handle. Below the minimum width the width is the
      minimum; if the right edge would reach the wrap's right edge the width
      stops there; otherwise it is `originWidth + delta`. The translate is
      never touched. */
  function RightHandle(wrap: Box, grab: Box, translate: real, originWidth: real, originX: real, pageX: real, minWidth: real): (r: Drag)
    ensures r.translate == translate
    ensures r.branch == Low <==> originWidth + (pageX - originX) < minWidth
    ensures r.branch != High ==> r.width >= minWidth
    ensures r.branch == Free ==> r.width == originWidth + (pageX - originX)
    ensures r.branch != Low ==> (grab.left - wrap.left) + r.width <= wrap.width
    ensures r.branch == High ==> Right(wrap) - grab.left <= originWidth + (pageX - originX)
    ensures grab.left + minWidth <= Right(wrap) ==> r.width >= minWidth
  {
    var delta := pageX - originX;
    var newWidth := originWidth + delta;
    if newWidth < minWidth then Drag(translate, minWidth, Low)
    else if newWidth + (grab.left - wrap.left) >= Right(wrap) - wrap.left then Drag(translate, Right(wrap) - grab.left, High)
    else Drag(translate, originWidth + delta, Free)
  }

  /** When the minimum width fits to the right of the slider's left edge,
      resizing by the right handle is clamping `originWidth + delta` between
      the minimum and the room left in the wrap. */
  lemma RightHandleIsClamp(wrap: Box, grab: Box, translate: real, originWidth: real, originX: real, pageX: real, minWidth: real)
    requires grab.left + minWidth <= Right(wrap)
    ensures RightHandle(wrap, grab, translate, originWidth, originX, pageX, minWidth).width
         == Clamp(originWidth + (pageX - originX), minWidth, Right(wrap) - grab.left)
  {
  }

  /** Dragging the left handle: the width is `originWidth - delta`. Below the
      minimum the slider gets the minimum width, ending at its old right
      edge; if its left edge would pass the wrap's left edge it starts at 0
      and reaches its old right edge; otherwise the left edge follows the
      finger. */
  function LeftHandle(wrap: Box, grab: Box, originWidth: real, originX: real, pageX: real, minWidth: real): (r: Drag)
    ensures r.branch == Low <==> originWidth - (pageX - originX) < minWidth
    ensures r.branch != High ==> r.width >= minWidth
    ensures r.branch == High ==> r.translate == 0.0
    ensures r.branch == Free ==> r.translate > 0.0 && r.width == originWidth - (pageX - originX)
    ensures r.branch != Free ==> r.translate + r.width == Right(grab) - wrap.left
  {
    var startX := grab.left - wrap.left;
    var leftShiftX := originX - grab.left;
    var delta := pageX - originX;
    var newWidth := originWidth + -1.0 * delta;
    if newWidth < minWidth then
      var nextOffset := Right(grab) - wrap.left - minWidth;
      Drag(nextOffset, minWidth, Low)
    else if pageX - leftShiftX <= wrap.left then Drag(0.0, Right(grab) - wrap.left, High)
    else Drag(startX + delta, newWidth, Free)
  }

  /** When `clientWidth` is the slider's box width, the left handle never
      moves the slider's right edge, in any branch. */
  lemma LeftHandleKeepsRightEdge(wrap: Box, grab: Box, originX: real, pageX: real, minWidth: real)
    ensures var r := LeftHandle(wrap, grab, grab.width, originX, pageX, minWidth);
      r.translate + r.width == Right(grab) - wrap.left
  {
  }

  /** With the right edge fixed at `R = sliderRight - wrapLeft` and room for
      the minimum width, the left handle clamps the new left edge
      `startX + delta` to `[0, R - minWidth]`. */
  lemma LeftHandleIsClamp(wrap: Box, grab: Box, originX: real, pageX: real, minWidth: real)
    requires minWidth <= Right(grab) - wrap.left
    ensures LeftHandle(wrap, grab, grab.width, originX, pageX, minWidth).translate
         == Clamp(grab.left - wrap.left + (pageX - originX), 0.0, Right(grab) - wrap.left - minWidth)
  {
  }
}
