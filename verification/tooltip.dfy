/** updateTooltipPosition(xCoord, canvasWidth): whether the tooltip is shown
    and where it is translated to. The element's rendered width is a
    parameter (it is read from the layout). */
module Tooltip {
  import opened Num

  /** `tooltipLeftMargin`: the tooltip sits 24px left of the pointer. */
  const LeftMargin: real := -24.0

  /** The fixed vertical translate, in px. */
  const TranslateY: real := 40.0

  datatype Placement = Hidden | Shown(translateX: real, translateY: real)

  /** The decision as written: hidden when the pointer is off the canvas
      (after rounding outwards); otherwise right overflow is looked at first,
      then a zero width, then left overflow, then the default position. */
  function TooltipPosition(x: real, canvasWidth: real, width: real): (r: Placement)
    ensures r.Hidden? <==> Floor(x) > canvasWidth || Ceil(x) < 0.0
    ensures r.Shown? ==> r.translateY == TranslateY
    ensures r.Shown? && 0.0 < width <= canvasWidth ==> 0.0 <= r.translateX <= canvasWidth - width
    ensures r.Shown? && width == 0.0 && x + LeftMargin <= canvasWidth ==> r.translateX == canvasWidth
  {
    if Floor(x) > canvasWidth || Ceil(x) < 0.0 then Hidden
    else if x + width + LeftMargin > canvasWidth then Shown(canvasWidth - width, TranslateY)
    else if width == 0.0 then Shown(canvasWidth, TranslateY)
    else if x + LeftMargin < 0.0 then Shown(0.0, TranslateY)
    else Shown(x + LeftMargin, TranslateY)
  }

  /** For a tooltip of positive width that fits on the canvas, the chain of
      branches is a clamp of the default position `x - 24` into
      `[0, canvasWidth - width]`. */
  lemma PositionIsClamp(x: real, canvasWidth: real, width: real)
    requires 0.0 < width <= canvasWidth
    requires TooltipPosition(x, canvasWidth, width).Shown?
    ensures TooltipPosition(x, canvasWidth, width).translateX == Max(0.0, Min(x + LeftMargin, canvasWidth - width))
  {
  }

  /** A pointer on the canvas with room for the tooltip on both sides gets
      the default position. */
  lemma DefaultPosition(x: real, canvasWidth: real, width: real)
    requires 0.0 < width && 24.0 <= x <= canvasWidth && x + width - 24.0 <= canvasWidth
    ensures TooltipPosition(x, canvasWidth, width) == Shown(x - 24.0, 40.0)
  {
    assert x.Floor as real <= x;
    assert (-x).Floor as real <= -x;
  }
}
