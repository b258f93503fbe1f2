/** drawChart of the later chart version: where a data point lands on the
    canvas. `x = (timeline[i] - timeline[0]) * ratioX` and
    `y = chartHeight - (value - lastLowerBorder) * ratioY`, where the chart
    height leaves LABEL_OFFSET pixels below for the date labels. */
module Plot {
  import opened Num

  /** LABEL_OFFSET: the strip under the plot kept for the date labels. */
  const LabelOffset: real := 60.0

  /** TOP_OFFSET: the strip above the top gridline. */
  const TopOffset: real := 40.0

  function ChartHeight(canvasHeight: real): real {
    canvasHeight - LabelOffset
  }

  /** The x of a timestamp: the first timestamp on the left edge, and with
      a positive ratio a later one to its right. */
  function PointX(t: real, t0: real, ratioX: real): (r: real)
    ensures t == t0 ==> r == 0.0
    ensures 0.0 < ratioX ==> (0.0 < r <==> t0 < t)
  {
    ProductSign(t - t0, ratioX);
    (t - t0) * ratioX
  }

  /** The y of a value: the lower border on the bottom of the plot, and
      with a positive ratio a larger value above it. */
  function PointY(chartHeight: real, value: real, lowerBorder: real, ratioY: real): (r: real)
    ensures value == lowerBorder ==> r == chartHeight
    ensures 0.0 < ratioY ==> (r < chartHeight <==> lowerBorder < value)
  {
    ProductSign(value - lowerBorder, ratioY);
    chartHeight - (value - lowerBorder) * ratioY
  }

  /** The lower border sits on the bottom of the plot, and with the frame's
      ratio `chartHeight / (max - lowerBorder)` the maximum sits on its top;
      a larger value is drawn higher up. */
  lemma VerticalMapping(chartHeight: real, lowerBorder: real, max: real, a: real, b: real)
    requires lowerBorder < max
    ensures var ratioY := chartHeight / (max - lowerBorder);
      && PointY(chartHeight, lowerBorder, lowerBorder, ratioY) == chartHeight
      && PointY(chartHeight, max, lowerBorder, ratioY) == 0.0
      && (0.0 < chartHeight && a < b ==> PointY(chartHeight, b, lowerBorder, ratioY) < PointY(chartHeight, a, lowerBorder, ratioY))
  {
    var h := max - lowerBorder;
    var ratioY := chartHeight / h;
    assert ratioY * h == chartHeight;
    assert (lowerBorder - lowerBorder) * ratioY == 0.0;
    assert (max - lowerBorder) * ratioY == chartHeight;
    if 0.0 < chartHeight && a < b {
      PositiveFactor(ratioY, h);
      HigherAbove(chartHeight, lowerBorder, ratioY, a, b);
    }
  }

  /** With a positive ratio a larger value is drawn higher up. */
  lemma HigherAbove(chartHeight: real, lowerBorder: real, ratioY: real, a: real, b: real)
    requires 0.0 < ratioY && a < b
    ensures PointY(chartHeight, b, lowerBorder, ratioY) < PointY(chartHeight, a, lowerBorder, ratioY)
  {
    MulPositive(b - a, ratioY);
    assert (b - lowerBorder) * ratioY == (b - a) * ratioY + (a - lowerBorder) * ratioY;
    assert PointY(chartHeight, b, lowerBorder, ratioY) == chartHeight - (b - lowerBorder) * ratioY;
    assert PointY(chartHeight, a, lowerBorder, ratioY) == chartHeight - (a - lowerBorder) * ratioY;
  }


  /** With `ratioX = virtualWidth / (last - first)` the first timestamp is
      drawn at the left edge of the virtual canvas and the last at its right
      edge. */
  lemma HorizontalMapping(first: real, last: real, virtualWidth: real)
    requires first < last
    ensures PointX(first, first, virtualWidth / (last - first)) == 0.0
    ensures PointX(last, first, virtualWidth / (last - first)) == virtualWidth
  {
    var ratioX := virtualWidth / (last - first);
    assert ratioX * (last - first) == virtualWidth;
  }
}
