/** The minimap of the first chart version (ChartMap.js): every chart drawn
    at one zoom ratio fitted to the highest point of all charts, the set of
    displayed charts pushed in by a stream, the slider scrolled to the
    viewport pushed in by another, and the slider's touch handlers, which
    publish a new viewport only when they did not clamp. `prepareMinimapData`,
    `getTranslateValue` and `updateViewport` are imported from code that is
    not part of this model: the charts are inputs and a publication is the
    slider's pixel span `(start, end)`. The minimum slider width
    (`settings.minimap.minWidth`) and the top offset
    (`settings.minimap.offsetTop`) are parameters. */
module LegacyMap {
  import opened Num
  import Slider
  import Viewport
  import LegacyChart

  /** A chart as the minimap keeps it. */
  datatype Chart = Chart(id: string, dataPoints: seq<real>, isDisplayed: bool)

  /** The subscriber of the displayed-charts stream: each chart is displayed
      exactly when its id is in the published set; nothing else changes. */
  function SetDisplayed(charts: seq<Chart>, displayed: set<string>): (r: seq<Chart>)
    ensures |r| == |charts|
    ensures forall i :: 0 <= i < |charts| ==> (r[i].isDisplayed <==> charts[i].id in displayed)
    ensures forall i :: 0 <= i < |charts| ==> r[i].id == charts[i].id && r[i].dataPoints == charts[i].dataPoints
  {
    seq(|charts|, i requires 0 <= i < |charts| => charts[i].(isDisplayed := charts[i].id in displayed))
  }

  /** Only the last published set matters. */
  lemma LastSetWins(charts: seq<Chart>, a: set<string>, b: set<string>)
    ensures SetDisplayed(SetDisplayed(charts, a), b) == SetDisplayed(charts, b)
  {
  }

  /** The charts' point lists. */
  function PointsOf(charts: seq<Chart>): (r: seq<seq<real>>)
    ensures |r| == |charts|
    ensures forall i :: 0 <= i < |charts| ==> r[i] == charts[i].dataPoints
  {
    seq(|charts|, i requires 0 <= i < |charts| => charts[i].dataPoints)
  }

  /** update's zoom ratio `(chartHeight - offsetTop) / maxPoint`, with
      `maxPoint` the highest point of every chart (HighestPoint). A highest
      point of 0 gives Infinity or NaN (`None`); no points at all give
      -Infinity and a zero ratio. */
  function ZoomRatio(chartHeight: real, offsetTop: real, maxPoint: Ext): (z: Option<real>)
    ensures z.None? <==> maxPoint == Fin(0.0)
    ensures maxPoint.Fin? && z.Some? ==> z.value * maxPoint.v == chartHeight - offsetTop
    ensures !maxPoint.Fin? ==> z == Some(0.0)
  {
    if maxPoint.Fin? then Div(chartHeight - offsetTop, maxPoint) else Some(0.0)
  }

  /** `Math.max(...charts.map(chart => Math.max(...chart.dataPoints)))`:
      the highest point of all charts. */
  function HighestPoint(charts: seq<Chart>): (m: Ext)
    ensures IsMaxOf(m, Flatten(PointsOf(charts)))
  {
    MaxOfMaxima(PointsOf(charts));
    ExtSeqMax(MaximaOf(PointsOf(charts)))
  }

  /** Which charts are displayed does not change the highest point, so
      not the zoom ratio either. */
  lemma ZoomIgnoresDisplay(charts: seq<Chart>, displayed: set<string>)
    ensures HighestPoint(SetDisplayed(charts, displayed)) == HighestPoint(charts)
  {
    assert PointsOf(SetDisplayed(charts, displayed)) == PointsOf(charts);
  }

  /** drawChart's point `i`: `x = (chartWidth / n) * i` and
      `y = chartHeight - point * zoomRatio`. */
  function DrawPoint(chartWidth: real, chartHeight: real, zoomRatio: real, points: seq<real>, i: nat): (r: (real, real))
    requires i < |points|
    ensures i == 0 ==> r.0 == 0.0
    ensures 0.0 < chartWidth ==> 0.0 <= r.0 < chartWidth
    ensures points[i] == 0.0 ==> r.1 == chartHeight
    ensures 0.0 < zoomRatio ==> (r.1 < chartHeight <==> 0.0 < points[i])
  {
    ProductSign(points[i], zoomRatio);
    (Column(chartWidth, |points|, i), chartHeight - points[i] * zoomRatio)
  }

  /** The x of point `i` of `n`: `(chartWidth / n) * i`. */
  function Column(chartWidth: real, n: nat, i: nat): (r: real)
    requires i < n
    ensures i == 0 ==> r == 0.0
    ensures 0.0 < chartWidth ==> 0.0 <= r < chartWidth
  {
    var step := chartWidth / n as real;
    assert step * n as real == chartWidth;
    assert 0.0 < chartWidth ==> 0.0 <= step * i as real < chartWidth by {
      if 0.0 < chartWidth {
        MulNonneg(step, i as real);
        MulPositive(step, (n - i) as real);
        assert step * (n - i) as real == chartWidth - step * i as real;
      }
    }
    (chartWidth / n as real) * i as real
  }

  /** With a positive highest point and a top offset inside the canvas,
      every point is drawn at or below the top offset, and the highest point
      of all exactly on it. */
  lemma PointsBelowOffset(chartWidth: real, chartHeight: real, offsetTop: real, charts: seq<Chart>,
                          maxPoint: real, zoom: real, c: nat, i: nat)
    requires c < |charts| && i < |charts[c].dataPoints|
    requires HighestPoint(charts) == Fin(maxPoint) && ZoomRatio(chartHeight, offsetTop, Fin(maxPoint)) == Some(zoom)
    requires 0.0 < maxPoint && offsetTop <= chartHeight
    ensures var y := DrawPoint(chartWidth, chartHeight, zoom, charts[c].dataPoints, i).1;
      offsetTop <= y && (charts[c].dataPoints[i] == maxPoint ==> y == offsetTop)
  {
    AtMostHighest(charts, c, i);
    Below(chartWidth, chartHeight, offsetTop, maxPoint, zoom, charts[c].dataPoints, i);
  }

  /** Every point of every chart is at most the highest point. */
  lemma AtMostHighest(charts: seq<Chart>, c: nat, i: nat)
    requires c < |charts| && i < |charts[c].dataPoints|
    ensures HighestPoint(charts).Fin? && charts[c].dataPoints[i] <= HighestPoint(charts).v
  {
    var p := charts[c].dataPoints[i];
    assert p in PointsOf(charts)[c];
    assert p in Flatten(PointsOf(charts));
  }

  /** The drawing arithmetic: with the zoom ratio of a positive highest
      point `m` and `off <= h`, a point at most `m` is drawn at or below
      `off`, and `m` on it. */
  lemma Below(w: real, h: real, off: real, m: real, zoom: real, points: seq<real>, i: nat)
    requires i < |points| && points[i] <= m
    requires ZoomRatio(h, off, Fin(m)) == Some(zoom) && 0.0 < m && off <= h
    ensures var y := DrawPoint(w, h, zoom, points, i).1;
      off <= y && (points[i] == m ==> y == off)
  {
    var p := points[i];
    NonnegFactor(zoom, m);
    MulNonneg(zoom, m - p);
  }

  /** scrollToViewport: the slider's translate for the published viewport. */
  function ScrollToViewport(v: Viewport.Viewport, canvasWidth: real): (translate: real)
    ensures Viewport.WellFormed(v) && 0.0 <= canvasWidth ==> 0.0 <= translate <= canvasWidth
  {
    assert Viewport.WellFormed(v) && 0.0 <= canvasWidth ==> 0.0 <= v.start * canvasWidth <= canvasWidth by {
      if Viewport.WellFormed(v) && 0.0 <= canvasWidth {
        MulNonneg(v.start, canvasWidth);
        MulNonneg(1.0 - v.start, canvasWidth);
      }
    }
    v.start * canvasWidth
  }

  /** A viewport computed from a slider at pixel `start` of a canvas scrolls
      the slider back to `start`. */
  lemma ScrollUndoesUpdate(canvasWidth: real, start: real, width: real)
    requires canvasWidth != 0.0
    ensures ScrollToViewport(LegacyChart.UpdateViewport(canvasWidth, start, width).value, canvasWidth) == start
  {
  }

  /** The slider drag and what it publishes: the clamped branches only move
      the slider; the unclamped one publishes the slider's new span. */
  function Move(wrap: Slider.Box, grab: Slider.Box, clientWidth: real, originX: real, pageX: real): (r: (Slider.Drag, Option<(real, real)>))
    ensures r.1.Some? <==> r.0.branch == Slider.Free
    ensures r.1.Some? ==> r.1.value == (r.0.translate, r.0.translate + clientWidth) && 0.0 <= r.0.translate
    ensures r.0.width == clientWidth
    ensures grab.width <= wrap.width ==> 0.0 <= r.0.translate <= wrap.width - grab.width
  {
    var d := Slider.Move(wrap, grab, clientWidth, originX, pageX);
    (d, if d.branch == Slider.Free then Some((d.translate, d.translate + clientWidth)) else None)
  }

  /** The right-handle drag: the translate never changes, the width never
      drops below the minimum, and only the unclamped branch publishes. */
  function RightHand(wrap: Slider.Box, grab: Slider.Box, translate: real, originWidth: real,
                     originX: real, pageX: real, minWidth: real): (r: (Slider.Drag, Option<(real, real)>))
    ensures r.0.translate == translate
    ensures r.1.Some? <==> r.0.branch == Slider.Free
    ensures r.1.Some? ==> r.1.value == (translate, translate + originWidth + (pageX - originX))
    ensures grab.left + minWidth <= Slider.Right(wrap) ==> minWidth <= r.0.width
    ensures r.0.branch != Slider.Low ==> (grab.left - wrap.left) + r.0.width <= wrap.width
  {
    var d := Slider.RightHandle(wrap, grab, translate, originWidth, originX, pageX, minWidth);
    (d, if d.branch == Slider.Free then Some((d.translate, d.translate + d.width)) else None)
  }

  /** The left-handle drag: with `clientWidth` the slider's box width the
      right edge never moves, and only the unclamped branch publishes. */
  function LeftHand(wrap: Slider.Box, grab: Slider.Box, originX: real, pageX: real, minWidth: real): (r: (Slider.Drag, Option<(real, real)>))
    ensures r.0.translate + r.0.width == Slider.Right(grab) - wrap.left
    ensures r.1.Some? <==> r.0.branch == Slider.Free
    ensures r.1.Some? ==> r.1.value == (r.0.translate, Slider.Right(grab) - wrap.left) && 0.0 < r.0.translate
  {
    var d := Slider.LeftHandle(wrap, grab, grab.width, originX, pageX, minWidth);
    Slider.LeftHandleKeepsRightEdge(wrap, grab, originX, pageX, minWidth);
    (d, if d.branch == Slider.Free then Some((d.translate, d.translate + d.width)) else None)
  }
}
