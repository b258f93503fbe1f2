/** The standalone minimap demo (chart-map/chart-map.js): a fixed set of
    series of `{x, y}` points drawn so that the x range fills the canvas and
    the highest y touches its top, and a slider whose three touch handlers
    report the slider's offset and width after every move. The offset is
    read back from the slider's CSS transform by keeping only its digits and
    dots. */
module DemoMap {
  import opened Num
  import Slider
  import DateText

  /** MIN_WIDTH_VIEWPORT: the narrowest the slider may get, in pixels. */
  const MinWidth: real := 40.0

  datatype Point = Point(x: real, y: real)

  /** One series of the demo's data. */
  datatype Series = Series(points: seq<Point>, color: string)

  /** Which coordinate a `getProp` callback reads. */
  datatype Axis = X | Y

  function Coord(p: Point, axis: Axis): real {
    match axis
    case X => p.x
    case Y => p.y
  }

  /** `chart.points.map(getProp)` for every series. */
  function Projections(series: seq<Series>, axis: Axis): (r: seq<seq<real>>)
    ensures |r| == |series|
    ensures forall i :: 0 <= i < |series| ==> |r[i]| == |series[i].points|
    ensures forall i, j :: 0 <= i < |series| && 0 <= j < |series[i].points| ==> r[i][j] == Coord(series[i].points[j], axis)
  {
    seq(|series|, i requires 0 <= i < |series| =>
      seq(|series[i].points|, j requires 0 <= j < |series[i].points| => Coord(series[i].points[j], axis)))
  }

  /** getMax: `Math.max` over the per-series maxima, which is the maximum of
      the coordinate over every point of every series. */
  function GetMax(series: seq<Series>, axis: Axis): (m: Ext)
    ensures IsMaxOf(m, Flatten(Projections(series, axis)))
  {
    MaxOfMaxima(Projections(series, axis));
    ExtSeqMax(MaximaOf(Projections(series, axis)))
  }

  /** getMin: `Math.min` over the per-series minima. */
  function GetMin(series: seq<Series>, axis: Axis): (m: Ext)
    ensures IsMinOf(m, Flatten(Projections(series, axis)))
  {
    MinOfMinima(Projections(series, axis));
    ExtSeqMin(MinimaOf(Projections(series, axis)))
  }

  /** Every coordinate of every point lies between getMin and getMax, both
      finite. */
  lemma {:induction false} WithinExtremes(series: seq<Series>, axis: Axis, i: nat, j: nat)
    requires i < |series| && j < |series[i].points|
    ensures GetMin(series, axis).Fin? && GetMax(series, axis).Fin?
    ensures GetMin(series, axis).v <= Coord(series[i].points[j], axis) <= GetMax(series, axis).v
  {
    var lists := Projections(series, axis);
    var c := Coord(series[i].points[j], axis);
    assert lists[i][j] == c;
    assert c in lists[i];
    assert c in Flatten(lists);
  }

  /** The vertical scale `height / maxY`: the lowest value plays no part.
      A zero maximum gives Infinity or NaN (`None`). */
  function RatioY(height: real, series: seq<Series>): Option<real> {
    Div(height, GetMax(series, Y))
  }

  /** With the vertical scale of a highest value, that value is drawn on
      the top edge: `height - maxY * ratioY` is 0. */
  lemma HighestOnTop(height: real, maxY: Ext, ratioY: real)
    ensures Div(height, maxY) == Some(ratioY) ==> height - maxY.v * ratioY == 0.0
  {
  }

  /** The vertical scale exists exactly for a finite, non-zero highest
      value `maxY = getMax(y)`, and then it draws that value on the top
      edge. */
  lemma RatioYFitsHeight(height: real, series: seq<Series>, maxY: Ext, ratioY: real)
    requires maxY == GetMax(series, Y)
    ensures RatioY(height, series).Some? <==> maxY.Fin? && maxY.v != 0.0
    ensures RatioY(height, series) == Some(ratioY) ==> height - maxY.v * ratioY == 0.0
  {
    HighestOnTop(height, maxY, ratioY);
    assert RatioY(height, series) == Div(height, maxY);
  }

  /** The horizontal scale `width / (maxX - minX)`. */
  function RatioX(width: real, series: seq<Series>): Option<real> {
    Ratio(width, GetMax(series, X), GetMin(series, X))
  }

  /** With the horizontal scale of two extremes, the larger is drawn on the
      right edge: `maxX * ratioX - minX * ratioX` is the width. */
  lemma RightmostOnEdge(width: real, maxX: Ext, minX: Ext, ratioX: real)
    ensures Ratio(width, maxX, minX) == Some(ratioX) ==> maxX.v * ratioX - minX.v * ratioX == width
  {
  }

  /** The horizontal scale exists exactly for finite, distinct extremes
      `maxX = getMax(x)` and `minX = getMin(x)`, and then it draws the
      larger on the right edge. */
  lemma RatioXFitsWidth(width: real, series: seq<Series>, maxX: Ext, minX: Ext, ratioX: real)
    requires maxX == GetMax(series, X) && minX == GetMin(series, X)
    ensures RatioX(width, series).Some? <==> maxX.Fin? && minX.Fin? && maxX.v != minX.v
    ensures RatioX(width, series) == Some(ratioX) ==> maxX.v * ratioX - minX.v * ratioX == width
  {
    RightmostOnEdge(width, maxX, minX, ratioX);
    assert RatioX(width, series) == Ratio(width, maxX, minX);
  }

  /** drawChart's canvas position of a point:
      `x = p.x * ratioX - minX * ratioX` and `y = height - p.y * ratioY`. */
  function Draw(height: real, minX: real, ratioX: real, ratioY: real, p: Point): (r: (real, real))
    ensures r.0 == (p.x - minX) * ratioX
    ensures p.x == minX ==> r.0 == 0.0
    ensures p.y == 0.0 ==> r.1 == height
    ensures 0.0 < ratioY ==> (r.1 < height <==> 0.0 < p.y)
  {
    ProductSign(p.y, ratioY);
    (p.x * ratioX - minX * ratioX, height - p.y * ratioY)
  }

  /** Every point is drawn across the full width: the leftmost at x = 0, the
      rightmost at x = width, all in between; and, with a positive maximum,
      no point above the top, the highest on it, and a point with a
      non-negative y no lower than the bottom. */
  lemma DrawnOnCanvas(width: real, height: real, series: seq<Series>, minX: real, maxX: real, maxY: real,
                      ratioX: real, ratioY: real, i: nat, j: nat)
    requires i < |series| && j < |series[i].points|
    requires GetMin(series, X) == Fin(minX) && GetMax(series, X) == Fin(maxX) && GetMax(series, Y) == Fin(maxY)
    requires RatioX(width, series) == Some(ratioX) && RatioY(height, series) == Some(ratioY)
    requires 0.0 <= width && 0.0 <= height && 0.0 < maxY
    ensures var p := series[i].points[j];
      var (x, y) := Draw(height, minX, ratioX, ratioY, p);
      && 0.0 <= x <= width
      && (p.x == minX ==> x == 0.0)
      && (p.x == maxX ==> x == width)
      && 0.0 <= y
      && (p.y == maxY ==> y == 0.0)
      && (0.0 <= p.y ==> y <= height)
  {
    WithinExtremes(series, X, i, j);
    WithinExtremes(series, Y, i, j);
    OnCanvas(width, height, minX, maxX, maxY, ratioX, ratioY, series[i].points[j]);
  }

  /** DrawnOnCanvas for one point between the extremes. */
  lemma OnCanvas(width: real, height: real, minX: real, maxX: real, maxY: real, ratioX: real, ratioY: real, p: Point)
    requires Ratio(width, Fin(maxX), Fin(minX)) == Some(ratioX) && Div(height, Fin(maxY)) == Some(ratioY)
    requires minX <= p.x <= maxX && p.y <= maxY
    requires 0.0 <= width && 0.0 <= height && 0.0 < maxY
    ensures var (x, y) := Draw(height, minX, ratioX, ratioY, p);
      && 0.0 <= x <= width
      && (p.x == minX ==> x == 0.0)
      && (p.x == maxX ==> x == width)
      && 0.0 <= y
      && (p.y == maxY ==> y == 0.0)
      && (0.0 <= p.y ==> y <= height)
  {
    Across(width, minX, maxX, ratioX, p.x);
    Down(height, maxY, ratioY, p.y);
  }

  /** The horizontal arithmetic: `(x - lo) * r` runs from 0 at `lo` to
      `w = r * (hi - lo)` at `hi`. */
  lemma Across(w: real, lo: real, hi: real, r: real, x: real)
    requires r * (hi - lo) == w && 0.0 <= w && lo <= x <= hi && lo != hi
    ensures 0.0 <= x * r - lo * r <= w
    ensures x == lo ==> x * r - lo * r == 0.0
    ensures x == hi ==> x * r - lo * r == w
  {
    assert x * r - lo * r == (x - lo) * r;
    NonnegFactor(r, hi - lo);
    MulNonneg(x - lo, r);
    MulNonneg(hi - x, r);
    assert w - (x * r - lo * r) == (hi - x) * r;
  }

  /** The vertical arithmetic: with `r * m == h` and `m > 0`, a value at
      most `m` is drawn at or below the top, `m` on it, and a non-negative
      one at or above the bottom. */
  lemma Down(h: real, m: real, r: real, y: real)
    requires r * m == h && 0.0 <= h && 0.0 < m && y <= m
    ensures 0.0 <= h - y * r
    ensures y == m ==> h - y * r == 0.0
    ensures 0.0 <= y ==> h - y * r <= h
  {
    NonnegFactor(r, m);
    MulNonneg(m - y, r);
    assert h - y * r == (m - y) * r;
    if 0.0 <= y {
      MulNonneg(y, r);
    }
  }

  /** The characters `/[^\d.]/g` does not remove. */
  predicate Kept(c: char) {
    DateText.IsDigit(c) || c == '.'
  }

  /** getTranslateValue's text step: `transform.replace(/[^\d.]/g, '')`. */
  function TranslateDigits(transform: string): (r: string)
    ensures |r| <= |transform|
    ensures forall i :: 0 <= i < |r| ==> Kept(r[i])
  {
    if |transform| == 0 then []
    else (if Kept(transform[0]) then [transform[0]] else []) + TranslateDigits(transform[1..])
  }

  /** A character survives the filter exactly when it occurs in the text
      and is a digit or a dot: nothing is invented and nothing kept is
      lost. */
  lemma {:induction false} TranslateDigitsMembers(s: string)
    ensures forall c :: c in TranslateDigits(s) <==> c in s && Kept(c)
  {
    if |s| > 0 {
      TranslateDigitsMembers(s[1..]);
      assert s == [s[0]] + s[1..];
    }
  }

  /** Filtering a concatenation filters each part. */
  lemma {:induction false} TranslateDigitsConcat(a: string, b: string)
    ensures TranslateDigits(a + b) == TranslateDigits(a) + TranslateDigits(b)
  {
    if |a| == 0 {
      assert a + b == b;
    } else {
      assert (a + b)[1..] == a[1..] + b;
      TranslateDigitsConcat(a[1..], b);
    }
  }

  /** A text of digits and dots is left as it is; in particular filtering
      twice is filtering once. */
  lemma {:induction false} TranslateDigitsKeepsKept(s: string)
    requires forall i :: 0 <= i < |s| ==> Kept(s[i])
    ensures TranslateDigits(s) == s
  {
    if |s| > 0 {
      TranslateDigitsKeepsKept(s[1..]);
    }
  }

  lemma TranslateDigitsIdempotent(s: string)
    ensures TranslateDigits(TranslateDigits(s)) == TranslateDigits(s)
  {
    TranslateDigitsKeepsKept(TranslateDigits(s));
  }

  /** The transform the handlers write: `translateX(${offset}px)`. */
  function TransformText(offset: string): string {
    "translateX(" + offset + "px)"
  }

  /** The filter sees only the offset's text: the rest of the transform has
      no digit and no dot. */
  lemma TranslateOfTransform(offset: string)
    ensures TranslateDigits(TransformText(offset)) == TranslateDigits(offset)
  {
    var head, tail := "translateX(", "px)";
    assert TransformText(offset) == (head + offset) + tail;
    TranslateDigitsConcat(head + offset, tail);
    TranslateDigitsConcat(head, offset);
    PrefixFilteredOut();
    SuffixFilteredOut();
  }

  /** The text before the offset filters to nothing. */
  lemma PrefixFilteredOut()
    ensures TranslateDigits("translateX(") == []
  {
    var r := TranslateDigits("translateX(");
    if |r| > 0 {
      assert r[0] in r;
      TranslateDigitsMembers("translateX(");
      assert false;
    }
  }

  /** The text after the offset filters to nothing. */
  lemma SuffixFilteredOut()
    ensures TranslateDigits("px)") == []
  {
    NothingKept("px)");
  }

  /** A text without digits or dots filters to nothing. */
  lemma {:induction false} NothingKept(s: string)
    requires forall i :: 0 <= i < |s| ==> !Kept(s[i])
    ensures TranslateDigits(s) == []
  {
    if |s| > 0 {
      NothingKept(s[1..]);
    }
  }

  /** getTranslateValue of a whole pixel offset reads the offset back. */
  lemma WholeOffsetRoundTrip(n: nat)
    ensures var digits := TranslateDigits(TransformText(DateText.NatText(n)));
      (forall i :: 0 <= i < |digits| ==> DateText.IsDigit(digits[i]))
      && DateText.ParseDigits(digits) == n
  {
    TranslateOfTransform(DateText.NatText(n));
    TranslateDigitsKeepsKept(DateText.NatText(n));
    DateText.NatTextRoundTrip(n);
  }

  /** A negative offset loses its sign: `translateX(-n px)` reads back as
      `n`, so the value reported is never negative. */
  lemma NegativeOffsetLosesSign(n: nat)
    ensures TranslateDigits(TransformText("-" + DateText.NatText(n))) == DateText.NatText(n)
  {
    TranslateOfTransform("-" + DateText.NatText(n));
    TranslateDigitsConcat("-", DateText.NatText(n));
    assert TranslateDigits("-") == [];
    TranslateDigitsKeepsKept(DateText.NatText(n));
  }

  /** The offset updateViewConfig receives for a slider translated by
      `translate`: the number read back from its transform, which has no
      sign. */
  function Reported(translate: real): (r: real)
    ensures 0.0 <= r
    ensures r == translate || r == -translate
  {
    Abs(translate)
  }

  /** The slider drag (lines 130-145): the clamped drag, and in every
      branch a report of the offset and the unchanged width. Inside the wrap
      the offset reported is the slider's translate. */
  function Move(wrap: Slider.Box, grab: Slider.Box, clientWidth: real, originX: real, pageX: real): (r: (Slider.Drag, (real, real)))
    ensures r.0.width == clientWidth
    ensures r.1.1 == clientWidth && 0.0 <= r.1.0
    ensures grab.width <= wrap.width ==> r.1.0 == r.0.translate && r.0.translate + grab.width <= wrap.width
    ensures r.0.branch == Slider.Free ==> r.0.translate == grab.left - wrap.left + (pageX - originX)
  {
    var d := Slider.Move(wrap, grab, clientWidth, originX, pageX);
    (d, (Reported(d.translate), d.width))
  }

  /** The right-handle drag (lines 184-203): the width never below 40 while
      there is room for it, never past the wrap's right edge unless clamped
      to 40, the translate untouched, and every branch reports. */
  function RightHand(wrap: Slider.Box, grab: Slider.Box, translate: real, originWidth: real,
                     originX: real, pageX: real): (r: (Slider.Drag, (real, real)))
    ensures r.0.translate == translate
    ensures r.1 == (Reported(translate), r.0.width)
    ensures grab.left + MinWidth <= Slider.Right(wrap) ==> MinWidth <= r.0.width
    ensures r.0.branch != Slider.Low ==> grab.left + r.0.width <= Slider.Right(wrap)
    ensures r.0.branch == Slider.Free ==> r.0.width == originWidth + (pageX - originX)
  {
    var d := Slider.RightHandle(wrap, grab, translate, originWidth, originX, pageX, MinWidth);
    (d, (Reported(d.translate), d.width))
  }

  /** The left-handle drag (lines 243-265), with the width at the touch's
      start the slider's box width: the right edge stays at
      `sliderRight - wrapLeft` in every branch, the width is at least 40
      unless the slider is pinned to the wrap's left edge, and every branch
      reports. */
  function LeftHand(wrap: Slider.Box, grab: Slider.Box, originX: real, pageX: real): (r: (Slider.Drag, (real, real)))
    ensures r.0.translate + r.0.width == Slider.Right(grab) - wrap.left
    ensures r.0.branch != Slider.High ==> MinWidth <= r.0.width
    ensures r.0.branch == Slider.High ==> r.0.translate == 0.0
    ensures r.1 == (Reported(r.0.translate), r.0.width)
  {
    var d := Slider.LeftHandle(wrap, grab, grab.width, originX, pageX, MinWidth);
    Slider.LeftHandleKeepsRightEdge(wrap, grab, originX, pageX, MinWidth);
    (d, (Reported(d.translate), d.width))
  }
}
