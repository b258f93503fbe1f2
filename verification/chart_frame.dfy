/** One animation frame of the later chart version (update) and the legend
    handler that switches datasets on and off (toggleActiveDatasets). A frame
    moves every dataset's opacity towards its target, asks the throttled
    border scan for the vertical extremes of the active datasets, searches
    the lower border, derives the vertical scale, lets the drawn lower border
    and scale follow their targets, and redraws the datasets only when
    something moved or a redraw was requested. The canvas calls, the grid
    (modelled in YLabels and XLabels) and the minimap's own frame are not
    part of this module. */
module ChartFrame {
  import opened Num
  import Spring
  import Throttle
  import VerticalBorders
  import LowerBorder
  import Viewport

  /** The border scan runs at most once per 250 ms. */
  const BordersInterval: real := 250.0

  /** The cap on the time a frame accounts for, in ms. */
  const DeltaCap: real := 100.0

  /** The spring gain of a frame, `k = 0.008 * delta`. */
  function Gain(prevTs: real, ts: real): real {
    0.008 * Spring.FrameDelta(prevTs, ts, DeltaCap)
  }

  /** A dataset of the chart: its key, its values (one per timestamp) and
      its drawn opacity with the opacity it is heading for (1 shown, 0
      hidden). */
  datatype Dataset = Dataset(id: string, values: seq<real>, opacity: real, targetOpacity: real)

  /** What the chart keeps between frames. `None` for the drawn lower border
      and scale is the `null` they start as; a previous timestamp of 0 is
      the `null` (falsy) one. `borders` is the throttle wrapped around the
      border scan. The drawn scale is a real in the corrected frame and a
      JsNumber in the frame as written, where it can leave the reals. */
  datatype State<R> = State(datasets: seq<Dataset>, min: Ext, max: Ext, lowerBorder: real,
                         lastLowerBorder: Option<real>, lastRatioY: Option<R>,
                         prevTs: real, shouldRerender: bool,
                         borders: Throttle.Throttle<(Ext, Ext)>)

  /** A frame's result: the next state, whether the datasets are redrawn, and
      the indices of the datasets drawn. */
  datatype Output<R> = Output(state: State<R>, redraw: bool, drawn: seq<nat>)

  /** Once the throttled scan has run, the borders it last handed back are
      the chart's borders: a throttled call hands them back again. */
  predicate Valid<R>(s: State<R>) {
    !s.borders.isFirstCall ==> s.borders.lastResult == Some((s.min, s.max))
  }

  /** The chart after its constructor and init, at clock reading `created`:
      every dataset fully shown, borders and lower border 0, no drawn
      border or scale yet, and a redraw requested. */
  function Initial<R>(created: real, series: seq<(string, seq<real>)>): (s: State<R>)
    ensures Valid(s) && s.shouldRerender && s.borders.isFirstCall
    ensures |s.datasets| == |series|
    ensures forall i :: 0 <= i < |series| ==> s.datasets[i] == Dataset(series[i].0, series[i].1, 1.0, 1.0)
  {
    State(seq(|series|, i requires 0 <= i < |series| => Dataset(series[i].0, series[i].1, 1.0, 1.0)),
          Fin(0.0), Fin(0.0), 0.0, None, None, 0.0, true, Throttle.Create(created, BordersInterval))
  }

  /** The values of the datasets heading for full opacity (`targetOpacity
      === 1`), in order. */
  function Active(ds: seq<Dataset>): (r: seq<seq<real>>)
    ensures |r| <= |ds|
    ensures |r| == 0 <==> forall i :: 0 <= i < |ds| ==> ds[i].targetOpacity != 1.0
    ensures forall v :: v in r <==> exists i :: 0 <= i < |ds| && ds[i].targetOpacity == 1.0 && ds[i].values == v
  {
    if |ds| == 0 then []
    else
      var last := |ds| - 1;
      var prior := Active(ds[..last]);
      assert forall i :: 0 <= i < last ==> ds[..last][i] == ds[i];
      if ds[last].targetOpacity == 1.0 then prior + [ds[last].values] else prior
  }

  /** The visible window in timestamps: each viewport end is rounded to
      hundredths, and `timeline[0] + Math.floor(fraction * diff)`. */
  function WindowBounds(timeline: seq<real>, v: Viewport.Viewport): (r: (real, real))
    requires |timeline| > 0
    ensures timeline[0] <= timeline[|timeline| - 1] && Round(v.start * 100.0) <= Round(v.end * 100.0) ==> r.0 <= r.1
    ensures v == Viewport.Viewport(0.0, 1.0) && timeline[|timeline| - 1] - timeline[0] == Floor(timeline[|timeline| - 1] - timeline[0])
      ==> r == (timeline[0], timeline[|timeline| - 1])
  {
    var first, diff := timeline[0], timeline[|timeline| - 1] - timeline[0];
    var start := Round(v.start * 100.0) / 100.0;
    var end := Round(v.end * 100.0) / 100.0;
    ScaledFloorsOrdered(start, end, diff);
    WholeViewportRounds();
    (first + Floor(start * diff), first + Floor(end * diff))
  }

  /** Scaling two ordered fractions by a non-negative span keeps their
      floors ordered. */
  lemma ScaledFloorsOrdered(start: real, end: real, diff: real)
    ensures diff >= 0.0 && start <= end ==> Floor(start * diff) <= Floor(end * diff)
  {
    if diff >= 0.0 && start <= end {
      MulNonneg(end - start, diff);
      FloorMonotone(start * diff, end * diff);
    }
  }

  /** Rounding the whole viewport's ends to hundredths leaves them as they
      are. */
  lemma WholeViewportRounds()
    ensures Round(0.0 * 100.0) / 100.0 == 0.0 && Round(1.0 * 100.0) / 100.0 == 1.0
  {
    assert (0.0 + 0.5).Floor == 0;
    assert (100.0 + 0.5).Floor == 100;
  }

  /** `chartHeight / (max - lowerBorder)`. `None` is the Infinity or NaN of
      a zero-height range; an infinite maximum (an empty window) gives 0. */
  function RatioY(chartHeight: real, max: Ext, lowerBorder: real): (r: Option<real>)
    ensures r.None? <==> max.Fin? && max.v == lowerBorder
    ensures r.Some? && max.Fin? ==> r.value * (max.v - lowerBorder) == chartHeight
    ensures r.Some? && !max.Fin? ==> r.value == 0.0
  {
    if !max.Fin? then Some(0.0)
    else if max.v == lowerBorder then None
    else Some(chartHeight / (max.v - lowerBorder))
  }

  /** `x` lies between `a` and `b`, whichever is larger. */
  predicate Between(x: real, a: real, b: real) {
    Min(a, b) <= x <= Max(a, b)
  }

  /** Some dataset's opacity is not yet on its target. */
  predicate Moving(ds: seq<Dataset>) {
    exists i :: 0 <= i < |ds| && ds[i].opacity != ds[i].targetOpacity
  }

  /** The datasets' change flag as written: `!Math.abs(diff) < EPSILON` for
      some dataset. */
  predicate OpacityFlag(ds: seq<Dataset>) {
    exists i :: 0 <= i < |ds| && Spring.ChangingFlag(ds[i].targetOpacity - ds[i].opacity, Spring.Epsilon)
  }

  /** The flag is raised exactly when some opacity is off its target. */
  lemma OpacityFlagIffMoving(ds: seq<Dataset>)
    ensures OpacityFlag(ds) <==> Moving(ds)
  {
    if OpacityFlag(ds) {
      var i :| 0 <= i < |ds| && Spring.ChangingFlag(ds[i].targetOpacity - ds[i].opacity, Spring.Epsilon);
      Spring.ChangingIffNonzero(ds[i].targetOpacity - ds[i].opacity, Spring.Epsilon);
    }
    if Moving(ds) {
      var i :| 0 <= i < |ds| && ds[i].opacity != ds[i].targetOpacity;
      Spring.ChangingIffNonzero(ds[i].targetOpacity - ds[i].opacity, Spring.Epsilon);
    }
  }

  /** The first loop of update: every opacity takes one spring step towards
      its target with gain `k`; nothing else about a dataset changes. */
  function StepOpacities(ds: seq<Dataset>, k: real): (r: seq<Dataset>)
    ensures |r| == |ds|
    ensures forall i :: 0 <= i < |ds| ==> r[i] == ds[i].(opacity := r[i].opacity)
    ensures forall i :: 0 <= i < |ds| && Abs(ds[i].targetOpacity - ds[i].opacity) < Spring.Epsilon ==>
      r[i].opacity == ds[i].targetOpacity
    ensures 0.0 <= k <= 1.0 ==> forall i :: 0 <= i < |ds| ==>
      Min(ds[i].opacity, ds[i].targetOpacity) <= r[i].opacity <= Max(ds[i].opacity, ds[i].targetOpacity)
  {
    seq(|ds|, i requires 0 <= i < |ds| =>
      ds[i].(opacity := Spring.Step(ds[i].opacity, ds[i].targetOpacity, k, Spring.Epsilon)))
  }

  /** `+opacity.toFixed(2) > 0`: the opacity shows at two decimals. */
  predicate Shows(opacity: real) {
    opacity >= 0.005
  }

  /** The indices of the datasets drawn, in order. */
  function Drawn(ds: seq<Dataset>): (r: seq<nat>)
    ensures forall a :: 0 <= a < |r| ==> r[a] < |ds|
    ensures forall i: nat :: i in r <==> i < |ds| && Shows(ds[i].opacity)
    ensures forall a, b :: 0 <= a < b < |r| ==> r[a] < r[b]
  {
    if |ds| == 0 then []
    else
      var last := |ds| - 1;
      var prior := Drawn(ds[..last]);
      assert forall i :: 0 <= i < last ==> ds[..last][i] == ds[i];
      if Shows(ds[last].opacity) then prior + [last] else prior
  }

  /** The spring of a drawn quantity (the lower border, the scale): set
      straight to the target while still `null`, with no change reported;
      otherwise one step, reporting a change exactly when the target was
      not yet reached. */
  function Follow(last: Option<real>, target: real, k: real): (r: (real, bool))
    ensures last.None? ==> r == (target, false)
    ensures last.Some? ==> (r.1 <==> last.value != target)
    ensures last.Some? && Abs(target - last.value) < Spring.Epsilon ==> r.0 == target
    ensures last.Some? && 0.0 <= k <= 1.0 ==> Min(last.value, target) <= r.0 <= Max(last.value, target)
  {
    if last.None? then (target, false)
    else
      Spring.ChangingIffNonzero(target - last.value, Spring.Epsilon);
      (Spring.Step(last.value, target, k, Spring.Epsilon), Spring.ChangingFlag(target - last.value, Spring.Epsilon))
  }

  /** The borders a frame works with: what the throttled scan hands back.
      On a valid state it always hands something back. */
  function FrameBorders<R>(s: State<R>, now: real, timeline: seq<real>, v: Viewport.Viewport): (r: (Throttle.Throttle<(Ext, Ext)>, (Ext, Ext)))
    requires |timeline| > 0 && Valid(s)
    ensures var (lo, hi) := WindowBounds(timeline, v);
      Throttle.Fires(s.borders, now) ==>
        r.1 == VerticalBorders.VerticalBorders(Active(s.datasets), timeline, lo, hi, (s.min, s.max))
    ensures !Throttle.Fires(s.borders, now) ==> r.1 == (s.min, s.max) && r.0 == s.borders
    ensures !r.0.isFirstCall && r.0.lastResult == Some(r.1)
    ensures r.0.interval == s.borders.interval
  {
    var (lo, hi) := WindowBounds(timeline, v);
    var scanned := VerticalBorders.VerticalBorders(Active(s.datasets), timeline, lo, hi, (s.min, s.max));
    var (t, result) := Throttle.Call(s.borders, now, scanned);
    (t, result.value)
  }

  /** update(ts) at clock reading `now` (what the throttle reads), on a
      timeline with at least one timestamp, for a viewport and a plot of
      height `chartHeight`. `None` is the frame whose vertical scale is not
      finite (the maximum equals the lower border). */
  function Frame(s: State<real>, ts: real, now: real, timeline: seq<real>, v: Viewport.Viewport, chartHeight: real): (r: Option<Output<real>>)
    requires |timeline| > 0 && Valid(s)
    ensures var (_, b) := FrameBorders(s, now, timeline, v);
      var lb := if |Active(s.datasets)| > 0 then LowerBorder.ScaleLowerBorder(b.0, b.1, s.lowerBorder) else s.lowerBorder;
      r.None? <==> RatioY(chartHeight, b.1, lb).None?
    ensures r.Some? ==> Valid(r.value.state)
    ensures r.Some? ==> !r.value.state.shouldRerender && r.value.state.prevTs == ts
    ensures r.Some? ==> (r.value.redraw <==>
      s.shouldRerender || Moving(s.datasets)
      || (s.lastLowerBorder.Some? && s.lastLowerBorder.value != r.value.state.lowerBorder)
      || (s.lastRatioY.Some? && Some(s.lastRatioY.value) != RatioY(chartHeight, r.value.state.max, r.value.state.lowerBorder)))
    ensures r.Some? ==> |r.value.state.datasets| == |s.datasets|
    ensures r.Some? ==> (forall i: nat :: i in r.value.drawn <==>
      r.value.redraw && i < |s.datasets| && Shows(r.value.state.datasets[i].opacity))
    ensures r.Some? && |Active(s.datasets)| == 0 ==>
      r.value.state.min == s.min && r.value.state.max == s.max && r.value.state.lowerBorder == s.lowerBorder
    ensures r.Some? && |Active(s.datasets)| > 0 && LowerBorder.ScaleInDomain(r.value.state.min, r.value.state.max) ==>
      r.value.state.lowerBorder <= r.value.state.min.v
  {
    var k := Gain(s.prevTs, ts);
    assert s.prevTs <= ts ==> 0.0 <= k <= 1.0 by {
      if s.prevTs <= ts { Spring.MainChartGain(s.prevTs, ts); }
    }
    var datasets := StepOpacities(s.datasets, k);
    var active := Active(s.datasets);
    var (borders, b) := FrameBorders(s, now, timeline, v);
    var lb := if |active| > 0 then LowerBorder.ScaleLowerBorder(b.0, b.1, s.lowerBorder) else s.lowerBorder;
    match RatioY(chartHeight, b.1, lb)
    case None => None
    case Some(ratioY) =>
      var (lastLowerBorder, lowerBorderChanging) := Follow(s.lastLowerBorder, lb, k);
      var (lastRatioY, ratioYChanging) := Follow(s.lastRatioY, ratioY, k);
      OpacityFlagIffMoving(s.datasets);
      var redraw := OpacityFlag(s.datasets) || s.shouldRerender || ratioYChanging || lowerBorderChanging;
      var next := State(datasets, b.0, b.1, lb, Some(lastLowerBorder), Some(lastRatioY), ts, false, borders);
      Some(Output(next, redraw, if redraw then Drawn(datasets) else []))
  }

  /** With the clock not running backwards every opacity takes one spring
      step towards its target and stays between where it was and the
      target; nothing else about a dataset changes. */
  lemma FrameStepsOpacities(s: State<real>, ts: real, now: real, timeline: seq<real>, v: Viewport.Viewport, chartHeight: real)
    requires |timeline| > 0 && Valid(s) && s.prevTs <= ts
    ensures var r := Frame(s, ts, now, timeline, v, chartHeight);
      r.Some? ==> forall i :: 0 <= i < |s.datasets| ==>
        var (d, d') := (s.datasets[i], r.value.state.datasets[i]);
        d' == d.(opacity := d'.opacity) && Min(d.opacity, d.targetOpacity) <= d'.opacity <= Max(d.opacity, d.targetOpacity)
  {
    Spring.MainChartGain(s.prevTs, ts);
  }

  /** The drawn lower border and scale: set to their targets on the first
      frame, and otherwise one spring step from where they were towards the
      targets, never overshooting, when the clock does not run backwards. */
  lemma FrameFollowsTargets(s: State<real>, ts: real, now: real, timeline: seq<real>, v: Viewport.Viewport, chartHeight: real)
    requires |timeline| > 0 && Valid(s)
    ensures var r := Frame(s, ts, now, timeline, v, chartHeight);
      r.Some? && s.lastLowerBorder.None? ==> r.value.state.lastLowerBorder == Some(r.value.state.lowerBorder)
    ensures var r := Frame(s, ts, now, timeline, v, chartHeight);
      r.Some? && s.lastLowerBorder.Some? && s.prevTs <= ts ==>
        r.value.state.lastLowerBorder.Some? && Between(r.value.state.lastLowerBorder.value, s.lastLowerBorder.value, r.value.state.lowerBorder)
    ensures var r := Frame(s, ts, now, timeline, v, chartHeight);
      r.Some? && s.lastRatioY.None? ==> r.value.state.lastRatioY == RatioY(chartHeight, r.value.state.max, r.value.state.lowerBorder)
    ensures var r := Frame(s, ts, now, timeline, v, chartHeight);
      r.Some? && s.lastRatioY.Some? && s.prevTs <= ts ==>
        var ratioY := RatioY(chartHeight, r.value.state.max, r.value.state.lowerBorder);
        ratioY.Some? && r.value.state.lastRatioY.Some? && Between(r.value.state.lastRatioY.value, s.lastRatioY.value, ratioY.value)
  {
    if s.prevTs <= ts { Spring.MainChartGain(s.prevTs, ts); }
  }

  /** The borders a successful frame leaves are those the throttled scan
      handed back. */
  lemma FrameKeepsScannedBorders(s: State<real>, ts: real, now: real, timeline: seq<real>, v: Viewport.Viewport, chartHeight: real)
    requires |timeline| > 0 && Valid(s)
    ensures var r := Frame(s, ts, now, timeline, v, chartHeight);
      r.Some? ==> (r.value.state.min, r.value.state.max) == FrameBorders(s, now, timeline, v).1
  {
  }

  /** With datasets active, the corrected frame goes through wherever the
      lower-border search terminates with a finite scale (ScaleInDomain),
      and stops on the other range where the search terminates, a top at
      zero, whose scale `chartHeight / 0` is not finite. */
  lemma FiniteOnDomain(s: State<real>, ts: real, now: real, timeline: seq<real>, v: Viewport.Viewport, chartHeight: real)
    requires |timeline| > 0 && Valid(s) && |Active(s.datasets)| > 0
    ensures var b := FrameBorders(s, now, timeline, v).1;
      LowerBorder.ScaleInDomain(b.0, b.1) ==> Frame(s, ts, now, timeline, v, chartHeight).Some?
    ensures var b := FrameBorders(s, now, timeline, v).1;
      LowerBorder.TopAtZero(b.0, b.1) ==> Frame(s, ts, now, timeline, v, chartHeight).None?
  {
  }

  /** The first frame of a new chart scans the borders (the throttle's
      first call always runs), redraws (a redraw is requested), and draws
      every dataset, all being fully shown. */
  lemma FirstFrame(created: real, series: seq<(string, seq<real>)>, ts: real, now: real,
                   timeline: seq<real>, v: Viewport.Viewport, chartHeight: real)
    requires |timeline| > 0
    ensures var s := Initial<real>(created, series);
      var r := Frame(s, ts, now, timeline, v, chartHeight);
      var (lo, hi) := WindowBounds(timeline, v);
      r.Some? ==>
        && r.value.redraw
        && (r.value.state.min, r.value.state.max)
           == VerticalBorders.VerticalBorders(Active(s.datasets), timeline, lo, hi, (Fin(0.0), Fin(0.0)))
        && forall i: nat :: i < |series| ==> i in r.value.drawn
  {
    var s := Initial<real>(created, series);
    assert Throttle.Fires(s.borders, now);
    var r := Frame(s, ts, now, timeline, v, chartHeight);
    if r.Some? {
      forall i: nat | i < |series| ensures i in r.value.drawn {
        assert r.value.state.datasets[i].opacity == 1.0;
      }
    }
  }

  /** A JavaScript number where the frame's vertical scale can leave the
      reals: dividing by a zero range gives an infinity (NaN for 0 / 0), and
      arithmetic on an infinity can give NaN. */
  datatype JsNumber = Finite(v: real) | PosInfinity | NegInfinity | NaN

  /** `a + b`. */
  function JsAdd(a: JsNumber, b: JsNumber): (r: JsNumber)
    ensures a.Finite? && b.Finite? ==> r == Finite(a.v + b.v)
    ensures a.NaN? || b.NaN? ==> r.NaN?
    ensures r.Finite? ==> a.Finite? && b.Finite?
  {
    match (a, b)
    case (Finite(x), Finite(y)) => Finite(x + y)
    case (NaN, _) => NaN
    case (_, NaN) => NaN
    case (PosInfinity, NegInfinity) => NaN
    case (NegInfinity, PosInfinity) => NaN
    case (PosInfinity, _) => PosInfinity
    case (_, PosInfinity) => PosInfinity
    case (NegInfinity, _) => NegInfinity
    case (_, NegInfinity) => NegInfinity
  }

  /** `-a`. */
  function JsNeg(a: JsNumber): (r: JsNumber)
    ensures a.Finite? <==> r.Finite?
    ensures a.Finite? ==> r.v == -a.v
    ensures a.NaN? <==> r.NaN?
  {
    match a
    case Finite(x) => Finite(-x)
    case PosInfinity => NegInfinity
    case NegInfinity => PosInfinity
    case NaN => NaN
  }

  /** `k * a` for a finite gain `k`: an infinity times 0 is NaN. */
  function JsScale(k: real, a: JsNumber): (r: JsNumber)
    ensures a.Finite? ==> r == Finite(k * a.v)
    ensures !a.Finite? && k == 0.0 ==> r.NaN?
    ensures r.Finite? <==> a.Finite?
  {
    match a
    case Finite(_) => Finite(k * a.v)
    case NaN => NaN
    case PosInfinity => if k > 0.0 then PosInfinity else if k < 0.0 then NegInfinity else NaN
    case NegInfinity => if k > 0.0 then NegInfinity else if k < 0.0 then PosInfinity else NaN
  }

  /** `a / b` for finite operands: a zero divisor gives an infinity of the
      dividend's sign, or NaN for 0 / 0. */
  function JsDivide(a: real, b: real): (r: JsNumber)
    ensures r.Finite? <==> b != 0.0
    ensures r.Finite? ==> r.v * b == a
    ensures r == PosInfinity <==> b == 0.0 && a > 0.0
  {
    if b != 0.0 then Finite(a / b)
    else if a > 0.0 then PosInfinity
    else if a < 0.0 then NegInfinity
    else NaN
  }

  /** `Math.abs(a) < eps` for a positive `eps`: false for NaN and the
      infinities. */
  predicate JsAbsBelow(a: JsNumber, eps: real) {
    a.Finite? && Abs(a.v) < eps
  }

  /** The change flag `!Math.abs(diff) < EPSILON`: `!` maps 0 and NaN to
      true (which compares as 1) and every other number to false (0). */
  predicate JsChangingFlag(diff: JsNumber, eps: real) {
    (if diff == Finite(0.0) || diff.NaN? then 1.0 else 0.0) < eps
  }

  /** The spring of the drawn scale as written, on JavaScript numbers: while
      unset it takes the target; otherwise one step towards it. On finite
      numbers it is the corrected Follow. Once the drawn scale is not finite
      a step with a non-negative gain leaves NaN, whatever the target, and a
      finite scale heading for a target that is not finite leaves the reals. */
  function FollowAsWritten(last: Option<JsNumber>, target: JsNumber, k: real): (r: (JsNumber, bool))
    ensures last.None? ==> r == (target, false)
    ensures last.Some? && last.value.Finite? && target.Finite? ==>
      r == (Finite(Follow(Some(last.value.v), target.v, k).0), Follow(Some(last.value.v), target.v, k).1)
    ensures last.Some? && !last.value.Finite? && 0.0 <= k ==> r.0 == NaN
    ensures last.Some? && !target.Finite? ==> !r.0.Finite?
  {
    match last
    case None => (target, false)
    case Some(l) =>
      var diff := JsAdd(target, JsNeg(l));
      assert l.Finite? && target.Finite? ==> diff == Finite(target.v - l.v);
      assert l.Finite? && target.Finite? ==>
        && (JsChangingFlag(diff, Spring.Epsilon) <==> Spring.ChangingFlag(target.v - l.v, Spring.Epsilon))
        && Follow(Some(l.v), target.v, k).1 == Spring.ChangingFlag(target.v - l.v, Spring.Epsilon)
        && Follow(Some(l.v), target.v, k).0 == Spring.Step(l.v, target.v, k, Spring.Epsilon)
        && JsAdd(l, JsScale(k, diff)) == Finite(l.v + k * (target.v - l.v))
        && (JsAbsBelow(diff, Spring.Epsilon) <==> Abs(target.v - l.v) < Spring.Epsilon)
        && Spring.Step(l.v, target.v, k, Spring.Epsilon)
           == if Abs(target.v - l.v) < Spring.Epsilon then target.v else l.v + k * (target.v - l.v);
      (if JsAbsBelow(diff, Spring.Epsilon) then target else JsAdd(l, JsScale(k, diff)),
       JsChangingFlag(diff, Spring.Epsilon))
  }

  /** `chartHeight / (this.max - this.lowerBorder)` as JavaScript computes
      it: an infinite maximum (an empty window kept from an earlier frame)
      gives 0, and a maximum on the lower border gives an infinity, or NaN
      for a zero height. It is finite exactly where the corrected RatioY is
      defined, and then equal to it. */
  function RatioYAsWritten(chartHeight: real, max: Ext, lowerBorder: real): (r: JsNumber)
    ensures r.Finite? <==> RatioY(chartHeight, max, lowerBorder).Some?
    ensures r.Finite? ==> r.v == RatioY(chartHeight, max, lowerBorder).value
    ensures r == PosInfinity <==> max == Fin(lowerBorder) && chartHeight > 0.0
  {
    if !max.Fin? then Finite(0.0) else JsDivide(chartHeight, max.v - lowerBorder)
  }

  /** `activeDatasets.length > 0 ? getLowerBorder(min, max, 0) :
      this.lowerBorder` as written. The search stops on ScaleInDomain and
      on TopAtZero (at 0) and nowhere else (LowerBorder.OutsideDomainNeverStops);
      elsewhere the recursion ends in a RangeError, `None`. Where it stops
      it agrees with the corrected ScaleLowerBorder. */
  function LowerBorderAsWritten(active: bool, min: Ext, max: Ext, previous: real): (r: Option<real>)
    ensures r.None? <==> active && !LowerBorder.ScaleInDomain(min, max) && !LowerBorder.TopAtZero(min, max)
    ensures r.Some? ==> r.value == (if active then LowerBorder.ScaleLowerBorder(min, max, previous) else previous)
  {
    if !active then Some(previous)
    else if LowerBorder.ScaleInDomain(min, max) then Some(LowerBorder.LowerBorder(min.v, max.v, 0.0))
    else if LowerBorder.TopAtZero(min, max) then Some(0.0)
    else None
  }

  /** How update(ts) as written ends: it throws the RangeError of the
      lower-border search, leaving what it had already stored, or it runs
      to the end. */
  datatype Outcome = Threw(state: State<JsNumber>) | Ran(output: Output<JsNumber>)

  /** update(ts) as written. It differs from the corrected Frame in two
      ways. With datasets active and borders outside the search's domain,
      getLowerBorder never returns: the frame throws after stepping the
      opacities and storing the scanned borders and the timestamp. On a top
      at zero the search stops at 0 = max and the scale becomes an infinity,
      which the frame carries on with. The last ensures only names the
      `Finish` a returning search ends in, for AsWrittenAgrees to compare
      with the corrected frame. */
  function FrameAsWritten(s: State<JsNumber>, ts: real, now: real, timeline: seq<real>, v: Viewport.Viewport, chartHeight: real): (r: Outcome)
    requires |timeline| > 0 && Valid(s)
    ensures var b := FrameBorders(s, now, timeline, v).1;
      r.Threw? <==> |Active(s.datasets)| > 0 && !LowerBorder.ScaleInDomain(b.0, b.1) && !LowerBorder.TopAtZero(b.0, b.1)
    ensures r.Threw? ==>
      && Valid(r.state) && (r.state.min, r.state.max) == FrameBorders(s, now, timeline, v).1
      && r.state.prevTs == ts && |r.state.datasets| == |s.datasets|
      && r.state.lowerBorder == s.lowerBorder && r.state.lastLowerBorder == s.lastLowerBorder
      && r.state.lastRatioY == s.lastRatioY && r.state.shouldRerender == s.shouldRerender
    ensures r.Ran? ==> Valid(r.output.state) && !r.output.state.shouldRerender && r.output.state.prevTs == ts
    ensures var fb := FrameBorders(s, now, timeline, v);
      var k := Gain(s.prevTs, ts);
      var search := LowerBorderAsWritten(|Active(s.datasets)| > 0, fb.1.0, fb.1.1, s.lowerBorder);
      search.Some? ==> r == Ran(Finish(s, ts, k, fb, search.value, FollowAsWritten(s.lastRatioY, RatioYAsWritten(chartHeight, fb.1.1, search.value), k)))
  {
    var k := Gain(s.prevTs, ts);
    var fb := FrameBorders(s, now, timeline, v);
    match LowerBorderAsWritten(|Active(s.datasets)| > 0, fb.1.0, fb.1.1, s.lowerBorder)
    case None => Threw(s.(datasets := StepOpacities(s.datasets, k), min := fb.1.0, max := fb.1.1, prevTs := ts, borders := fb.0))
    case Some(lb) => Ran(Finish(s, ts, k, fb, lb, FollowAsWritten(s.lastRatioY, RatioYAsWritten(chartHeight, fb.1.1, lb), k)))
  }

  /** A corrected chart state seen as the source holds it. */
  function AsJs(s: State<real>): State<JsNumber> {
    State(s.datasets, s.min, s.max, s.lowerBorder, s.lastLowerBorder,
          if s.lastRatioY.Some? then Some(Finite(s.lastRatioY.value)) else None,
          s.prevTs, s.shouldRerender, s.borders)
  }

  /** Where the source's search stops with a finite scale, the frame as
      written and the corrected frame agree: with no dataset active, or with
      borders in the search's domain, a corrected frame that goes through is
      exactly the frame as written. */
  lemma AsWrittenAgrees(s: State<real>, ts: real, now: real, timeline: seq<real>, v: Viewport.Viewport, chartHeight: real)
    requires |timeline| > 0 && Valid(s)
    requires var b := FrameBorders(s, now, timeline, v).1;
      |Active(s.datasets)| == 0 || LowerBorder.ScaleInDomain(b.0, b.1)
    ensures var r := Frame(s, ts, now, timeline, v, chartHeight);
      r.Some? ==> FrameAsWritten(AsJs(s), ts, now, timeline, v, chartHeight) == Ran(Output(AsJs(r.value.state), r.value.redraw, r.value.drawn))
  {
    var fb := FrameBorders(s, now, timeline, v);
    var b := fb.1;
    var lb := if |Active(s.datasets)| > 0 then LowerBorder.ScaleLowerBorder(b.0, b.1, s.lowerBorder) else s.lowerBorder;
    if RatioY(chartHeight, b.1, lb).Some? {
      var t := AsJs(s);
      var k := Gain(s.prevTs, ts);
      SameBorders(s, t, now, timeline, v);
      assert LowerBorderAsWritten(|Active(t.datasets)| > 0, b.0, b.1, t.lowerBorder) == Some(lb);
      var ratioY := RatioY(chartHeight, b.1, lb).value;
      FrameFinishes(s, ts, now, timeline, v, chartHeight, lb, ratioY);
      var f := Follow(s.lastRatioY, ratioY, k);
      FollowAsJs(s.lastRatioY, chartHeight, b.1, lb, ratioY, k);
      AsWrittenFinishes(t, ts, now, timeline, v, chartHeight, lb);
      FinishAsJs(s, ts, k, fb, lb, f);
    }
  }

  /** With a defined scale, following it as written is following it in the
      reals. */
  lemma FollowAsJs(last: Option<real>, chartHeight: real, max: Ext, lb: real, ratioY: real, k: real)
    requires RatioY(chartHeight, max, lb) == Some(ratioY)
    ensures var f := Follow(last, ratioY, k);
      FollowAsWritten(if last.Some? then Some(Finite(last.value)) else None, RatioYAsWritten(chartHeight, max, lb), k) == (Finite(f.0), f.1)
  {
  }

  /** Finish commutes with seeing a corrected state as the source holds it. */
  lemma FinishAsJs(s: State<real>, ts: real, k: real, fb: (Throttle.Throttle<(Ext, Ext)>, (Ext, Ext)), lb: real, f: (real, bool))
    ensures var o := Finish(s, ts, k, fb, lb, f);
      Finish(AsJs(s), ts, k, fb, lb, (Finite(f.0), f.1)) == Output(AsJs(o.state), o.redraw, o.drawn)
  {
  }

  /** A frame that goes through, put together from the border it settles
      on and the followed scale; both frames end this way. */
  function Finish<R>(s: State<R>, ts: real, k: real, fb: (Throttle.Throttle<(Ext, Ext)>, (Ext, Ext)), lb: real, ratio: (R, bool)): Output<R> {
    var (lastLowerBorder, lowerBorderChanging) := Follow(s.lastLowerBorder, lb, k);
    var redraw := OpacityFlag(s.datasets) || s.shouldRerender || ratio.1 || lowerBorderChanging;
    var datasets := StepOpacities(s.datasets, k);
    Output(State(datasets, fb.1.0, fb.1.1, lb, Some(lastLowerBorder), Some(ratio.0), ts, false, fb.0),
           redraw, if redraw then Drawn(datasets) else [])
  }

  /** The corrected frame, once its scale is defined, is Finish. */
  lemma FrameFinishes(s: State<real>, ts: real, now: real, timeline: seq<real>, v: Viewport.Viewport, chartHeight: real, lb: real, ratioY: real)
    requires |timeline| > 0 && Valid(s)
    requires var b := FrameBorders(s, now, timeline, v).1;
      && lb == (if |Active(s.datasets)| > 0 then LowerBorder.ScaleLowerBorder(b.0, b.1, s.lowerBorder) else s.lowerBorder)
      && RatioY(chartHeight, b.1, lb) == Some(ratioY)
    ensures var k := Gain(s.prevTs, ts);
      Frame(s, ts, now, timeline, v, chartHeight) == Some(Finish(s, ts, k, FrameBorders(s, now, timeline, v), lb, Follow(s.lastRatioY, ratioY, k)))
  {
  }

  /** The frame as written, once its search stops, is Finish. */
  lemma AsWrittenFinishes(t: State<JsNumber>, ts: real, now: real, timeline: seq<real>, v: Viewport.Viewport, chartHeight: real, lb: real)
    requires |timeline| > 0 && Valid(t)
    requires var fb := FrameBorders(t, now, timeline, v);
      LowerBorderAsWritten(|Active(t.datasets)| > 0, fb.1.0, fb.1.1, t.lowerBorder) == Some(lb)
    ensures var fb := FrameBorders(t, now, timeline, v);
      var k := Gain(t.prevTs, ts);
      FrameAsWritten(t, ts, now, timeline, v, chartHeight) == Ran(Finish(t, ts, k, fb, lb, FollowAsWritten(t.lastRatioY, RatioYAsWritten(chartHeight, fb.1.1, lb), k)))
  {
  }

  /** The border scan reads only the datasets, the borders and the throttle. */
  lemma SameBorders<R, S>(s: State<R>, t: State<S>, now: real, timeline: seq<real>, v: Viewport.Viewport)
    requires |timeline| > 0 && Valid(s)
    requires t.datasets == s.datasets && t.min == s.min && t.max == s.max && t.borders == s.borders
    ensures Valid(t) && FrameBorders(t, now, timeline, v) == FrameBorders(s, now, timeline, v)
  {
  }

  /** With datasets active and a top at zero, the frame as written runs on:
      the border is 0, the scale is Infinity, and the drawn scale leaves the
      reals (it becomes Infinity on the first frame). */
  lemma ZeroScaleLeavesReals(s: State<JsNumber>, ts: real, now: real, timeline: seq<real>, v: Viewport.Viewport, chartHeight: real)
    requires |timeline| > 0 && Valid(s) && 0.0 < chartHeight
    requires var b := FrameBorders(s, now, timeline, v).1;
      |Active(s.datasets)| > 0 && LowerBorder.TopAtZero(b.0, b.1)
    ensures var r := FrameAsWritten(s, ts, now, timeline, v, chartHeight);
      && r.Ran? && r.output.state.lowerBorder == 0.0
      && RatioYAsWritten(chartHeight, r.output.state.max, 0.0) == PosInfinity
      && r.output.state.lastRatioY.Some? && !r.output.state.lastRatioY.value.Finite?
      && (s.lastRatioY.None? ==> r.output.state.lastRatioY == Some(PosInfinity))
  {
  }

  /** Once the drawn scale has left the reals it never comes back: with the
      clock not running backwards every later frame that runs leaves it NaN,
      and a frame that throws keeps it. */
  lemma ScaleStaysLost(s: State<JsNumber>, ts: real, now: real, timeline: seq<real>, v: Viewport.Viewport, chartHeight: real)
    requires |timeline| > 0 && Valid(s) && s.prevTs <= ts
    requires s.lastRatioY.Some? && !s.lastRatioY.value.Finite?
    ensures var r := FrameAsWritten(s, ts, now, timeline, v, chartHeight);
      && (r.Ran? ==> r.output.state.lastRatioY == Some(NaN))
      && (r.Threw? ==> r.state.lastRatioY == s.lastRatioY)
  {
    Spring.MainChartGain(s.prevTs, ts);
  }

  /** toggleActiveDatasets({ id, checked }) as it is evidently meant to run:
      every dataset with the key heads for opacity 1 (checked) or 0, nothing
      else changes, and the throttle on the border scan is reset so that the
      next frame scans again. */
  function Toggle<R>(s: State<R>, id: string, checked: bool): (r: State<R>)
    ensures |r.datasets| == |s.datasets|
    ensures forall i :: 0 <= i < |s.datasets| ==> r.datasets[i] == s.datasets[i].(targetOpacity := r.datasets[i].targetOpacity)
    ensures forall i :: 0 <= i < |s.datasets| && s.datasets[i].id == id ==>
      r.datasets[i].targetOpacity == (if checked then 1.0 else 0.0)
    ensures forall i :: 0 <= i < |s.datasets| && s.datasets[i].id != id ==> r.datasets[i] == s.datasets[i]
    ensures r.borders.lastCallTime == 0.0
    ensures r == s.(datasets := r.datasets, borders := r.borders) && r.borders == s.borders.(lastCallTime := 0.0)
    ensures Valid(s) ==> Valid(r)
  {
    var target := if checked then 1.0 else 0.0;
    var ds := seq(|s.datasets|, i requires 0 <= i < |s.datasets| =>
      if s.datasets[i].id == id then s.datasets[i].(targetOpacity := target) else s.datasets[i]);
    s.(datasets := ds, borders := Throttle.Reset(s.borders))
  }

  /** After a toggle the active datasets are the ones with the key when it
      was switched on, plus those already heading for 1 under other keys. */
  lemma ToggleActive<R>(s: State<R>, id: string, checked: bool, values: seq<real>)
    ensures values in Active(Toggle(s, id, checked).datasets) <==>
      exists i :: 0 <= i < |s.datasets| && s.datasets[i].values == values
        && (if s.datasets[i].id == id then checked else s.datasets[i].targetOpacity == 1.0)
  {
    var r := Toggle(s, id, checked);
    if values in Active(r.datasets) {
      var i :| 0 <= i < |r.datasets| && r.datasets[i].targetOpacity == 1.0 && r.datasets[i].values == values;
      assert s.datasets[i].values == values;
    }
    if exists i :: 0 <= i < |s.datasets| && s.datasets[i].values == values
        && (if s.datasets[i].id == id then checked else s.datasets[i].targetOpacity == 1.0) {
      var i :| 0 <= i < |s.datasets| && s.datasets[i].values == values
        && (if s.datasets[i].id == id then checked else s.datasets[i].targetOpacity == 1.0);
      assert r.datasets[i].targetOpacity == 1.0;
    }
  }

  /** The frame after a toggle, at any clock reading from 250 ms on, scans
      the borders of the new active set rather than reusing stale ones. */
  lemma ToggleRefreshesBorders(s: State<real>, id: string, checked: bool, ts: real, now: real,
                               timeline: seq<real>, v: Viewport.Viewport, chartHeight: real)
    requires |timeline| > 0 && Valid(s) && s.borders.interval == BordersInterval && now >= BordersInterval
    ensures var t := Toggle(s, id, checked);
      var r := Frame(t, ts, now, timeline, v, chartHeight);
      var (lo, hi) := WindowBounds(timeline, v);
      r.Some? ==>
        (r.value.state.min, r.value.state.max) == VerticalBorders.VerticalBorders(Active(t.datasets), timeline, lo, hi, (s.min, s.max))
  {
    var t := Toggle(s, id, checked);
    assert Throttle.Fires(t.borders, now);
  }

  /** The index of the first dataset with the key. */
  function FirstMatch(ds: seq<Dataset>, id: string): (r: Option<nat>)
    ensures r.None? <==> forall i :: 0 <= i < |ds| ==> ds[i].id != id
    ensures r.Some? ==> r.value < |ds| && ds[r.value].id == id && forall j :: 0 <= j < r.value ==> ds[j].id != id
  {
    if |ds| == 0 then None
    else if ds[0].id == id then Some(0)
    else
      assert forall j :: 1 <= j < |ds| ==> ds[j] == ds[1..][j - 1];
      match FirstMatch(ds[1..], id)
      case None => None
      case Some(j) => Some(j + 1)
  }

  /** toggleActiveDatasets as written. The loop calls
      `this.map.toggleDataset`, which the minimap does not define: at the
      first dataset with the key the handler sets that dataset's target and
      then throws, so later datasets with the key keep their targets and the
      throttle reset after the loop is never reached. The flag reports the
      throw. With no dataset of that key the loop ends normally and the
      throttle is reset. */
  function ToggleAsWritten<R>(s: State<R>, id: string, checked: bool): (r: (State<R>, bool))
    ensures r.1 <==> exists i :: 0 <= i < |s.datasets| && s.datasets[i].id == id
    ensures !r.1 ==> r.0 == s.(borders := Throttle.Reset(s.borders))
    ensures r.1 ==> r.0.borders == s.borders && |r.0.datasets| == |s.datasets|
    ensures r.1 ==> exists i :: (0 <= i < |s.datasets| && s.datasets[i].id == id
      && (forall j :: 0 <= j < i ==> s.datasets[j].id != id)
      && r.0.datasets == s.datasets[i := s.datasets[i].(targetOpacity := if checked then 1.0 else 0.0)])
    ensures Valid(s) ==> Valid(r.0)
  {
    match FirstMatch(s.datasets, id)
    case None => (s.(borders := Throttle.Reset(s.borders)), false)
    case Some(i) =>
      var target := if checked then 1.0 else 0.0;
      (s.(datasets := s.datasets[i := s.datasets[i].(targetOpacity := target)]), true)
  }

  /** The frame right after a toggle as written, while the throttle still
      holds (within 250 ms of the last scan), keeps the borders scanned
      before the toggle, whatever the toggle changed. */
  lemma StaleBordersAfterToggle(s: State<real>, id: string, checked: bool, ts: real, now: real,
                                timeline: seq<real>, v: Viewport.Viewport, chartHeight: real)
    requires |timeline| > 0 && Valid(s) && !s.borders.isFirstCall
    requires now - s.borders.lastCallTime < s.borders.interval
    requires exists i :: 0 <= i < |s.datasets| && s.datasets[i].id == id
    ensures var r := Frame(ToggleAsWritten(s, id, checked).0, ts, now, timeline, v, chartHeight);
      r.Some? ==> r.value.state.min == s.min && r.value.state.max == s.max
  {
  }

  /** A chart state with two shown datasets, "a" at 10 and "b" at 1 on a
      one-timestamp timeline, whose borders were scanned 100 ms ago. */
  function TwoDatasets(): State<real> {
    State([Dataset("a", [10.0], 1.0, 1.0), Dataset("b", [1.0], 1.0, 1.0)],
          Fin(0.99), Fin(10.1), 0.0, Some(0.0), Some(1.0), 1000.0, false,
          Throttle.Throttle(1000.0, false, Some((Fin(0.99), Fin(10.1))), BordersInterval))
  }

  /** Hiding "a" with the handler as written: the next frame keeps the
      maximum 10.1 that only the hidden dataset reaches, while a scan of the
      datasets still shown gives 1.01. */
  lemma HiddenMaximumSurvives()
    ensures var t := ToggleAsWritten(TwoDatasets(), "a", false).0;
      var r := Frame(t, 1100.0, 1100.0, [0.0], Viewport.Viewport(0.0, 1.0), 100.0);
      && r.Some? && r.value.state.max == Fin(10.1)
      && VerticalBorders.VerticalBorders(Active(t.datasets), [0.0], 0.0, 0.0, (t.min, t.max)).1 == Fin(1.01)
  {
    var s := TwoDatasets();
    var t := ToggleAsWritten(s, "a", false).0;
    HidingA();
    assert |Active(t.datasets)| > 0;
    assert FrameBorders(t, 1100.0, [0.0], Viewport.Viewport(0.0, 1.0)).1 == (Fin(0.99), Fin(10.1));
    FiniteOnDomain(t, 1100.0, 1100.0, [0.0], Viewport.Viewport(0.0, 1.0), 100.0);
    StaleBordersAfterToggle(s, "a", false, 1100.0, 1100.0, [0.0], Viewport.Viewport(0.0, 1.0), 100.0);
    ScanOfB(t.min, t.max);
  }

  /** Hiding "a" leaves "b" as the only active dataset and keeps the
      throttle as it was. */
  lemma HidingA()
    ensures var t := ToggleAsWritten(TwoDatasets(), "a", false);
      && t.1
      && t.0.datasets == [Dataset("a", [10.0], 1.0, 0.0), Dataset("b", [1.0], 1.0, 1.0)]
      && t.0 == TwoDatasets().(datasets := t.0.datasets)
      && Active(t.0.datasets) == [[1.0]]
  {
    var s := TwoDatasets();
    assert s.datasets[0].id == "a";
    var t := ToggleAsWritten(s, "a", false).0;
    assert t.datasets[..1] == [Dataset("a", [10.0], 1.0, 0.0)];
    assert t.datasets[..1][..0] == [];
  }

  /** The scan of "b" alone over the single timestamp. */
  lemma ScanOfB(min: Ext, max: Ext)
    ensures VerticalBorders.VerticalBorders([[1.0]], [0.0], 0.0, 0.0, (min, max)).1 == Fin(1.01)
  {
    assert VerticalBorders.Window([[1.0]], [0.0], 0.0, 0.0) == [1.0] by {
      assert [[1.0]][..0] == [];
      assert [1.0][..0] == [];
      assert VerticalBorders.InWindow([0.0], 0, 0.0, 0.0);
    }
    assert SeqMax([1.0]) == Fin(1.0);
    assert Floor(1.0 * 1.01 * 1000.0) == 1010.0 by {
      assert (1010.0).Floor == 1010;
    }
  }

  /** The methods the later minimap's class defines. The chart calls two
      more on it: `subscribe` in init and `toggleDataset` in the legend
      handler. */
  const MinimapMethods: set<string> := {"init", "addEventListeners", "sibscribe", "fireChangeViewportEvent",
    "turnOffDataset", "turnOnDataset", "update", "drawChart",
    "sliderTouchHandle", "rightHandTouchHandle", "leftHandTouchHandle"}

  /** What init has set up when it returns or throws: the chart's callback
      on the minimap's viewport events, its handler on the legend, and the
      first animation frame. */
  datatype Wiring = Wiring(viewportSubscribed: bool, legendSubscribed: bool, framesScheduled: bool)

  /** The end of init, from the minimap's subscription on: it calls the
      minimap's method `name`, then subscribes to the legend, then asks for
      the first frame. Calling a method the minimap does not define throws
      a TypeError, and nothing after the call happens. The flag reports the
      throw. Frames, and with them every call of update, and the legend
      handler exist exactly when the minimap defines the name called. */
  function InitWiring(methods: set<string>, name: string): (r: (Wiring, bool))
    ensures r.1 <==> name !in methods
    ensures r.0.framesScheduled <==> name in methods
    ensures r.0.legendSubscribed <==> name in methods
    ensures r.0.legendSubscribed ==> r.0.viewportSubscribed
  {
    if name in methods then (Wiring(true, true, true), false) else (Wiring(false, false, false), true)
  }

  /** As written, init calls `this.map.subscribe`, but the minimap defines
      only `sibscribe`: init throws, no frame is ever scheduled and the
      legend handler is never attached, so neither update nor
      toggleActiveDatasets ever runs. The handler's own call,
      `toggleDataset`, is not defined either. */
  lemma InitAsWritten()
    ensures InitWiring(MinimapMethods, "subscribe") == (Wiring(false, false, false), true)
    ensures "toggleDataset" !in MinimapMethods
  {
  }

  /** Calling the subscription method by the name the minimap defines, init
      goes through and wires the viewport events, the legend and the frames. */
  lemma InitCorrected()
    ensures InitWiring(MinimapMethods, "sibscribe") == (Wiring(true, true, true), false)
  {
  }
}
