/** The minimap of the later chart version: every dataset drawn over the
    whole timeline at a vertical scale fitted to the values of the datasets
    shown, animated towards a new scale when the legend hides or shows a
    dataset, plus the three touch handlers of its slider. */
module Minimap {
  import opened Num
  import Spring
  import Slider

  /** MIN_WIDTH_VIEWPORT: the narrowest the slider may get, in pixels. */
  const MinWidth: real := 40.0

  /** The cap on the time a minimap frame accounts for, in ms. */
  const DeltaCap: real := 50.0

  /** A dataset as the minimap keeps it: its name, its values, its drawn and
      target vertical scale, and its drawn and target opacity. `None` for a
      scale is the Infinity or NaN a zero value range gives. */
  datatype Series = Series(name: string, values: seq<real>,
                           ratioY: Option<real>, targetRatioY: Option<real>,
                           opacity: real, targetOpacity: real)

  /** The minimap's state: its datasets, the extremes the last rescale used,
      the canvas size, the horizontal scale and the previous frame's
      timestamp (0 before the first frame). */
  datatype Minimap = Minimap(datasets: seq<Series>, maxY: Ext, minY: Ext,
                             width: real, height: real, ratioX: Option<real>, prevTs: real)

  /** Whether a dataset takes part in an extreme: all of them, or all but the
      one named `skip`. */
  predicate Counts(d: Series, skip: Option<string>) {
    skip.None? || d.name != skip.value
  }

  /** `m` is `Math.max` of every value of every dataset that counts. */
  ghost predicate IsMaxOver(m: Ext, ds: seq<Series>, skip: Option<string>) {
    && (m == NegInf <==> forall i :: 0 <= i < |ds| && Counts(ds[i], skip) ==> |ds[i].values| == 0)
    && !m.PosInf?
    && (m.Fin? ==> forall i, j :: 0 <= i < |ds| && Counts(ds[i], skip) && 0 <= j < |ds[i].values| ==> ds[i].values[j] <= m.v)
    && (m.Fin? ==> exists i :: 0 <= i < |ds| && Counts(ds[i], skip) && m.v in ds[i].values)
  }

  /** `m` is `Math.min` of every value of every dataset that counts. */
  ghost predicate IsMinOver(m: Ext, ds: seq<Series>, skip: Option<string>) {
    && (m == PosInf <==> forall i :: 0 <= i < |ds| && Counts(ds[i], skip) ==> |ds[i].values| == 0)
    && !m.NegInf?
    && (m.Fin? ==> forall i, j :: 0 <= i < |ds| && Counts(ds[i], skip) && 0 <= j < |ds[i].values| ==> m.v <= ds[i].values[j])
    && (m.Fin? ==> exists i :: 0 <= i < |ds| && Counts(ds[i], skip) && m.v in ds[i].values)
  }

  /** The datasets' value lists. */
  function ValuesOf(ds: seq<Series>): (r: seq<seq<real>>)
    ensures |r| == |ds|
    ensures forall i :: 0 <= i < |ds| ==> r[i] == ds[i].values
  {
    seq(|ds|, i requires 0 <= i < |ds| => ds[i].values)
  }

  /** A value lies in the concatenation of the datasets' values exactly when
      it is a value of one of them. */
  lemma InFlatten(ds: seq<Series>, x: real)
    ensures x in Flatten(ValuesOf(ds)) <==> exists i :: 0 <= i < |ds| && x in ds[i].values
  {
    var lists := ValuesOf(ds);
    if x in Flatten(lists) {
      var i :| 0 <= i < |lists| && x in lists[i];
      assert x in ds[i].values;
    }
    if exists i :: 0 <= i < |ds| && x in ds[i].values {
      var i :| 0 <= i < |ds| && x in ds[i].values;
      assert x in lists[i];
    }
  }

  /** getMaxPoint: `Math.max` of the concatenation of all values. */
  function MaxPoint(ds: seq<Series>): (m: Ext)
    ensures IsMaxOver(m, ds, None)
  {
    ExtremaOfAll(ds);
    SeqMax(Flatten(ValuesOf(ds)))
  }

  /** getMinPoint: `Math.min` of the concatenation of all values. */
  function MinPoint(ds: seq<Series>): (m: Ext)
    ensures IsMinOver(m, ds, None)
  {
    ExtremaOfAll(ds);
    SeqMin(Flatten(ValuesOf(ds)))
  }

  /** The extremes of the concatenation are the extremes over every value of
      every dataset. */
  lemma ExtremaOfAll(ds: seq<Series>)
    ensures IsMaxOver(SeqMax(Flatten(ValuesOf(ds))), ds, None)
    ensures IsMinOver(SeqMin(Flatten(ValuesOf(ds))), ds, None)
  {
    var all := Flatten(ValuesOf(ds));
    var mx, mn := SeqMax(all), SeqMin(all);
    forall i, j | 0 <= i < |ds| && 0 <= j < |ds[i].values|
      ensures ds[i].values[j] in all
    {
      InFlatten(ds, ds[i].values[j]);
    }
    if mx.Fin? {
      InFlatten(ds, mx.v);
      forall i, j | 0 <= i < |ds| && 0 <= j < |ds[i].values|
        ensures ds[i].values[j] <= mx.v
      {
        var k := IndexIn(all, ds[i].values[j]);
      }
    }
    if mn.Fin? {
      InFlatten(ds, mn.v);
      forall i, j | 0 <= i < |ds| && 0 <= j < |ds[i].values|
        ensures mn.v <= ds[i].values[j]
      {
        var k := IndexIn(all, ds[i].values[j]);
      }
    }
    forall i | 0 <= i < |ds| ensures |ds[i].values| > 0 ==> |all| > 0 {
      if |ds[i].values| > 0 {
        InFlatten(ds, ds[i].values[0]);
      }
    }
    if |all| > 0 {
      InFlatten(ds, all[0]);
    }
  }

  /** A position of a value in a list that holds it. */
  function IndexIn(s: seq<real>, x: real): (i: nat)
    requires x in s
    ensures i < |s| && s[i] == x
  {
    if s[0] == x then 0 else 1 + IndexIn(s[1..], x)
  }

  /** `height / (maxY - minY)`. Equal finite extremes give Infinity or NaN
      (`None`); the extremes of no values at all, -Infinity and Infinity,
      give a zero scale. */
  function Scale(height: real, maxY: Ext, minY: Ext): (r: Option<real>)
    ensures maxY.Fin? && minY.Fin? ==> (r.Some? <==> maxY.v != minY.v)
    ensures r.Some? && maxY.Fin? && minY.Fin? ==> r.value * (maxY.v - minY.v) == height
    ensures maxY == NegInf && minY == PosInf ==> r == Some(0.0)
  {
    if maxY.Fin? && minY.Fin? then Ratio(height, maxY, minY)
    else if maxY == minY then None
    else Some(0.0)
  }

  /** `width / (timeline[last] - timeline[0])`: `None` for an empty timeline
      (NaN) or one with equal ends (Infinity or NaN). */
  function RatioX(width: real, timeline: seq<real>): (r: Option<real>)
    ensures r.Some? <==> |timeline| > 0 && timeline[0] != timeline[|timeline| - 1]
    ensures r.Some? ==> r.value * (timeline[|timeline| - 1] - timeline[0]) == width
  {
    if |timeline| > 0 && timeline[0] != timeline[|timeline| - 1] then
      Some(width / (timeline[|timeline| - 1] - timeline[0]))
    else None
  }

  /** init: the scale fitted to every value, each dataset fully shown at
      that scale. */
  function Init(series: seq<(string, seq<real>)>, width: real, height: real, timeline: seq<real>): (m: Minimap)
    ensures |m.datasets| == |series|
    ensures IsMaxOver(m.maxY, m.datasets, None) && IsMinOver(m.minY, m.datasets, None)
    ensures forall i :: 0 <= i < |series| ==>
      m.datasets[i] == Series(series[i].0, series[i].1, Scale(height, m.maxY, m.minY), Scale(height, m.maxY, m.minY), 1.0, 1.0)
    ensures m.ratioX == RatioX(width, timeline) && m.prevTs == 0.0
  {
    var raw := seq(|series|, i requires 0 <= i < |series| => Series(series[i].0, series[i].1, None, None, 1.0, 1.0));
    var maxY, minY := MaxPoint(raw), MinPoint(raw);
    var ratio := Scale(height, maxY, minY);
    var ds := seq(|series|, i requires 0 <= i < |series| => Series(series[i].0, series[i].1, ratio, ratio, 1.0, 1.0));
    SameValuesSameExtremes(ds, raw);
    assert IsMaxOver(maxY, ds, None) && IsMinOver(minY, ds, None);
    Minimap(ds, maxY, minY, width, height, RatioX(width, timeline), 0.0)
  }

  /** The datasets not named `name`, in order: turnOffDataset's
      `stayDatasets`. */
  function Others(ds: seq<Series>, name: string): (r: seq<Series>)
    ensures forall d :: d in r <==> d in ds && d.name != name
  {
    if |ds| == 0 then []
    else if ds[0].name == name then Others(ds[1..], name)
    else [ds[0]] + Others(ds[1..], name)
  }

  /** The extremes of the other datasets are the extremes over the whole
      list with the named dataset skipped. */
  lemma ExtremaOfOthers(ds: seq<Series>, name: string)
    ensures IsMaxOver(MaxPoint(Others(ds, name)), ds, Some(name))
    ensures IsMinOver(MinPoint(Others(ds, name)), ds, Some(name))
  {
    MaxOfOthers(ds, name);
    MinOfOthers(ds, name);
  }

  /** Each dataset not named `name` is one of the others, and each of the
      others is such a dataset. */
  lemma OthersAreCounted(ds: seq<Series>, name: string)
    ensures forall i :: 0 <= i < |ds| && Counts(ds[i], Some(name)) ==> ds[i] in Others(ds, name)
    ensures forall k :: 0 <= k < |Others(ds, name)| ==> Others(ds, name)[k] in ds && Counts(Others(ds, name)[k], Some(name))
  {
    var os := Others(ds, name);
    forall k | 0 <= k < |os| ensures os[k] in ds && os[k].name != name {
      assert os[k] in os;
    }
  }

  lemma MaxOfOthers(ds: seq<Series>, name: string)
    ensures IsMaxOver(MaxPoint(Others(ds, name)), ds, Some(name))
  {
    var os := Others(ds, name);
    OthersAreCounted(ds, name);
    var mx := MaxPoint(os);
    if mx.Fin? {
      var k :| 0 <= k < |os| && mx.v in os[k].values;
      var i :| 0 <= i < |ds| && ds[i] == os[k];
      forall i, j | 0 <= i < |ds| && Counts(ds[i], Some(name)) && 0 <= j < |ds[i].values|
        ensures ds[i].values[j] <= mx.v
      {
        var k :| 0 <= k < |os| && os[k] == ds[i];
      }
    } else if mx == NegInf {
      forall i | 0 <= i < |ds| && Counts(ds[i], Some(name)) ensures |ds[i].values| == 0 {
        var k :| 0 <= k < |os| && os[k] == ds[i];
      }
    }
  }

  lemma MinOfOthers(ds: seq<Series>, name: string)
    ensures IsMinOver(MinPoint(Others(ds, name)), ds, Some(name))
  {
    var os := Others(ds, name);
    OthersAreCounted(ds, name);
    var mn := MinPoint(os);
    if mn.Fin? {
      var k :| 0 <= k < |os| && mn.v in os[k].values;
      var i :| 0 <= i < |ds| && ds[i] == os[k];
      forall i, j | 0 <= i < |ds| && Counts(ds[i], Some(name)) && 0 <= j < |ds[i].values|
        ensures mn.v <= ds[i].values[j]
      {
        var k :| 0 <= k < |os| && os[k] == ds[i];
      }
    } else if mn == PosInf {
      forall i | 0 <= i < |ds| && Counts(ds[i], Some(name)) ensures |ds[i].values| == 0 {
        var k :| 0 <= k < |os| && os[k] == ds[i];
      }
    }
  }

  /** The two loops of turnOffDataset over the datasets. */
  function HideNamed(ds: seq<Series>, name: string, ratio: Option<real>): (r: seq<Series>)
    ensures |r| == |ds|
    ensures forall i :: 0 <= i < |ds| && ds[i].name == name ==> r[i] == ds[i].(targetOpacity := 0.0)
    ensures forall i :: 0 <= i < |ds| && ds[i].name != name ==> r[i] == ds[i].(targetRatioY := ratio)
  {
    seq(|ds|, i requires 0 <= i < |ds| =>
      if ds[i].name == name then ds[i].(targetOpacity := 0.0) else ds[i].(targetRatioY := ratio))
  }

  /** turnOffDataset(name): the named dataset heads for opacity 0 and keeps
      its scale target; every other dataset heads for the scale fitted to
      the values of all datasets but the named one (hidden or not). */
  function TurnOff(m: Minimap, name: string): (r: Minimap)
    ensures |r.datasets| == |m.datasets|
    ensures IsMaxOver(r.maxY, m.datasets, Some(name)) && IsMinOver(r.minY, m.datasets, Some(name))
    ensures forall i :: 0 <= i < |m.datasets| && m.datasets[i].name == name ==>
      r.datasets[i] == m.datasets[i].(targetOpacity := 0.0)
    ensures forall i :: 0 <= i < |m.datasets| && m.datasets[i].name != name ==>
      r.datasets[i] == m.datasets[i].(targetRatioY := Scale(m.height, r.maxY, r.minY))
    ensures r.width == m.width && r.height == m.height && r.ratioX == m.ratioX && r.prevTs == m.prevTs
  {
    var ds := m.datasets;
    var stay := Others(ds, name);
    var maxY, minY := MaxPoint(stay), MinPoint(stay);
    ExtremaOfOthers(ds, name);
    m.(datasets := HideNamed(ds, name, Scale(m.height, maxY, minY)), maxY := maxY, minY := minY)
  }

  /** turnOnDataset(name): the scale is fitted to every value again and
      every dataset heads for it; the named dataset heads for opacity 1 and
      jumps to the new scale at once. */
  function TurnOn(m: Minimap, name: string): (r: Minimap)
    ensures |r.datasets| == |m.datasets|
    ensures IsMaxOver(r.maxY, m.datasets, None) && IsMinOver(r.minY, m.datasets, None)
    ensures forall i :: 0 <= i < |m.datasets| && m.datasets[i].name == name ==>
      r.datasets[i] == m.datasets[i].(targetOpacity := 1.0, ratioY := Scale(m.height, r.maxY, r.minY),
                                      targetRatioY := Scale(m.height, r.maxY, r.minY))
    ensures forall i :: 0 <= i < |m.datasets| && m.datasets[i].name != name ==>
      r.datasets[i] == m.datasets[i].(targetRatioY := Scale(m.height, r.maxY, r.minY))
    ensures r.width == m.width && r.height == m.height && r.ratioX == m.ratioX && r.prevTs == m.prevTs
  {
    var ds := m.datasets;
    var maxY, minY := MaxPoint(ds), MinPoint(ds);
    var ratio := Scale(m.height, maxY, minY);
    var next := seq(|ds|, i requires 0 <= i < |ds| =>
      if ds[i].name == name then ds[i].(targetOpacity := 1.0, ratioY := ratio, targetRatioY := ratio)
      else ds[i].(targetRatioY := ratio));
    m.(datasets := next, maxY := maxY, minY := minY)
  }

  /** Datasets with the same value lists have the same extremes. */
  lemma SameValuesSameExtremes(ds: seq<Series>, es: seq<Series>)
    requires |ds| == |es| && forall i :: 0 <= i < |ds| ==> ds[i].values == es[i].values
    ensures MaxPoint(ds) == MaxPoint(es) && MinPoint(ds) == MinPoint(es)
  {
    assert ValuesOf(ds) == ValuesOf(es);
  }

  /** turnOnDataset does not depend on the scale targets it overwrites,
      nor on the named dataset's opacity target. */
  lemma TurnOnOverwritesTargets(m1: Minimap, m2: Minimap, name: string)
    requires |m1.datasets| == |m2.datasets|
    requires m1.width == m2.width && m1.height == m2.height && m1.ratioX == m2.ratioX && m1.prevTs == m2.prevTs
    requires forall i :: 0 <= i < |m1.datasets| ==>
      m1.datasets[i] == m2.datasets[i].(targetOpacity := m1.datasets[i].targetOpacity, targetRatioY := m1.datasets[i].targetRatioY)
    requires forall i :: 0 <= i < |m1.datasets| && m1.datasets[i].name != name ==>
      m1.datasets[i].targetOpacity == m2.datasets[i].targetOpacity
    ensures TurnOn(m1, name) == TurnOn(m2, name)
  {
    SameValuesSameExtremes(m1.datasets, m2.datasets);
    var a, b := TurnOn(m1, name), TurnOn(m2, name);
    forall i | 0 <= i < |m1.datasets| ensures a.datasets[i] == b.datasets[i] {
      assert m1.datasets[i].name == m2.datasets[i].name;
    }
    assert a.datasets == b.datasets;
  }

  /** Hiding a dataset and showing it again leaves the minimap as showing it
      straight away would: nothing turnOffDataset changed survives
      turnOnDataset. */
  lemma TurnOffThenOn(m: Minimap, name: string)
    ensures TurnOn(TurnOff(m, name), name) == TurnOn(m, name)
  {
    TurnOnOverwritesTargets(TurnOff(m, name), m, name);
  }

  /** One frame's step of a scale: both finite, the spring step; otherwise
      the arithmetic stays Infinity or NaN. */
  function StepRatio(ratio: Option<real>, target: Option<real>, k: real): (r: Option<real>)
    ensures r.Some? <==> ratio.Some? && target.Some?
    ensures r.Some? && 0.0 <= k <= 1.0 ==> Min(ratio.value, target.value) <= r.value <= Max(ratio.value, target.value)
    ensures r.Some? && Abs(target.value - ratio.value) < Spring.Epsilon ==> r.value == target.value
  {
    if ratio.Some? && target.Some? then Some(Spring.Step(ratio.value, target.value, k, Spring.Epsilon)) else None
  }

  /** update(ts): with the frame time capped at 50 ms and the gain
      `k = 0.008 * delta`, every dataset's opacity and scale take one spring
      step towards their targets; nothing else changes. */
  function Update(m: Minimap, ts: real): (r: Minimap)
    ensures |r.datasets| == |m.datasets| && r.prevTs == ts
    ensures r == m.(datasets := r.datasets, prevTs := ts)
    ensures forall i :: 0 <= i < |m.datasets| ==>
      r.datasets[i] == m.datasets[i].(opacity := r.datasets[i].opacity, ratioY := r.datasets[i].ratioY)
    ensures forall i :: 0 <= i < |m.datasets| ==>
      (r.datasets[i].ratioY.Some? <==> m.datasets[i].ratioY.Some? && m.datasets[i].targetRatioY.Some?)
    ensures forall i :: 0 <= i < |m.datasets| && Abs(m.datasets[i].targetOpacity - m.datasets[i].opacity) < Spring.Epsilon ==>
      r.datasets[i].opacity == m.datasets[i].targetOpacity
    ensures m.prevTs <= ts ==> forall i :: 0 <= i < |m.datasets| ==>
      var d := m.datasets[i];
      Min(d.opacity, d.targetOpacity) <= r.datasets[i].opacity <= Max(d.opacity, d.targetOpacity)
    ensures m.prevTs <= ts ==> forall i :: 0 <= i < |m.datasets| && r.datasets[i].ratioY.Some? ==>
      var d := m.datasets[i];
      Min(d.ratioY.value, d.targetRatioY.value) <= r.datasets[i].ratioY.value <= Max(d.ratioY.value, d.targetRatioY.value)
  {
    var delta := Spring.FrameDelta(m.prevTs, ts, DeltaCap);
    var k := 0.008 * delta;
    assert m.prevTs <= ts ==> 0.0 <= k <= 1.0 by {
      if m.prevTs <= ts {
        Spring.MinimapGain(m.prevTs, ts);
      }
    }
    var ds := m.datasets;
    var next := seq(|ds|, i requires 0 <= i < |ds| =>
      ds[i].(opacity := Spring.Step(ds[i].opacity, ds[i].targetOpacity, k, Spring.Epsilon),
             ratioY := StepRatio(ds[i].ratioY, ds[i].targetRatioY, k)));
    m.(datasets := next, prevTs := ts)
  }

  /** A dataset at its targets stays there: a minimap at rest only records
      the frame time. */
  lemma UpdateAtRest(m: Minimap, ts: real)
    requires forall i :: 0 <= i < |m.datasets| ==>
      m.datasets[i].opacity == m.datasets[i].targetOpacity && m.datasets[i].ratioY == m.datasets[i].targetRatioY
    ensures Update(m, ts) == m.(prevTs := ts)
  {
    var r := Update(m, ts);
    assert r.datasets == m.datasets by {
      forall i | 0 <= i < |m.datasets| ensures r.datasets[i] == m.datasets[i] {
        var d := m.datasets[i];
        assert Abs(d.targetOpacity - d.opacity) < Spring.Epsilon;
        if d.ratioY.Some? {
          assert Abs(d.targetRatioY.value - d.ratioY.value) < Spring.Epsilon;
        }
      }
    }
  }

  /** drawChart's point `i` of a dataset: `height - floor((value - minY) * ratioY)`
      and `floor((timeline[i] - timeline[0]) * ratioX)`. */
  function Point(height: real, minY: real, ratioY: real, ratioX: real, t0: real, t: real, value: real): (r: (real, real))
    ensures r.0 <= (t - t0) * ratioX < r.0 + 1.0
    ensures r.1 - 1.0 < height - (value - minY) * ratioY <= r.1
    ensures t == t0 ==> r.0 == 0.0
    ensures value == minY ==> r.1 == height
  {
    var x, y := (t - t0) * ratioX, (value - minY) * ratioY;
    assert x.Floor as real <= x < x.Floor as real + 1.0;
    assert y.Floor as real <= y < y.Floor as real + 1.0;
    assert t == t0 ==> x == 0.0 by {
      if t == t0 { assert t - t0 == 0.0; }
    }
    assert value == minY ==> y == 0.0 by {
      if value == minY { assert value - minY == 0.0; }
    }
    (Floor((t - t0) * ratioX), height - Floor((value - minY) * ratioY))
  }

  /** With the scales fitted to the extremes, the lowest value is drawn on
      the bottom edge, the highest on the top edge (for a whole canvas
      height), the first timestamp on the left edge and the last one on the
      right edge (for a whole canvas width). */
  lemma PointCorners(height: real, width: real, maxY: real, minY: real, timeline: seq<real>,
                     ratioY: real, ratioX: real, t: real, value: real)
    requires Scale(height, Fin(maxY), Fin(minY)) == Some(ratioY)
    requires RatioX(width, timeline) == Some(ratioX)
    requires height == Floor(height) && width == Floor(width)
    ensures var p := Point(height, minY, ratioY, ratioX, timeline[0], t, value);
      && (value == minY ==> p.1 == height)
      && (value == maxY ==> p.1 == 0.0)
      && (t == timeline[0] ==> p.0 == 0.0)
      && (t == timeline[|timeline| - 1] ==> p.0 == width)
  {
    Corners(height, width, maxY, minY, timeline[0], timeline[|timeline| - 1], ratioY, ratioX, t, value);
  }

  /** PointCorners with the scales given by what they solve. */
  lemma Corners(height: real, width: real, maxY: real, minY: real, t0: real, tn: real,
                ratioY: real, ratioX: real, t: real, value: real)
    requires ratioY * (maxY - minY) == height && ratioX * (tn - t0) == width
    requires height == Floor(height) && width == Floor(width)
    ensures var p := Point(height, minY, ratioY, ratioX, t0, t, value);
      && (value == minY ==> p.1 == height)
      && (value == maxY ==> p.1 == 0.0)
      && (t == t0 ==> p.0 == 0.0)
      && (t == tn ==> p.0 == width)
  {
    assert Floor(0.0) == 0.0;
    if value == minY {
      assert (value - minY) * ratioY == 0.0;
    }
    if value == maxY {
      assert (value - minY) * ratioY == height;
    }
    if t == t0 {
      assert (t - t0) * ratioX == 0.0;
    }
    if t == tn {
      assert (t - t0) * ratioX == width;
    }
  }

  /** The slider drag: no viewport event. */
  function MoveSlider(wrap: Slider.Box, grab: Slider.Box, originX: real, pageX: real): (r: real)
    ensures grab.width <= wrap.width ==> 0.0 <= r <= wrap.width - grab.width
    ensures grab.width <= wrap.width ==> r == Slider.Clamp(grab.left - wrap.left + (pageX - originX), 0.0, wrap.width - grab.width)
  {
    assert grab.width <= wrap.width ==>
      Slider.Move(wrap, grab, grab.width, originX, pageX).translate
        == Slider.Clamp(grab.left - wrap.left + (pageX - originX), 0.0, wrap.width - grab.width) by {
      if grab.width <= wrap.width {
        Slider.MoveIsClamp(wrap, grab, grab.width, originX, pageX);
      }
    }
    Slider.Move(wrap, grab, grab.width, originX, pageX).translate
  }

  /** The left-handle drag, and whether it notifies the subscribers: only
      the branch clamping to the minimum width calls fireChangeViewportEvent
      (which passes the callbacks no arguments). */
  function LeftHand(wrap: Slider.Box, grab: Slider.Box, originX: real, pageX: real): (r: (Slider.Drag, bool))
    ensures r.1 <==> grab.width - (pageX - originX) < MinWidth
    ensures r.0.translate + r.0.width == Slider.Right(grab) - wrap.left
    ensures r.0.branch != Slider.High ==> r.0.width >= MinWidth
  {
    var d := Slider.LeftHandle(wrap, grab, grab.width, originX, pageX, MinWidth);
    Slider.LeftHandleKeepsRightEdge(wrap, grab, originX, pageX, MinWidth);
    (d, d.branch == Slider.Low)
  }

  /** The right-handle drag: no viewport event, the translate untouched. */
  function RightHand(wrap: Slider.Box, grab: Slider.Box, translate: real, originX: real, pageX: real): (r: Slider.Drag)
    ensures r.translate == translate
    ensures grab.left + MinWidth <= Slider.Right(wrap) ==>
      MinWidth <= r.width && (grab.left - wrap.left) + r.width <= wrap.width
  {
    Slider.RightHandle(wrap, grab, translate, grab.width, originX, pageX, MinWidth)
  }
}
