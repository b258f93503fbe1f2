/** drawYLabels of the later chart version: six value labels spaced evenly
    from the lower border up to the top gridline, reconciled against the
    labels already on screen (keyed by value), then animated. */
module YLabels {
  import opened Num
  import opened Labels
  import Plot
  import LowerBorder

  /** The six gridline values, `Math.floor((dimension * i + lowerBorder) * 1000) / 1000`
      with `dimension = ((chartHeight - TOP_OFFSET) / ratioY) / HORIZONTAL_LINES`.
      `None` is the non-finite list a zero ratio gives. */
  function TickValues(chartHeight: real, ratioY: real, lowerBorder: real): (r: Option<seq<real>>)
    ensures r.Some? <==> ratioY != 0.0
    ensures r.Some? ==> |r.value| == 6
    ensures r.Some? ==> forall i :: 0 <= i < 6 ==>
      var exact := Tick(chartHeight, ratioY, lowerBorder, i);
      r.value[i] <= exact < r.value[i] + 0.001
  {
    if ratioY == 0.0 then None
    else
      Some(seq(6, i requires 0 <= i < 6 =>
        TruncatedTick(Tick(chartHeight, ratioY, lowerBorder, i))))
  }

  /** The exact value of gridline `i`. */
  function Tick(chartHeight: real, ratioY: real, lowerBorder: real, i: nat): real
    requires ratioY != 0.0
  {
    var newMaxY := (chartHeight - Plot.TopOffset) / ratioY;
    var dimension := newMaxY / LowerBorder.HorizontalLines;
    dimension * i as real + lowerBorder
  }

  /** Flooring to thousandths never adds and loses less than 0.001. */
  function TruncatedTick(x: real): (r: real)
    ensures r <= x < r + 0.001
  {
    var n := (x * 1000.0).Floor;
    assert n as real <= x * 1000.0 < n as real + 1.0;
    Floor(x * 1000.0) / 1000.0
  }

  /** The labels a frame wants: one per gridline value, invisible, aiming at
      full fill and stroke. */
  function Wanted(values: seq<real>): (r: seq<(real, Label)>)
    ensures |r| == |values|
    ensures forall i :: 0 <= i < |values| ==> r[i] == (values[i], Label(values[i], 0.0, 0.0, 1.0, 0.0, 1.0))
  {
    seq(|values|, i requires 0 <= i < |values| => (values[i], Label(values[i], 0.0, 0.0, 1.0, 0.0, 1.0)))
  }

  /** The two reconciling loops: fade and prune, then admit the wanted labels
      with targets 0.4 (fill) and 0.16 (stroke) for those still tracked. */
  function Reconcile(m: map<real, Label>, values: seq<real>): (r: map<real, Label>)
    ensures forall i :: 0 <= i < |values| ==> values[i] in r
    ensures forall v :: v in r ==> v in m || v in values
  {
    var wanted := Wanted(values);
    assert forall v :: Labels.Wanted(wanted, v) ==> v in values by {
      forall v | Labels.Wanted(wanted, v) ensures v in values {
        var i :| 0 <= i < |wanted| && wanted[i].0 == v;
        assert values[i] == v;
      }
    }
    Admit(FadeAndPrune(m, true), wanted, 0.4, Some(0.16))
  }

  /** What a frame leaves in the map: every wanted value is tracked; a
      tracked value survives exactly when it is wanted or its opacity does
      not yet show as 0; a surviving unwanted label is fading out with its
      opacity untouched; a wanted label that was still tracked is retargeted
      to 0.4 and 0.16 with its opacity untouched; a newly wanted value starts
      invisible at its own value. */
  lemma ReconcileSpec(m: map<real, Label>, values: seq<real>, v: real)
    ensures var r := Reconcile(m, values);
      && (v in values ==> v in r)
      && (v in r <==> v in values || (v in m && !RoundsToZero(m[v].opacity)))
      && (v in m && !RoundsToZero(m[v].opacity) && v !in values ==>
            r[v] == m[v].(targetOpacity := 0.0, targetStrokeOpacity := 0.0))
      && (v in m && !RoundsToZero(m[v].opacity) && v in values ==>
            r[v] == m[v].(targetOpacity := 0.4, targetStrokeOpacity := 0.16))
      && (v in values && !(v in m && !RoundsToZero(m[v].opacity)) ==>
            r[v].opacity == 0.0 && r[v].strokeOpacity == 0.0 && r[v].position == v)
  {
    var faded := FadeAndPrune(m, true);
    var wanted := Wanted(values);
    var r := Reconcile(m, values);
    assert Labels.Wanted(wanted, v) <==> v in values by {
      if v in values {
        var i :| 0 <= i < |values| && values[i] == v;
        assert wanted[i].0 == v;
      }
    }
    if v in faded {
      if v in values {
        AdmitRetargetsTracked(faded, wanted, 0.4, Some(0.16), v);
      } else {
        AdmitKeepsUnwanted(faded, wanted, 0.4, Some(0.16), v);
      }
    } else if v in values {
      var i := FirstIndex(values, v);
      assert FirstNew(faded, wanted, i);
      AdmitInsertsNew(faded, wanted, 0.4, Some(0.16), i);
    }
  }

  /** The first position of a value in a list that holds it. */
  function FirstIndex(values: seq<real>, v: real): (i: nat)
    requires v in values
    ensures i < |values| && values[i] == v
    ensures forall j :: 0 <= j < i ==> values[j] != v
  {
    if values[0] == v then 0 else 1 + FirstIndex(values[1..], v)
  }

  /** `chartHeight - lastRatioY * value + lastLowerBorder * lastRatioY`: the
      label's height, which is where a data point of the same value is
      drawn, so each gridline sits at its value. */
  function LabelHeight(chartHeight: real, lastRatioY: real, lastLowerBorder: real, value: real): (y: real)
    ensures y == Plot.PointY(chartHeight, value, lastLowerBorder, lastRatioY)
  {
    chartHeight - (lastRatioY * value) + (lastLowerBorder * lastRatioY)
  }

  /** With a non-negative frame time below the cap of 100, the label gains
      `p = 0.005 * delta` and `ps = 0.003 * delta` stay within `[0, 0.5]`,
      so each animated opacity ends between where it was and its target. */
  lemma LabelGainsBounded(delta: real, l: Label)
    requires 0.0 <= delta <= 100.0
    ensures var r := Animate(l, 0.005 * delta, 0.003 * delta);
      && Min(l.opacity, l.targetOpacity) <= r.opacity <= Max(l.opacity, l.targetOpacity)
      && Min(l.strokeOpacity, l.targetStrokeOpacity) <= r.strokeOpacity <= Max(l.strokeOpacity, l.targetStrokeOpacity)
  {
  }
}
