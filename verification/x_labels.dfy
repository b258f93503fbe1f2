/** dragXLabels of the later chart version: the date step is halved until
    it suits the zoom, dates are laid from the first timestamp up to (not
    including) the last one, the last timestamp is always added, and the
    resulting labels, keyed by their text, are reconciled with the ones on
    screen. The date-to-text conversion is a parameter. */
module XLabels {
  import opened Num
  import opened Labels

  /** VERTICAL_LINES: the number of date sections at full zoom. */
  const VerticalLines: real := 5.0

  /** DATE_COEF: how much wider than the initial step a label slot may be,
      relative to the visible fraction. */
  const DateCoef: real := 1.68

  /** LABEL_WIDTH: the width reserved for one date label. */
  const LabelWidth: real := 70.0

  function Pow2(n: nat): (r: real)
    ensures r >= 1.0
  {
    if n == 0 then 1.0 else 2.0 * Pow2(n - 1)
  }

  /** The first loop: `while (step > bound) step = step / 2`, with
      `bound = initStep * DATE_COEF * (end - start)`. On a non-empty viewport
      of a rising timeline the bound is positive and the loop stops after
      `halvings` rounds, at the first step that fits. */
  method HalveStep(initStep: real, bound: real) returns (step: real, halvings: nat)
    requires 0.0 < bound
    ensures step == initStep / Pow2(halvings)
    ensures step <= bound
    ensures halvings > 0 ==> 2.0 * step > bound
  {
    step, halvings := initStep, 0;
    while step > bound
      invariant step == initStep / Pow2(halvings)
      invariant halvings > 0 ==> 2.0 * step > bound
      decreases (step / bound).Floor
    {
      HalvingShrinksQuotient(step, bound);
      step, halvings := step / 2.0, halvings + 1;
    }
  }

  /** Halving a step above the bound lowers the whole part of its ratio to
      the bound, the measure of the halving loop. */
  lemma HalvingShrinksQuotient(step: real, bound: real)
    requires 0.0 < bound < step
    ensures ((step / 2.0) / bound).Floor < (step / bound).Floor
  {
    var q := step / bound;
    assert q * bound == step;
    assert (q - 1.0) * bound == step - bound;
    PositiveFactor(q - 1.0, bound);
    assert (step / 2.0) / bound == q / 2.0;
    assert q.Floor as real > q - 1.0;
    assert q / 2.0 < q.Floor as real;
  }

  /** The second loop: `nextLabelDate` starts at the first timestamp and
      grows by `step` while it is below the last one. */
  method LayDates(first: real, last: real, step: real) returns (dates: seq<real>)
    requires 0.0 < step
    ensures forall i :: 0 <= i < |dates| ==> dates[i] == first + i as real * step
    ensures forall i :: 0 <= i < |dates| ==> dates[i] < last
    ensures first + |dates| as real * step >= last
    ensures |dates| > 0 <==> first < last
  {
    dates := [];
    var next := first;
    while next < last
      invariant next == first + |dates| as real * step
      invariant forall i :: 0 <= i < |dates| ==> dates[i] == first + i as real * step
      invariant forall i :: 0 <= i < |dates| ==> dates[i] < last
      invariant |dates| > 0 ==> first < last
      decreases ((last - next) / step).Floor + 1
    {
      ghost var q := (last - next) / step;
      ghost var b := (last - (next + step)) / step;
      assert b * step == last - next - step;
      assert (q - 1.0) * step == last - next - step;
      Cancel(b, q - 1.0, step);
      dates, next := dates + [next], next + step;
    }
  }

  /** Dates laid at a positive step rise, and only the first is the start. */
  lemma StepsAscend(first: real, step: real, dates: seq<real>)
    requires 0.0 < step
    requires forall i :: 0 <= i < |dates| ==> dates[i] == first + i as real * step
    ensures forall i, j :: 0 <= i < j < |dates| ==> dates[i] < dates[j]
    ensures forall i :: 0 < i < |dates| ==> dates[i] != first
  {
    forall i, j | 0 <= i < j < |dates| ensures dates[i] < dates[j] {
      assert dates[j] - dates[i] == (j - i) as real * step;
      MulPositive((j - i) as real, step);
    }
    forall i | 0 < i < |dates| ensures dates[i] != first {
      MulPositive(i as real, step);
    }
  }

  /** One wanted date label: the first date sits at offset 0, the others are
      centred on their date (offset -35), and the closing label of the last
      timestamp is right-aligned (offset -70). */
  function DateLabel(date: real, offset: real): Label {
    Label(date, offset, 0.0, 0.4, 0.0, 0.0)
  }

  /** A new date label starts invisible and without stroke, and its first
      frame with a gain in `(0, 1]` makes it visible without passing the
      0.4 it heads for; it stays on its date and offset. */
  lemma DateLabelFadesIn(date: real, offset: real, p: real, ps: real)
    requires 0.0 < p <= 1.0
    ensures var r := Animate(DateLabel(date, offset), p, ps);
      && RoundsToZero(DateLabel(date, offset).opacity)
      && 0.0 < r.opacity <= 0.4 && r.strokeOpacity == 0.0
      && r.position == date && r.offset == offset && r.targetOpacity == 0.4
  {
  }

  /** The offset of a laid date: only the first timestamp starts at its
      date; every later one is centred on it, half a label to the left. */
  function Offset(date: real, first: real): (r: real)
    ensures r == 0.0 <==> date == first
    ensures -LabelWidth < r <= 0.0
  {
    if date == first then 0.0 else -LabelWidth / 2.0
  }

  /** On a falling timeline the initial step is negative, and once the
      visible fraction exceeds `1 / DATE_COEF` so is the bound, and lies
      below it: halving a negative step only brings it closer to 0, so the
      step never comes down to the bound and the halving loop never ends. */
  lemma {:induction false} FallingStepNeverFits(initStep: real, width: real, n: nat)
    requires initStep < 0.0 && DateCoef * width > 1.0
    ensures initStep / Pow2(n) > initStep * DateCoef * width
  {
    var q := Pow2(n);
    var c := DateCoef * width;
    assert initStep * c < initStep by {
      MulPositive(-initStep, c - 1.0);
      assert (-initStep) * (c - 1.0) == initStep - initStep * c;
    }
    assert initStep <= initStep / q by {
      assert (initStep / q) * q == initStep;
      MulNonneg(-initStep, q - 1.0);
      assert (initStep / q - initStep) * q == initStep - initStep * q;
      assert initStep - initStep * q == (-initStep) * (q - 1.0);
      NonnegFactor(initStep / q - initStep, q);
    }
    assert initStep * DateCoef * width == initStep * c by {
      assert initStep * DateCoef * width == initStep * (DateCoef * width);
    }
    var lowered, bound := initStep / q, initStep * c;
    assert bound < initStep <= lowered;
  }

  /** The whole list of wanted date labels, keyed by text. On a falling
      timeline whose visible fraction exceeds `1 / DATE_COEF` the halving
      loop never ends and there is no list: the result is None exactly
      then. */
  method WantedLabels(timeline: seq<real>, start: real, end: real, text: real -> string)
    returns (r: Option<seq<(string, Label)>>)
    requires |timeline| > 0 && start < end
    ensures r.None? <==> timeline[0] > timeline[|timeline| - 1] && DateCoef * (end - start) > 1.0
    ensures r.Some? ==> |r.value| > 0
    ensures r.Some? ==> (|r.value| > 1 <==> timeline[0] < timeline[|timeline| - 1])
    ensures r.Some? && |r.value| > 1 ==> r.value[0].1.position == timeline[0]
    ensures r.Some? ==> r.value[|r.value| - 1] == (text(timeline[|timeline| - 1]), DateLabel(timeline[|timeline| - 1], -LabelWidth))
    ensures r.Some? ==> forall i :: 0 <= i < |r.value| - 1 ==> timeline[0] <= r.value[i].1.position < timeline[|timeline| - 1]
    ensures r.Some? ==> forall i :: 0 <= i < |r.value| - 1 ==> r.value[i].0 == text(r.value[i].1.position)
    ensures r.Some? ==> forall i :: 0 <= i < |r.value| - 1 ==> r.value[i].1.offset == (if i == 0 then 0.0 else -LabelWidth / 2.0)
    ensures r.Some? ==> forall i, j :: 0 <= i < j < |r.value| - 1 ==> r.value[i].1.position < r.value[j].1.position
  {
    var first, last := timeline[0], timeline[|timeline| - 1];
    var dates: seq<real> := [];
    var diff := last - first;
    if diff < 0.0 && DateCoef * (end - start) > 1.0 {
      return None;
    }
    if diff > 0.0 {
      var initStep := diff / VerticalLines;
      var bound := initStep * DateCoef * (end - start);
      assert bound > 0.0 by {
        MulPositive(initStep, DateCoef);
        MulPositive(initStep * DateCoef, end - start);
      }
      var step, halvings := HalveStep(initStep, bound);
      assert step > 0.0;
      dates := LayDates(first, last, step);
      StepsAscend(first, step, dates);
    }
    var wanted := seq(|dates|, i requires 0 <= i < |dates| => (text(dates[i]), DateLabel(dates[i], Offset(dates[i], first))));
    wanted := wanted + [(text(last), DateLabel(last, -LabelWidth))];
    r := Some(wanted);
  }

  /** The two reconciling loops: fade and prune (no stroke), then admit the
      wanted labels with the fill target 0.4 for those still tracked. */
  function Reconcile(m: map<string, Label>, wanted: seq<(string, Label)>): (r: map<string, Label>)
    ensures forall i :: 0 <= i < |wanted| ==> wanted[i].0 in r
    ensures forall k :: k in r <==> Labels.Wanted(wanted, k) || (k in m && !RoundsToZero(m[k].opacity))
  {
    Admit(FadeAndPrune(m, false), wanted, 0.4, None)
  }

  /** A date label still on screen keeps its opacity and position when it is
      wanted again, and only its fill target changes; one no longer wanted
      fades towards 0. */
  lemma ReconcileKeepsTracked(m: map<string, Label>, wanted: seq<(string, Label)>, k: string)
    requires k in m && !RoundsToZero(m[k].opacity)
    ensures Labels.Wanted(wanted, k) ==> Reconcile(m, wanted)[k] == m[k].(targetOpacity := 0.4)
    ensures !Labels.Wanted(wanted, k) ==> Reconcile(m, wanted)[k] == m[k].(targetOpacity := 0.0)
  {
    var faded := FadeAndPrune(m, false);
    if Labels.Wanted(wanted, k) {
      AdmitRetargetsTracked(faded, wanted, 0.4, None, k);
    } else {
      AdmitKeepsUnwanted(faded, wanted, 0.4, None, k);
    }
  }
}
