/** The first chart version (Chart.js): the viewport set by the minimap and
    by dragging the canvas, the zoom-ratio spring, the value labels keyed by
    value, and the greedy placement of the date labels. `getZoomRatio`,
    `isInRange` and `getViewportX` are imported from code that is not part
    of this model, so the zoom target is a parameter. */
module LegacyChart {
  import opened Num
  import Spring
  import Helpers
  import Labels
  import YLabels
  import Viewport

  /** The snapping threshold of the zoom-ratio spring. */
  const ZoomEpsilon: real := 0.00001

  /** settings.grid.marginBetweenLabels. */
  const Margin: real := 40.0

  /** updateViewport(start, width) for a slider at pixel `start` of width
      `width` over a container of width `containerWidth`: the viewport start
      is the slider's fraction and the end is clipped to 1. `None` is the
      non-finite viewport of a zero-width container. */
  function UpdateViewport(containerWidth: real, start: real, width: real): (r: Option<Viewport.Viewport>)
    ensures r.None? <==> containerWidth == 0.0
    ensures r.Some? ==> r.value.start * containerWidth == start && r.value.end <= 1.0
    ensures r.Some? ==> (r.value.end - r.value.start) * containerWidth == width || r.value.end == 1.0
    ensures r.Some? && 0.0 < containerWidth && start + width <= containerWidth ==>
      (r.value.end - r.value.start) * containerWidth == width
  {
    if containerWidth == 0.0 then None
    else
      var viewportStart := start / containerWidth;
      var viewportWidth := width / containerWidth;
      assert viewportWidth * containerWidth == width;
      assert 0.0 < containerWidth && start + width <= containerWidth ==> viewportStart + viewportWidth <= 1.0 by {
        if 0.0 < containerWidth && start + width <= containerWidth {
          assert (viewportStart + viewportWidth) * containerWidth == start + width;
          if viewportStart + viewportWidth > 1.0 {
            MulPositive(viewportStart + viewportWidth - 1.0, containerWidth);
          }
        }
      }
      Some(Viewport.Viewport(viewportStart, Min(viewportStart + viewportWidth, 1.0)))
  }

  /** The touchmove clamp: the canvas offset moves with the finger but never
      right of 0 nor left of `-(canvasWidth - containerWidth)`. */
  function ClampOffset(offset: real, delta: real, canvasWidth: real, containerWidth: real): (r: real)
    ensures containerWidth <= canvasWidth ==> -(canvasWidth - containerWidth) <= r <= 0.0
    ensures -(canvasWidth - containerWidth) <= offset + delta <= 0.0 ==> r == offset + delta
    ensures r == -(canvasWidth - containerWidth) || r == Min(offset + delta, 0.0)
  {
    Max(-(canvasWidth - containerWidth), Min(offset + delta, 0.0))
  }

  /** A clamped offset stays put under a zero move. */
  lemma ClampIdempotent(offset: real, canvasWidth: real, containerWidth: real)
    requires containerWidth <= canvasWidth
    ensures var o := ClampOffset(offset, 0.0, canvasWidth, containerWidth);
      ClampOffset(o, 0.0, canvasWidth, containerWidth) == o
  {
  }

  /** One touchmove: the clamped offset, and the viewport it shows, which
      starts at `|offset| / canvasWidth` and keeps its width unless that
      would pass 1. `None` is the non-finite viewport of a zero-width
      canvas. */
  function TouchMove(offset: real, delta: real, canvasWidth: real, containerWidth: real,
                     v: Viewport.Viewport): (r: Option<(real, Viewport.Viewport)>)
    ensures r.None? <==> canvasWidth == 0.0
    ensures r.Some? ==> r.value.0 == ClampOffset(offset, delta, canvasWidth, containerWidth)
    ensures r.Some? ==> r.value.1.start * Abs(canvasWidth) == Abs(r.value.0)
    ensures r.Some? ==> r.value.1.end <= 1.0
    ensures r.Some? && r.value.1.start + (v.end - v.start) <= 1.0 ==> r.value.1.end - r.value.1.start == v.end - v.start
    ensures r.Some? && 0.0 <= containerWidth <= canvasWidth ==> 0.0 <= r.value.1.start <= 1.0
  {
    if canvasWidth == 0.0 then None
    else
      var o := ClampOffset(offset, delta, canvasWidth, containerWidth);
      OffsetStart(o, canvasWidth, containerWidth);
      var start := Abs(o / canvasWidth);
      Some((o, Viewport.Viewport(start, Min(start + (v.end - v.start), 1.0))))
  }

  /** The viewport start a clamped offset shows, `|offset / canvasWidth|`:
      the offset measured in canvas widths, within `[0, 1]` while the
      container fits in the canvas. */
  lemma OffsetStart(o: real, canvasWidth: real, containerWidth: real)
    requires canvasWidth != 0.0
    requires containerWidth <= canvasWidth ==> -(canvasWidth - containerWidth) <= o <= 0.0
    ensures Abs(o / canvasWidth) * Abs(canvasWidth) == Abs(o)
    ensures 0.0 <= containerWidth <= canvasWidth ==> Abs(o / canvasWidth) <= 1.0
  {
    AbsOfQuotient(o, canvasWidth);
    if 0.0 <= containerWidth <= canvasWidth {
      QuotientAtMostOne(o, canvasWidth);
    }
  }

  /** A number no larger in size than a positive divisor gives a quotient
      no larger than 1 in size. */
  lemma QuotientAtMostOne(a: real, c: real)
    requires 0.0 < c && Abs(a) <= c
    ensures Abs(a / c) <= 1.0
  {
    var q := Abs(a / c);
    AbsOfQuotient(a, c);
    assert (1.0 - q) * c == c - Abs(a);
    NonnegFactor(1.0 - q, c);
  }

  /** `|a / c| * |c| == |a|`. */
  lemma AbsOfQuotient(a: real, c: real)
    requires c != 0.0
    ensures Abs(a / c) * Abs(c) == Abs(a)
  {
    var q := a / c;
    assert q * c == a;
    if q < 0.0 && c < 0.0 {
      assert (-q) * (-c) == a;
    } else if q < 0.0 {
      assert (-q) * c == -a;
    } else if c < 0.0 {
      assert q * (-c) == -a;
    }
  }

  /** The zoom-ratio spring of draw: with `p = elasticity * delta`, snap onto
      the target below 0.00001, otherwise move by `p` times the gap. The
      elasticity is a parameter (settings.js has no `animation` key). */
  function ZoomStep(zoomRatio: real, target: real, elasticity: real, prevTs: real, ts: real): (r: real)
    ensures Abs(target - zoomRatio) < ZoomEpsilon ==> r == target
    ensures Abs(target - zoomRatio) >= ZoomEpsilon ==>
      r - zoomRatio == elasticity * Spring.FrameDelta(prevTs, ts, 100.0) * (target - zoomRatio)
    ensures prevTs <= ts && 0.0 <= elasticity <= 0.01 ==>
      Min(zoomRatio, target) <= r <= Max(zoomRatio, target)
  {
    var delta := Spring.FrameDelta(prevTs, ts, 100.0);
    assert prevTs <= ts && 0.0 <= elasticity <= 0.01 ==> 0.0 <= elasticity * delta <= 1.0 by {
      if prevTs <= ts && 0.0 <= elasticity <= 0.01 {
        Spring.GainBounded(prevTs, ts, 100.0, elasticity);
        assert elasticity * 100.0 <= 1.0;
      }
    }
    Spring.Step(zoomRatio, target, elasticity * delta, ZoomEpsilon)
  }

  /** The values of the value labels: `sections` multiples of the whole
      step `getDimension(newMaxY, sections - 1)` with
      `newMaxY = (chartHeight - labelsOffset) / zoomRatio`. The top label
      reaches newMaxY. `None` is the non-finite list of a zero zoom ratio or
      a single section. `sections` and `labelsOffset` are parameters
      (settings.js does not define them). */
  function GridValues(chartHeight: real, labelsOffset: real, zoomRatio: real, sections: nat): (r: Option<seq<real>>)
    ensures r.None? <==> zoomRatio == 0.0 || sections == 1
    ensures r.Some? ==> |r.value| == sections
    ensures r.Some? ==> exists d :: d == Floor(d) && forall i :: 0 <= i < sections ==> r.value[i] == d * i as real
    ensures r.Some? && sections > 1 ==> r.value[sections - 1] >= (chartHeight - labelsOffset) / zoomRatio
  {
    if zoomRatio == 0.0 then None
    else
      var newMaxY := (chartHeight - labelsOffset) / zoomRatio;
      match Helpers.GetDimension(newMaxY, sections as real - 1.0)
      case None => None
      case Some(d) =>
        var values := seq(sections, i requires 0 <= i < sections => d * i as real);
        assert sections > 1 ==> values[sections - 1] >= newMaxY by {
          if sections > 1 {
            assert values[sections - 1] == d * (sections as real - 1.0);
          }
        }
        Some(values)
  }

  /** The value-label map of drawGrid: every label is told to fade out,
      then the wanted values are told to come back (fill and stroke to 1)
      or inserted invisible. */
  function YLabelMap(m: map<real, Labels.Label>, values: seq<real>): (r: map<real, Labels.Label>)
    ensures m.Keys <= r.Keys
    ensures forall i :: 0 <= i < |values| ==> values[i] in r
    ensures forall v :: v in r ==> v in m || v in values
  {
    var wanted := YLabels.Wanted(values);
    assert forall v :: Labels.Wanted(wanted, v) ==> v in values by {
      forall v | Labels.Wanted(wanted, v) ensures v in values {
        var i :| 0 <= i < |wanted| && wanted[i].0 == v;
        assert values[i] == v;
      }
    }
    Labels.Admit(Labels.FadeAll(m), wanted, 1.0, Some(1.0))
  }

  /** No value label is ever removed: the map grows by the new values and
      keeps all the others, fading out the unwanted ones with their opacity
      untouched; a wanted label already there heads back to full fill and
      stroke from where it is, and a new one starts invisible at its value. */
  lemma YLabelMapSpec(m: map<real, Labels.Label>, values: seq<real>, v: real)
    ensures var r := YLabelMap(m, values);
      && (v in r <==> v in m || v in values)
      && (v in m && v !in values ==> r[v] == m[v].(targetOpacity := 0.0, targetStrokeOpacity := 0.0))
      && (v in m && v in values ==> r[v] == m[v].(targetOpacity := 1.0, targetStrokeOpacity := 1.0))
      && (v !in m && v in values ==> r[v].opacity == 0.0 && r[v].strokeOpacity == 0.0 && r[v].position == v)
  {
    var faded := Labels.FadeAll(m);
    var wanted := YLabels.Wanted(values);
    assert Labels.Wanted(wanted, v) <==> v in values by {
      if v in values {
        var i :| 0 <= i < |values| && values[i] == v;
        assert wanted[i].0 == v;
      }
    }
    if v in m {
      if v in values {
        Labels.AdmitRetargetsTracked(faded, wanted, 1.0, Some(1.0), v);
      } else {
        Labels.AdmitKeepsUnwanted(faded, wanted, 1.0, Some(1.0), v);
      }
    } else if v in values {
      var i := YLabels.FirstIndex(values, v);
      assert Labels.FirstNew(faded, wanted, i);
      Labels.AdmitInsertsNew(faded, wanted, 1.0, Some(1.0), i);
    }
  }

  /** The value labels' gains `p = 0.009 * delta` and `ps = 0.007 * delta`
      stay within `[0, 0.9]` for a frame time in `[0, 100]`, so every label
      moves towards its targets without overshooting. */
  lemma LegacyLabelGains(delta: real, l: Labels.Label)
    requires 0.0 <= delta <= 100.0
    ensures var r := Labels.Animate(l, 0.009 * delta, 0.007 * delta);
      && Min(l.opacity, l.targetOpacity) <= r.opacity <= Max(l.opacity, l.targetOpacity)
      && Min(l.strokeOpacity, l.targetStrokeOpacity) <= r.strokeOpacity <= Max(l.strokeOpacity, l.targetStrokeOpacity)
  {
  }

  /** The distance between two dates on the canvas, `canvasWidth / (n - 1)`;
      a single date never uses it. */
  function DateStep(canvasWidth: real, n: nat): (step: real)
    ensures n > 1 ==> step * (n as real - 1.0) == canvasWidth
  {
    if n > 1 then canvasWidth / (n as real - 1.0) else 0.0
  }

  /** Where date label `i` of `n` starts: the first at 0, the last
      right-aligned on its date, the others centred on theirs. */
  function LabelX(i: nat, n: nat, step: real, width: real): real {
    if i == 0 then 0.0
    else if i == n - 1 then step * i as real - width
    else step * i as real - width / 2.0
  }

  /** Where each date label would start, given the labels' widths
      (getLabelWidth of their text). */
  function Positions(widths: seq<real>, canvasWidth: real): (xs: seq<real>)
    ensures |xs| == |widths|
  {
    seq(|widths|, j requires 0 <= j < |widths| => LabelX(j, |widths|, DateStep(canvasWidth, |widths|), widths[j]))
  }

  /** The last label ends on the right edge of the canvas. */
  lemma LastLabelAtEdge(widths: seq<real>, canvasWidth: real)
    requires |widths| > 1
    ensures Positions(widths, canvasWidth)[|widths| - 1] + widths[|widths| - 1] == canvasWidth
  {
  }

  /** The interior test of the placement loop: a label is drawn when it
      starts more than the margin after the end of the last label drawn and
      before `canvasWidth - labelWidth - margin - reserve`. As written
      `reserve` is 0. */
  predicate Fits(x: real, width: real, prevEnd: real, canvasWidth: real, reserve: real) {
    x > prevEnd + Margin && x < canvasWidth - width - Margin - reserve
  }

  /** Where a drawn label ends. */
  function End(widths: seq<real>, e: (nat, real)): real
    requires e.0 < |widths|
  {
    e.1 + widths[e.0]
  }

  /** None of the labels `from .. to - 1` fits after a label ending at
      `prevEnd`. */
  predicate Rejected(xs: seq<real>, widths: seq<real>, canvasWidth: real, reserve: real, from: nat, to: nat, prevEnd: real)
    requires |xs| == |widths| && to <= |widths|
  {
    forall j :: from <= j < to ==> !Fits(xs[j], widths[j], prevEnd, canvasWidth, reserve)
  }

  /** Whether the placement loop draws label `i` after a label ending at
      `prevEnd`: the first and the last label always, an interior one when
      it fits. */
  predicate Takes(xs: seq<real>, widths: seq<real>, canvasWidth: real, reserve: real, i: nat, prevEnd: real)
    requires |xs| == |widths| && i < |widths|
  {
    i == 0 || i == |widths| - 1 || Fits(xs[i], widths[i], prevEnd, canvasWidth, reserve)
  }

  /** The date labels drawn from label `i` on, with `prevEnd` the end of the
      last label drawn before it, as (index, start) pairs. */
  function Greedy(xs: seq<real>, widths: seq<real>, canvasWidth: real, reserve: real, i: nat, prevEnd: real): (r: seq<(nat, real)>)
    requires |xs| == |widths| && i <= |widths|
    decreases |widths| - i
    ensures forall k :: 0 <= k < |r| ==> i <= r[k].0 < |widths| && r[k].1 == xs[r[k].0]
  {
    if i == |widths| then []
    else if Takes(xs, widths, canvasWidth, reserve, i, prevEnd) then
      [(i, xs[i])] + Greedy(xs, widths, canvasWidth, reserve, i + 1, xs[i] + widths[i])
    else
      Greedy(xs, widths, canvasWidth, reserve, i + 1, prevEnd)
  }

  /** The first and the last label are always drawn. */
  lemma {:induction false} GreedyDrawsEnds(xs: seq<real>, widths: seq<real>, canvasWidth: real, reserve: real, i: nat, prevEnd: real)
    requires |xs| == |widths| && i <= |widths|
    decreases |widths| - i
    ensures var r := Greedy(xs, widths, canvasWidth, reserve, i, prevEnd);
      && (i < |widths| ==> |r| > 0 && r[|r| - 1].0 == |widths| - 1)
      && (i == 0 < |widths| ==> r[0] == (0, xs[0]))
  {
    if i < |widths| {
      var r := Greedy(xs, widths, canvasWidth, reserve, i, prevEnd);
      if Takes(xs, widths, canvasWidth, reserve, i, prevEnd) {
        var next := xs[i] + widths[i];
        var rest := Greedy(xs, widths, canvasWidth, reserve, i + 1, next);
        assert r == [(i, xs[i])] + rest;
        assert r[0] == (i, xs[i]);
        if i + 1 < |widths| {
          GreedyDrawsEnds(xs, widths, canvasWidth, reserve, i + 1, next);
          assert r[|r| - 1] == rest[|rest| - 1];
        } else {
          assert rest == [];
        }
      } else {
        assert 0 < i < |widths| - 1;
        assert r == Greedy(xs, widths, canvasWidth, reserve, i + 1, prevEnd);
        GreedyDrawsEnds(xs, widths, canvasWidth, reserve, i + 1, prevEnd);
      }
    }
  }

  /** The labels are drawn left to right, each at most once. */
  lemma {:induction false} GreedyAscending(xs: seq<real>, widths: seq<real>, canvasWidth: real, reserve: real, i: nat, prevEnd: real, a: nat, b: nat)
    requires |xs| == |widths| && i <= |widths|
    requires a < b < |Greedy(xs, widths, canvasWidth, reserve, i, prevEnd)|
    decreases |widths| - i
    ensures var r := Greedy(xs, widths, canvasWidth, reserve, i, prevEnd);
      r[a].0 < r[b].0
  {
    var r := Greedy(xs, widths, canvasWidth, reserve, i, prevEnd);
    if Takes(xs, widths, canvasWidth, reserve, i, prevEnd) {
      var next := xs[i] + widths[i];
      var rest := Greedy(xs, widths, canvasWidth, reserve, i + 1, next);
      assert r == [(i, xs[i])] + rest;
      assert r[b] == rest[b - 1];
      if a > 0 {
        assert r[a] == rest[a - 1];
        GreedyAscending(xs, widths, canvasWidth, reserve, i + 1, next, a - 1, b - 1);
      }
    } else {
      GreedyAscending(xs, widths, canvasWidth, reserve, i + 1, prevEnd, a, b);
    }
  }

  /** What label `b` of a placement must fit after: `prevEnd` for the
      first one, the end of the label drawn before it for the others. */
  function Before(widths: seq<real>, r: seq<(nat, real)>, b: nat, prevEnd: real): real
    requires b < |r| && forall k :: 0 <= k < |r| ==> r[k].0 < |widths|
  {
    if b == 0 then prevEnd else End(widths, r[b - 1])
  }

  /** Every interior label drawn fits after the label drawn before it. */
  lemma {:induction false} GreedyFitsAt(xs: seq<real>, widths: seq<real>, canvasWidth: real, reserve: real, i: nat, prevEnd: real, b: nat)
    requires |xs| == |widths| && i <= |widths|
    requires b < |Greedy(xs, widths, canvasWidth, reserve, i, prevEnd)|
    requires 0 < Greedy(xs, widths, canvasWidth, reserve, i, prevEnd)[b].0 < |widths| - 1
    decreases |widths| - i
    ensures var r := Greedy(xs, widths, canvasWidth, reserve, i, prevEnd);
      Fits(r[b].1, widths[r[b].0], Before(widths, r, b, prevEnd), canvasWidth, reserve)
  {
    var r := Greedy(xs, widths, canvasWidth, reserve, i, prevEnd);
    if Takes(xs, widths, canvasWidth, reserve, i, prevEnd) {
      var next := xs[i] + widths[i];
      var rest := Greedy(xs, widths, canvasWidth, reserve, i + 1, next);
      assert r == [(i, xs[i])] + rest;
      if b > 0 {
        assert r[b] == rest[b - 1];
        GreedyFitsAt(xs, widths, canvasWidth, reserve, i + 1, next, b - 1);
        if b > 1 {
          assert r[b - 1] == rest[b - 2];
        }
      }
    } else {
      GreedyFitsAt(xs, widths, canvasWidth, reserve, i + 1, prevEnd, b);
    }
  }

  /** Every label skipped before label `b` did not fit after the label drawn
      before it. */
  lemma {:induction false} GreedySkipsAt(xs: seq<real>, widths: seq<real>, canvasWidth: real, reserve: real, i: nat, prevEnd: real, b: nat, j: nat)
    requires |xs| == |widths| && i <= |widths|
    requires b < |Greedy(xs, widths, canvasWidth, reserve, i, prevEnd)|
    requires (if b == 0 then i else Greedy(xs, widths, canvasWidth, reserve, i, prevEnd)[b - 1].0 + 1) <= j
    requires j < Greedy(xs, widths, canvasWidth, reserve, i, prevEnd)[b].0
    decreases |widths| - i
    ensures var r := Greedy(xs, widths, canvasWidth, reserve, i, prevEnd);
      !Fits(xs[j], widths[j], Before(widths, r, b, prevEnd), canvasWidth, reserve)
  {
    var r := Greedy(xs, widths, canvasWidth, reserve, i, prevEnd);
    if Takes(xs, widths, canvasWidth, reserve, i, prevEnd) {
      var next := xs[i] + widths[i];
      var rest := Greedy(xs, widths, canvasWidth, reserve, i + 1, next);
      assert r == [(i, xs[i])] + rest;
      assert b > 0;
      assert r[b] == rest[b - 1];
      GreedySkipsAt(xs, widths, canvasWidth, reserve, i + 1, next, b - 1, j);
      if b > 1 {
        assert r[b - 1] == rest[b - 2];
      }
    } else if j == i {
      assert b == 0;
    } else {
      GreedySkipsAt(xs, widths, canvasWidth, reserve, i + 1, prevEnd, b, j);
    }
  }

  /** The date labels drawGrid draws, as written. */
  function PlaceDateLabels(widths: seq<real>, canvasWidth: real): (r: seq<(nat, real)>)
    ensures |widths| > 0 ==> |r| > 0 && r[0] == (0, 0.0) && r[|r| - 1].0 == |widths| - 1
    ensures forall k :: 0 <= k < |r| ==> r[k].0 < |widths| && r[k].1 == Positions(widths, canvasWidth)[r[k].0]
  {
    var xs := Positions(widths, canvasWidth);
    GreedyDrawsEnds(xs, widths, canvasWidth, 0.0, 0, 0.0);
    Greedy(xs, widths, canvasWidth, 0.0, 0, 0.0)
  }

  /** As written, interior labels keep the margin between each other and
      the right edge, but the last label, drawn unconditionally, can cover
      the interior label before it: four dates with labels 66 pixels wide
      on a 225-pixel canvas put label 2 on `[117, 183]` and the last label
      on `[159, 225]`. */
  lemma LastLabelOverlaps()
    ensures var r := PlaceDateLabels([66.0, 66.0, 66.0, 66.0], 225.0);
      && r == [(0, 0.0), (2, 117.0), (3, 159.0)]
      && r[1].1 + 66.0 > r[2].1
  {
    var w := [66.0, 66.0, 66.0, 66.0];
    var xs := Positions(w, 225.0);
    assert DateStep(225.0, 4) == 75.0;
    assert xs == [0.0, 42.0, 117.0, 159.0];
    assert Greedy(xs, w, 225.0, 0.0, 3, 183.0) == [(3, 159.0)];
    assert Greedy(xs, w, 225.0, 0.0, 2, 66.0) == [(2, 117.0), (3, 159.0)];
    assert Greedy(xs, w, 225.0, 0.0, 1, 66.0) == [(2, 117.0), (3, 159.0)];
  }

  /** The placement as written, for any widths: the first label is drawn at
      0 and the last one right-aligned on the canvas's edge, whatever lies
      before it. The only room an interior label drawn just before the last
      keeps is the margin to the canvas's edge, not to the last label, so
      the two overlap exactly when that label ends past the last label's
      start (LastLabelOverlaps gives widths where it does). */
  lemma LastLabelCovers(widths: seq<real>, canvasWidth: real)
    requires |widths| > 1
    ensures var r, n := PlaceDateLabels(widths, canvasWidth), |widths|;
      && |r| >= 2 && r[0] == (0, 0.0)
      && r[|r| - 1] == (n - 1, canvasWidth - widths[n - 1])
      && r[|r| - 2].0 < n - 1
      && (r[|r| - 2].0 > 0 ==> End(widths, r[|r| - 2]) + Margin < canvasWidth)
      && (End(widths, r[|r| - 2]) > r[|r| - 1].1 <==> End(widths, r[|r| - 2]) + widths[n - 1] > canvasWidth)
  {
    var n := |widths|;
    var xs := Positions(widths, canvasWidth);
    var r := PlaceDateLabels(widths, canvasWidth);
    GreedyDrawsEnds(xs, widths, canvasWidth, 0.0, 0, 0.0);
    LastLabelAtEdge(widths, canvasWidth);
    assert xs[0] == 0.0;
    assert |r| >= 2;
    GreedyAscending(xs, widths, canvasWidth, 0.0, 0, 0.0, |r| - 2, |r| - 1);
    if r[|r| - 2].0 > 0 {
      GreedyFitsAt(xs, widths, canvasWidth, 0.0, 0, 0.0, |r| - 2);
    }
  }

  /** The placement with the last label's room kept free: an interior label
      is drawn only if it also ends more than the margin before the last
      label starts. */
  function SpacedDateLabels(widths: seq<real>, canvasWidth: real): (r: seq<(nat, real)>)
    ensures |widths| > 0 ==> |r| > 0 && r[0] == (0, 0.0) && r[|r| - 1].0 == |widths| - 1
    ensures forall k :: 0 <= k < |r| ==> r[k].0 < |widths| && r[k].1 == Positions(widths, canvasWidth)[r[k].0]
  {
    if |widths| == 0 then []
    else
      var xs := Positions(widths, canvasWidth);
      GreedyDrawsEnds(xs, widths, canvasWidth, widths[|widths| - 1], 0, 0.0);
      Greedy(xs, widths, canvasWidth, widths[|widths| - 1], 0, 0.0)
  }

  /** With the last label's room kept free no two labels drawn one after the
      other come closer than the margin, except a first and last label with
      nothing drawn between them. */
  lemma SpacedLabelsDoNotOverlap(widths: seq<real>, canvasWidth: real)
    ensures var r := SpacedDateLabels(widths, canvasWidth);
      forall a, b :: 0 <= a && b == a + 1 && b < |r| && (r[a].0 > 0 || r[b].0 < |widths| - 1) ==>
        End(widths, r[a]) + Margin < r[b].1
  {
    var r := SpacedDateLabels(widths, canvasWidth);
    forall a, b | 0 <= a && b == a + 1 && b < |r| && (r[a].0 > 0 || r[b].0 < |widths| - 1)
      ensures End(widths, r[a]) + Margin < r[b].1
    {
      SpacedPairApart(widths, canvasWidth, a);
    }
  }

  /** The pairwise step of SpacedLabelsDoNotOverlap. */
  lemma SpacedPairApart(widths: seq<real>, canvasWidth: real, a: nat)
    requires a + 1 < |SpacedDateLabels(widths, canvasWidth)|
    requires var r := SpacedDateLabels(widths, canvasWidth);
      r[a].0 > 0 || r[a + 1].0 < |widths| - 1
    ensures var r := SpacedDateLabels(widths, canvasWidth);
      End(widths, r[a]) + Margin < r[a + 1].1
  {
    var r := SpacedDateLabels(widths, canvasWidth);
    var n := |widths|;
    var xs := Positions(widths, canvasWidth);
    var reserve := widths[n - 1];
    assert r == Greedy(xs, widths, canvasWidth, reserve, 0, 0.0);
    GreedyAscending(xs, widths, canvasWidth, reserve, 0, 0.0, a, a + 1);
    if r[a + 1].0 == n - 1 {
      LastLabelAtEdge(widths, canvasWidth);
      GreedyFitsAt(xs, widths, canvasWidth, reserve, 0, 0.0, a);
    } else {
      GreedyFitsAt(xs, widths, canvasWidth, reserve, 0, 0.0, a + 1);
    }
  }
}
