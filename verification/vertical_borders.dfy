/** getVerticalBorders of the main chart: the minimum and maximum of every
    active series over the indices whose timestamp lies inside the visible
    window, widened by the one-percent margins, or the previous borders when
    no series is active. */
module VerticalBorders {
  import opened Num

  /** Index `j` of a series counts when the timeline has an entry there and
      that entry lies in `[start, due]` (past the timeline's end the
      comparison is with `undefined`, which is false). */
  predicate InWindow(timeline: seq<real>, j: int, start: real, due: real) {
    0 <= j < |timeline| && start <= timeline[j] && timeline[j] <= due
  }

  /** The values of one series inside the window, in index order. */
  function WindowValues(values: seq<real>, timeline: seq<real>, start: real, due: real): (r: seq<real>)
    ensures forall x :: x in r <==>
      exists j :: 0 <= j < |values| && InWindow(timeline, j, start, due) && values[j] == x
  {
    if |values| == 0 then []
    else
      var last := |values| - 1;
      var prefix := WindowValues(values[..last], timeline, start, due);
      assert forall j :: 0 <= j < last ==> values[..last][j] == values[j];
      if InWindow(timeline, last, start, due) then prefix + [values[last]] else prefix
  }

  /** The values of all series inside the window, series after series. */
  function Window(series: seq<seq<real>>, timeline: seq<real>, start: real, due: real): (r: seq<real>)
    ensures forall x :: x in r <==>
      exists i, j :: 0 <= i < |series| && 0 <= j < |series[i]| && InWindow(timeline, j, start, due) && series[i][j] == x
  {
    if |series| == 0 then []
    else
      var last := |series| - 1;
      var r := Window(series[..last], timeline, start, due) + WindowValues(series[last], timeline, start, due);
      assert forall i :: 0 <= i < last ==> series[..last][i] == series[i];
      r
  }

  /** `Math.floor(minValue * 0.99 * 1000) / 1000`; the infinities pass through. */
  function LowMargin(m: Ext): (r: Ext)
    ensures r.Fin? <==> m.Fin?
    ensures m.Fin? ==> r.v <= m.v * 0.99 < r.v + 0.001
  {
    if m.Fin? then
      var x := m.v * 0.99 * 1000.0;
      assert x.Floor as real <= x < x.Floor as real + 1.0;
      Fin(Floor(x) / 1000.0)
    else m
  }

  /** `Math.floor(maxValue * 1.01 * 1000) / 1000`; the infinities pass through. */
  function HighMargin(m: Ext): (r: Ext)
    ensures r.Fin? <==> m.Fin?
    ensures m.Fin? ==> r.v <= m.v * 1.01 < r.v + 0.001
  {
    if m.Fin? then
      var x := m.v * 1.01 * 1000.0;
      assert x.Floor as real <= x < x.Floor as real + 1.0;
      Fin(Floor(x) / 1000.0)
    else m
  }

  /** The margins widen a non-negative range: the low margin never rises
      above the minimum nor below 0, and the high margin never falls below a
      maximum of at least 0.1. Below 0.1 the thousandth flooring can cut
      under the maximum. */
  lemma MarginsOfNonNegative(v: real)
    requires 0.0 <= v
    ensures 0.0 <= LowMargin(Fin(v)).v <= v
    ensures 0.1 <= v ==> v <= HighMargin(Fin(v)).v
    ensures LowMargin(Fin(v)).v <= HighMargin(Fin(v)).v
  {
    var a, b := v * 0.99 * 1000.0, v * 1.01 * 1000.0;
    var fa, fb := a.Floor, b.Floor;
    assert 0.0 <= a <= b;
    assert fa as real <= a < fa as real + 1.0;
    assert fb as real <= b < fb as real + 1.0;
    assert 0 <= fa;
    FloorMonotone(a, b);
    assert Floor(a) / 1000.0 <= a / 1000.0;
    if 0.1 <= v {
      assert b - 1.0 >= v * 1000.0;
      assert Floor(b) >= v * 1000.0;
    }
  }

  /** A margin never hides an empty window: the infinities survive. */
  lemma MarginKeepsKind(m: Ext)
    ensures LowMargin(m).Fin? == m.Fin? && HighMargin(m).Fin? == m.Fin?
    ensures !m.Fin? ==> LowMargin(m) == m && HighMargin(m) == m
  {
  }

  /** getVerticalBorders(datasets, startDate, dueDate): the previous
      borders when no series is active; otherwise the margined extremes of
      the windowed values, which are the infinities exactly when the window
      holds no value. */
  function VerticalBorders(series: seq<seq<real>>, timeline: seq<real>, start: real, due: real,
                           previous: (Ext, Ext)): (r: (Ext, Ext))
    ensures |series| == 0 ==> r == previous
    ensures |series| > 0 ==> (r.0 == PosInf <==> |Window(series, timeline, start, due)| == 0)
    ensures |series| > 0 ==> (r.1 == NegInf <==> |Window(series, timeline, start, due)| == 0)
    ensures |series| > 0 && r.0.Fin? ==>
      var w := Window(series, timeline, start, due);
      exists k :: 0 <= k < |w| && r.0 == LowMargin(Fin(w[k])) && forall i :: 0 <= i < |w| ==> w[k] <= w[i]
    ensures |series| > 0 && r.1.Fin? ==>
      var w := Window(series, timeline, start, due);
      exists k :: 0 <= k < |w| && r.1 == HighMargin(Fin(w[k])) && forall i :: 0 <= i < |w| ==> w[i] <= w[k]
  {
    if |series| == 0 then previous
    else
      var w := Window(series, timeline, start, due);
      var lo, hi := SeqMin(w), SeqMax(w);
      (LowMargin(lo), HighMargin(hi))
  }

  /** Extending a list by one value moves its running minimum and maximum
      as `Math.min`/`Math.max` of the two. */
  lemma ExtremaStep(lo: Ext, hi: Ext, s: seq<real>, x: real)
    requires IsMinOf(lo, s) && IsMaxOf(hi, s)
    ensures IsMinOf(ExtMin(lo, Fin(x)), s + [x])
    ensures IsMaxOf(ExtMax(hi, Fin(x)), s + [x])
  {
    assert forall i :: 0 <= i < |s| ==> (s + [x])[i] == s[i];
    assert (s + [x])[|s|] == x;
  }

  /** The raw scan of the source: two nested loops over the series and their
      indices, folding in every value whose timestamp lies in the window. */
  method ScanExtremes(series: seq<seq<real>>, timeline: seq<real>, start: real, due: real)
    returns (lo: Ext, hi: Ext)
    ensures IsMinOf(lo, Window(series, timeline, start, due))
    ensures IsMaxOf(hi, Window(series, timeline, start, due))
  {
    lo, hi := PosInf, NegInf;
    for i := 0 to |series|
      invariant IsMinOf(lo, Window(series[..i], timeline, start, due))
      invariant IsMaxOf(hi, Window(series[..i], timeline, start, due))
    {
      WindowStep(series, timeline, start, due, i);
      lo, hi := ScanSeries(series[i], timeline, start, due, Window(series[..i], timeline, start, due), lo, hi);
    }
    assert series[..|series|] == series;
  }

  /** The inner loop of the scan: folding one series' windowed values into
      the extremes of what was seen before. */
  method ScanSeries(values: seq<real>, timeline: seq<real>, start: real, due: real,
                    ghost before: seq<real>, lo0: Ext, hi0: Ext) returns (lo: Ext, hi: Ext)
    requires IsMinOf(lo0, before) && IsMaxOf(hi0, before)
    ensures IsMinOf(lo, before + WindowValues(values, timeline, start, due))
    ensures IsMaxOf(hi, before + WindowValues(values, timeline, start, due))
  {
    lo, hi := lo0, hi0;
    assert before + WindowValues(values[..0], timeline, start, due) == before;
    for j := 0 to |values|
      invariant IsMinOf(lo, before + WindowValues(values[..j], timeline, start, due))
      invariant IsMaxOf(hi, before + WindowValues(values[..j], timeline, start, due))
    {
      ghost var seen := before + WindowValues(values[..j], timeline, start, due);
      WindowValuesStep(values, timeline, start, due, j);
      if j < |timeline| && timeline[j] >= start && timeline[j] <= due {
        ExtremaStep(lo, hi, seen, values[j]);
        lo := ExtMin(lo, Fin(values[j]));
        hi := ExtMax(hi, Fin(values[j]));
        assert before + WindowValues(values[..j + 1], timeline, start, due) == seen + [values[j]];
      } else {
        assert before + WindowValues(values[..j + 1], timeline, start, due) == seen;
      }
    }
    assert values[..|values|] == values;
  }

  /** One more index of a series adds its value exactly when it is in the
      window. */
  lemma WindowValuesStep(values: seq<real>, timeline: seq<real>, start: real, due: real, j: nat)
    requires j < |values|
    ensures WindowValues(values[..j + 1], timeline, start, due)
         == WindowValues(values[..j], timeline, start, due)
            + (if InWindow(timeline, j, start, due) then [values[j]] else [])
  {
    assert values[..j + 1][..j] == values[..j];
  }

  /** One more series adds its windowed values. */
  lemma WindowStep(series: seq<seq<real>>, timeline: seq<real>, start: real, due: real, i: nat)
    requires i < |series|
    ensures Window(series[..i + 1], timeline, start, due)
         == Window(series[..i], timeline, start, due) + WindowValues(series[i], timeline, start, due)
  {
    assert series[..i + 1][..i] == series[..i];
  }

  /** A list has one minimum and one maximum. */
  lemma ExtremaUnique(lo: Ext, hi: Ext, s: seq<real>)
    requires IsMinOf(lo, s) && IsMaxOf(hi, s)
    ensures lo == SeqMin(s) && hi == SeqMax(s)
  {
    var m, n := SeqMin(s), SeqMax(s);
    if lo.Fin? && m.Fin? {
      var a :| 0 <= a < |s| && s[a] == lo.v;
      var b :| 0 <= b < |s| && s[b] == m.v;
    }
    if hi.Fin? && n.Fin? {
      var a :| 0 <= a < |s| && s[a] == hi.v;
      var b :| 0 <= b < |s| && s[b] == n.v;
    }
  }

  /** The loops of the source compute the borders the function states: with
      at least one active series, the method's extremes, margined, are the
      result. */
  method GetVerticalBorders(series: seq<seq<real>>, timeline: seq<real>, start: real, due: real,
                            previous: (Ext, Ext)) returns (r: (Ext, Ext))
    ensures r == VerticalBorders(series, timeline, start, due, previous)
  {
    if |series| == 0 {
      return previous;
    }
    var lo, hi := ScanExtremes(series, timeline, start, due);
    ExtremaUnique(lo, hi, Window(series, timeline, start, due));
    r := (LowMargin(lo), HighMargin(hi));
  }

  /** Widening the window never loses a value. */
  lemma WiderWindowKeepsValues(series: seq<seq<real>>, timeline: seq<real>,
                               start: real, due: real, start': real, due': real)
    requires start' <= start && due <= due'
    ensures forall x :: x in Window(series, timeline, start, due) ==> x in Window(series, timeline, start', due')
  {
    forall x | x in Window(series, timeline, start, due)
      ensures x in Window(series, timeline, start', due')
    {
      var i, j :| 0 <= i < |series| && 0 <= j < |series[i]| && InWindow(timeline, j, start, due) && series[i][j] == x;
      assert InWindow(timeline, j, start', due');
    }
  }

  /** Widening the window never shrinks the raw range: the maximum does not
      fall, the minimum does not rise, so `max - min` does not shrink. */
  lemma WiderWindowWiderRange(series: seq<seq<real>>, timeline: seq<real>,
                              start: real, due: real, start': real, due': real)
    requires start' <= start && due <= due'
    ensures var narrow, wide := Window(series, timeline, start, due), Window(series, timeline, start', due');
      && ExtLe(SeqMax(narrow), SeqMax(wide))
      && ExtLe(SeqMin(wide), SeqMin(narrow))
      && (SeqMax(narrow).Fin? && SeqMin(narrow).Fin? ==>
            SeqMax(narrow).v - SeqMin(narrow).v <= SeqMax(wide).v - SeqMin(wide).v)
  {
    var narrow, wide := Window(series, timeline, start, due), Window(series, timeline, start', due');
    WiderWindowKeepsValues(series, timeline, start, due, start', due');
    ExtremaOfSublist(narrow, wide);
  }
}
