/** The arithmetic helpers of the first chart version (helpers.js) and the
    range helper getMinMaxRange. */
module Helpers {
  import opened Num

  /** getDimension(maxPoint, horizontalLines) = `Math.ceil(maxPoint / lines)`,
      the whole grid step that covers maxPoint in `lines` steps. `None` is the
      Infinity or NaN a zero line count produces. */
  function GetDimension(maxPoint: real, lines: real): (r: Option<real>)
    ensures r.Some? <==> lines != 0.0
    ensures r.Some? ==> r.value == Floor(r.value)
    ensures r.Some? && lines > 0.0 ==> r.value * lines >= maxPoint && (r.value - 1.0) * lines < maxPoint
  {
    if lines == 0.0 then None
    else
      var q := maxPoint / lines;
      var c := Ceil(q);
      assert c >= q && c - 1.0 < q by {
        assert (-q).Floor as real <= -q < (-q).Floor as real + 1.0;
      }
      assert Floor(c) == c by {
        var n := (-q).Floor;
        assert c == (-n) as real;
        assert ((-n) as real).Floor == -n;
      }
      if lines > 0.0 then
        assert q * lines == maxPoint;
        ScaleBy(q, c, lines);
        ScaleBy(c - 1.0, q, lines);
        assert (c - 1.0) * lines < maxPoint;
        Some(c)
      else Some(c)
  }

  /** getMultiplier(chartHeight, maxPoint) = `Math.floor(h / maxPoint)`, the
      largest whole number of maxPoint-sized steps that fit in the height.
      `None` is the Infinity or NaN of a zero maximum. */
  function GetMultiplier(height: real, maxPoint: real): (r: Option<real>)
    ensures r.Some? <==> maxPoint != 0.0
    ensures r.Some? ==> r.value == Floor(r.value)
    ensures r.Some? && maxPoint > 0.0 ==> r.value * maxPoint <= height < (r.value + 1.0) * maxPoint
  {
    if maxPoint == 0.0 then None
    else
      var q := height / maxPoint;
      var f := Floor(q);
      assert f <= q < f + 1.0;
      assert Floor(f) == f by { assert (q.Floor as real).Floor == q.Floor; }
      if maxPoint > 0.0 then
        assert q * maxPoint == height;
        ScaleBy(f, q, maxPoint);
        ScaleBy(q, f + 1.0, maxPoint);
        assert height < (f + 1.0) * maxPoint;
        Some(f)
      else Some(f)
  }

  /** Scaling by a positive factor keeps the order. */
  lemma ScaleBy(a: real, b: real, h: real)
    requires h > 0.0
    ensures a <= b ==> a * h <= b * h
    ensures a < b ==> a * h < b * h
  {
    assert (b - a) * h == b * h - a * h;
  }

  /** getLabelWidth(text, fontSize): half a font size per character. */
  function LabelWidth(text: string, fontSize: real): real {
    |text| as real * fontSize / 2.0
  }

  /** A longer text never gets a narrower label. */
  lemma LabelWidthMonotone(a: string, b: string, fontSize: real)
    requires |a| <= |b| && 0.0 <= fontSize
    ensures LabelWidth(a, fontSize) <= LabelWidth(b, fontSize)
  {
    assert |a| as real * fontSize <= |b| as real * fontSize;
  }

  /** Widths add up: the label of two texts side by side is as wide as the
      two labels together, and an empty text takes no room. */
  lemma LabelWidthAdditive(a: string, b: string, fontSize: real)
    ensures LabelWidth(a + b, fontSize) == LabelWidth(a, fontSize) + LabelWidth(b, fontSize)
    ensures LabelWidth("", fontSize) == 0.0
  {
    assert |a + b| as real * fontSize == |a| as real * fontSize + |b| as real * fontSize;
  }

  /** getMinMaxRange(datasets): `[0, Math.max(...all values)]`. The upper end
      is -Infinity when there is no value at all. */
  function MinMaxRange(datasets: seq<seq<real>>): (r: (real, Ext))
    ensures r.0 == 0.0
    ensures r.1.NegInf? <==> forall i :: 0 <= i < |datasets| ==> |datasets[i]| == 0
    ensures r.1.Fin? ==> exists i :: 0 <= i < |datasets| && r.1.v in datasets[i]
    ensures r.1.Fin? ==> forall i, j :: 0 <= i < |datasets| && 0 <= j < |datasets[i]| ==> datasets[i][j] <= r.1.v
  {
    MaxOfAll(datasets);
    (0.0, SeqMax(Flatten(datasets)))
  }

  lemma MaxOfAll(datasets: seq<seq<real>>)
    ensures var m := SeqMax(Flatten(datasets));
      && (m.NegInf? <==> forall i :: 0 <= i < |datasets| ==> |datasets[i]| == 0)
      && (m.Fin? ==> exists i :: 0 <= i < |datasets| && m.v in datasets[i])
      && (m.Fin? ==> forall i, j :: 0 <= i < |datasets| && 0 <= j < |datasets[i]| ==> datasets[i][j] <= m.v)
  {
    var all := Flatten(datasets);
    var m := SeqMax(all);
    if |all| > 0 {
      assert all[0] in all;
    }
    if exists i :: 0 <= i < |datasets| && |datasets[i]| != 0 {
      var i :| 0 <= i < |datasets| && |datasets[i]| != 0;
      assert datasets[i][0] in datasets[i];
    }
    if m.Fin? {
      forall i, j | 0 <= i < |datasets| && 0 <= j < |datasets[i]|
        ensures datasets[i][j] <= m.v
      {
        assert datasets[i][j] in datasets[i];
        assert datasets[i][j] in all;
        var k :| 0 <= k < |all| && all[k] == datasets[i][j];
      }
    }
  }

  /** The range does not depend on the order of the datasets. */
  lemma MinMaxRangeOrderFree(a: seq<seq<real>>, b: seq<seq<real>>)
    requires multiset(a) == multiset(b)
    ensures MinMaxRange(a) == MinMaxRange(b)
  {
    FlattenPermutation(a, b);
    MaxDependsOnlyOnValues(Flatten(a), Flatten(b));
  }
}
