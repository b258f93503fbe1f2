/** The "nice gridline" search of the main chart (getLowerBorder): starting
    from a candidate lower border, lay six evenly spaced gridlines from the
    candidate up to maxY, take the gridline just below the first one above
    minY as the next candidate, and repeat until the candidate no longer
    moves, flooring the result on the way back out. */
module LowerBorder {
  import opened Num

  /** HORIZONTAL_LINES: the number of grid sections. */
  const HorizontalLines: real := 5.0

  /** The gridline spacing for a candidate lower border: five sections
      from the candidate reach maxY, and the spacing is positive while the
      candidate lies below maxY. */
  function Dimension(maxY: real, lb: real): (d: real)
    ensures lb + HorizontalLines * d == maxY
    ensures lb < maxY ==> 0.0 < d
  {
    (maxY - lb) / HorizontalLines
  }

  /** The i-th candidate gridline, `dimension * index + lowerBorder`. */
  function Gridline(lb: real, d: real, i: nat): real {
    d * (i as real) + lb
  }

  /** With a non-negative spacing the six gridlines stay within the five
      sections above the candidate. */
  lemma GridlineWithin(lb: real, d: real, i: nat)
    requires 0.0 <= d && i as real <= HorizontalLines
    ensures lb <= Gridline(lb, d, i) <= lb + HorizontalLines * d
  {
    var x := i as real;
    assert Gridline(lb, d, i) == d * x + lb;
    MulNonneg(d, x);
    MulNonneg(d, HorizontalLines - x);
    assert d * (HorizontalLines - x) == d * HorizontalLines - d * x;
  }

  /** `labels.findIndex((y) => y > minY)`, searching gridlines i .. 5. */
  function FindHighLine(minY: real, lb: real, d: real, i: nat): (r: Option<nat>)
    requires i <= 6
    decreases 6 - i
    ensures r.Some? ==> i <= r.value <= 5 && Gridline(lb, d, r.value) > minY
    ensures r.Some? ==> forall j: nat :: i <= j < r.value ==> Gridline(lb, d, j) <= minY
    ensures r.None? ==> forall j: nat :: i <= j <= 5 ==> Gridline(lb, d, j) <= minY
  {
    if i > 5 then None
    else if Gridline(lb, d, i) > minY then Some(i)
    else FindHighLine(minY, lb, d, i + 1)
  }

  /** One step of the search: `labels[firstHighLine] - dimension`. `None`
      is the NaN the source computes when no gridline lies above minY
      (`labels[-1]` is undefined); a NaN candidate never equals itself, so
      from there the source recurses without end. */
  function NextCandidate(minY: real, maxY: real, lb: real): (r: Option<real>)
    ensures r.Some? <==> exists i: nat :: i <= 5 && Gridline(lb, Dimension(maxY, lb), i) > minY
  {
    var d := Dimension(maxY, lb);
    match FindHighLine(minY, lb, d, 0)
    case None => None
    case Some(i) => Some(Gridline(lb, d, i) - d)
  }

  /** The six gridlines, spelled out: they run from the candidate up to maxY. */
  lemma GridlinesSpelled(lb: real, maxY: real)
    ensures var d := Dimension(maxY, lb);
      && Gridline(lb, d, 0) == lb
      && Gridline(lb, d, 1) == lb + d
      && Gridline(lb, d, 2) == lb + 2.0 * d
      && Gridline(lb, d, 3) == lb + 3.0 * d
      && Gridline(lb, d, 4) == lb + 4.0 * d
      && Gridline(lb, d, 5) == maxY
  {
  }

  /** A climbing step (candidate at or below minY < maxY) lands on the largest
      gridline not above minY: it never passes minY, the next gridline is
      above minY, it stays put exactly when the first gridline above the
      candidate is already above minY, and otherwise it gains at least one
      spacing. */
  lemma ClimbStep(minY: real, maxY: real, lb: real)
    requires lb <= minY < maxY
    ensures var r := NextCandidate(minY, maxY, lb); var d := Dimension(maxY, lb);
      && r.Some?
      && lb <= r.value <= minY
      && r.value + d > minY
      && (r.value == lb <==> lb + d > minY)
      && (r.value != lb ==> r.value >= lb + d)
  {
    var d := Dimension(maxY, lb);
    GridlinesSpelled(lb, maxY);
    var found := FindHighLine(minY, lb, d, 0);
    var i := found.value;
    assert 1 <= i <= 5;
    assert Gridline(lb, d, i - 1) <= minY;
    if i == 1 {
    } else if i == 2 {
    } else if i == 3 {
    } else if i == 4 {
    } else {
    }
  }

  /** A candidate above minY (and below maxY) drops by one spacing. */
  lemma DescentStep(minY: real, maxY: real, lb: real)
    requires minY < lb < maxY
    ensures NextCandidate(minY, maxY, lb) == Some(lb - Dimension(maxY, lb))
  {
    GridlinesSpelled(lb, maxY);
  }

  /** When maxY does not exceed minY no gridline lies above minY, and the
      source's next candidate is NaN. */
  lemma DegenerateStep(minY: real, maxY: real, lb: real)
    requires lb <= minY && maxY <= minY
    ensures NextCandidate(minY, maxY, lb).None?
  {
    var d := Dimension(maxY, lb);
    GridlinesSpelled(lb, maxY);
    forall j: nat | j <= 5 ensures Gridline(lb, d, j) <= minY {
      if j == 0 {
      } else if j == 1 {
      } else if j == 2 {
      } else if j == 3 {
      } else if j == 4 {
      } else {
      }
    }
  }

  /** A candidate above both minY and maxY moves further up on every step. */
  lemma RunawayStep(minY: real, maxY: real, lb: real)
    requires minY < lb && maxY < lb
    ensures var r := NextCandidate(minY, maxY, lb); r.Some? && r.value > lb
  {
    GridlinesSpelled(lb, maxY);
  }

  /** The termination measure: while the candidate lies above minY it is
      the number of descending steps left, bounded by
      6 (lb - minY) / (maxY - lb); once at or below minY it bounds the
      climbing steps left, each of which gains at least (maxY - minY) / 5. */
  function Measure(minY: real, maxY: real, lb: real): nat
    requires minY < maxY && lb < maxY
  {
    if lb > minY then
      var q := 6.0 * (lb - minY) / (maxY - lb);
      assert q >= 0.0;
      q.Floor
    else
      var q := 5.0 * (minY - lb) / (maxY - minY);
      assert q >= 0.0;
      q.Floor
  }

  lemma FloorDropsByOne(a: real, b: real)
    requires b <= a - 1.0
    ensures b.Floor < a.Floor
  {
    assert b.Floor as real <= b;
    assert a < a.Floor as real + 1.0;
  }

  lemma DivideMonotone(x: real, y: real, h: real)
    requires h > 0.0 && x <= y
    ensures x / h <= y / h
  {
    assert (y - x) / h >= 0.0;
    assert (y - x) / h == y / h - x / h;
  }

  /** Taking one height off the numerator takes one off the quotient. */
  lemma ShiftDivide(x: real, h: real)
    requires h != 0.0
    ensures (x - h) / h == x / h - 1.0
  {
    var q := x / h;
    assert q * h == x;
    assert (q - 1.0) * h == q * h - h;
    assert ((x - h) / h) * h == x - h;
    Cancel((x - h) / h, q - 1.0, h);
  }

  /** A climbing step that moves gains a full spacing, so the measure drops. */
  lemma ClimbDecreases(minY: real, maxY: real, lb: real, next: real)
    requires minY < maxY && lb <= minY
    requires next <= minY && next >= lb + Dimension(maxY, lb)
    ensures Measure(minY, maxY, next) < Measure(minY, maxY, lb)
  {
    var h := maxY - minY;
    var a := 5.0 * (minY - lb) / h;
    var b := 5.0 * (minY - next) / h;
    assert Dimension(maxY, lb) >= h / 5.0;
    assert minY - next <= (minY - lb) - h / 5.0;
    assert b <= a - 1.0 by {
      assert 5.0 * (minY - next) <= 5.0 * (minY - lb) - h;
      DivideMonotone(5.0 * (minY - next), 5.0 * (minY - lb) - h, h);
      ShiftDivide(5.0 * (minY - lb), h);
    }
    FloorDropsByOne(a, b);
  }

  /** A descending step that stays above minY also lowers the measure. */
  lemma DescentDecreases(minY: real, maxY: real, lb: real)
    requires minY < lb < maxY
    requires lb - Dimension(maxY, lb) > minY
    ensures Measure(minY, maxY, lb - Dimension(maxY, lb)) < Measure(minY, maxY, lb)
  {
    var x := lb - minY;
    var dist := maxY - lb;
    var next := lb - Dimension(maxY, lb);
    var q := x / dist;
    var a := 6.0 * x / dist;
    var b := 6.0 * (next - minY) / (maxY - next);
    assert next - minY == x - dist / 5.0;
    assert maxY - next == 6.0 * dist / 5.0;
    assert b == 5.0 * q - 1.0 by {
      var den := 6.0 * dist / 5.0;
      assert b == (6.0 * (x - dist / 5.0)) / den;
      assert b * den == 6.0 * (x - dist / 5.0);
      assert q * dist == x;
      assert (5.0 * q - 1.0) * den == 6.0 * q * dist - den;
      Cancel(b, 5.0 * q - 1.0, den);
    }
    assert a == 6.0 * q;
    assert q > 0.0;
    FloorDropsByOne(a, b);
  }

  /** getLowerBorder(minY, maxY, lowerBorder). The recursion terminates on
      this domain; the result never exceeds minY, never falls below the
      floor of a candidate that starts at or below minY, and is either the
      starting candidate itself or a whole number. */
  function LowerBorder(minY: real, maxY: real, lb: real): (r: real)
    requires minY < maxY && lb < maxY
    ensures r <= minY
    ensures lb <= minY ==> Floor(lb) <= r
    ensures r == lb || r == Floor(r)
    decreases if lb > minY then 1 else 0, Measure(minY, maxY, lb)
  {
    assert NextCandidate(minY, maxY, lb).Some? by {
      if lb <= minY { ClimbStep(minY, maxY, lb); } else { DescentStep(minY, maxY, lb); }
    }
    var next := NextCandidate(minY, maxY, lb).value;
    assert lb <= minY ==> lb <= next <= minY && (next != lb ==> next >= lb + Dimension(maxY, lb)) by {
      if lb <= minY { ClimbStep(minY, maxY, lb); }
    }
    assert lb > minY ==> next == lb - Dimension(maxY, lb) by {
      if lb > minY { DescentStep(minY, maxY, lb); }
    }
    if next == lb then lb
    else
      assert lb > minY && next > minY ==> Measure(minY, maxY, next) < Measure(minY, maxY, lb) by {
        if lb > minY && next > minY { DescentDecreases(minY, maxY, lb); }
      }
      assert lb <= minY ==> next <= minY && Measure(minY, maxY, next) < Measure(minY, maxY, lb) by {
        if lb <= minY { ClimbDecreases(minY, maxY, lb, next); }
      }
      var inner := LowerBorder(minY, maxY, next);
      assert lb <= minY ==> Floor(lb) <= Floor(next) by {
        if lb <= minY { FloorMonotone(lb, next); }
      }
      FloorOfWhole(inner, lb);
      Floor(inner)
  }

  lemma FloorOfWhole(x: real, lb: real)
    ensures Floor(x) <= x
    ensures Floor(Floor(x)) == Floor(x)
    ensures Floor(lb) <= x ==> Floor(lb) <= Floor(x)
  {
    var fx := x.Floor;
    assert fx as real <= x < fx as real + 1.0;
    assert (fx as real).Floor == fx;
    var fl := lb.Floor;
    assert (fl as real).Floor == fl;
    if Floor(lb) <= x {
      FloorMonotone(fl as real, x);
    }
  }

  /** The lower border the chart asks for, getLowerBorder(min, max, 0), lies
      between 0 and the visible minimum whenever that minimum is not
      negative. */
  lemma ChartLowerBorderBounds(minY: real, maxY: real)
    requires 0.0 <= minY < maxY
    ensures 0.0 <= LowerBorder(minY, maxY, 0.0) <= minY
  {
    assert Floor(0.0) == 0.0;
  }

  /** The search is well defined exactly where it terminates in the source:
      finite bounds, minY below maxY, and the start candidate 0 below maxY. */
  predicate ScaleInDomain(min: Ext, max: Ext) {
    min.Fin? && max.Fin? && min.v < max.v && 0.0 < max.v
  }

  /** The other range on which the search from candidate 0 stops: a maximum
      of exactly 0 above a negative minimum. */
  predicate TopAtZero(min: Ext, max: Ext) {
    min.Fin? && max.Fin? && min.v < 0.0 && max.v == 0.0
  }

  /** With maxY = 0 every gridline is 0, the first of them is already above
      minY, and the candidate 0 is kept at once. */
  lemma TopAtZeroStops(minY: real)
    requires minY < 0.0
    ensures NextCandidate(minY, 0.0, 0.0) == Some(0.0)
  {
    assert Gridline(0.0, Dimension(0.0, 0.0), 0) == 0.0;
  }

  /** The lower border the chart keeps for its vertical scale: the search from
      candidate 0 where it terminates, and the previous border where the
      source's recursion would never stop (a zero-width or inverted range, a
      range below 0, or an empty window). It always yields a value, never
      above a finite min. */
  function ScaleLowerBorder(min: Ext, max: Ext, previous: real): (r: real)
    ensures ScaleInDomain(min, max) ==> r <= min.v
    ensures ScaleInDomain(min, max) && 0.0 <= min.v ==> 0.0 <= r
    ensures ScaleInDomain(min, max) ==> r == 0.0 || r == Floor(r)
    ensures TopAtZero(min, max) ==> r == 0.0
    ensures !ScaleInDomain(min, max) && !TopAtZero(min, max) ==> r == previous
  {
    if ScaleInDomain(min, max) then
      assert Floor(0.0) == 0.0;
      LowerBorder(min.v, max.v, 0.0)
    else if TopAtZero(min, max) then 0.0
    else previous
  }

  /** The source's search from candidate 0 never stops when the visible
      range has collapsed to 0 (every visible value is 0): no gridline lies
      above minY, so the next candidate is NaN. */
  lemma ZeroRangeHasNoGridline()
    ensures NextCandidate(0.0, 0.0, 0.0).None?
  {
    DegenerateStep(0.0, 0.0, 0.0);
  }

  /** With all visible values negative, the margins make min exceed max
      (-5 becomes min -4.95, max -5.05) and the candidate 0 climbs away from
      the range on every step. */
  lemma NegativeRangeRunsAway()
    ensures NextCandidate(-4.95, -5.05, 0.0) == Some(1.01)
  {
    GridlinesSpelled(0.0, -5.05);
  }

  /** The search from candidate `lb` settles within `n` further steps: one of
      its first `n + 1` steps keeps its candidate. */
  predicate StopsWithin(minY: real, maxY: real, lb: real, n: nat)
    decreases n
  {
    match NextCandidate(minY, maxY, lb)
    case None => false
    case Some(next) => next == lb || (n > 0 && StopsWithin(minY, maxY, next, n - 1))
  }

  /** A candidate above both minY and maxY never settles: every step moves
      it further up, away from both. */
  lemma {:induction false} RunawayNeverStops(minY: real, maxY: real, lb: real, n: nat)
    requires minY < lb && maxY < lb
    ensures !StopsWithin(minY, maxY, lb, n)
    decreases n
  {
    RunawayStep(minY, maxY, lb);
    if n > 0 {
      RunawayNeverStops(minY, maxY, NextCandidate(minY, maxY, lb).value, n - 1);
    }
  }

  /** Over finite borders, the chart's search from candidate 0 settles only
      on ScaleInDomain and TopAtZero: on every other range it runs for any
      number of steps (a NaN candidate, or a candidate running away upwards),
      so the source's recursion ends in a stack overflow. */
  lemma OutsideDomainNeverStops(minY: real, maxY: real, n: nat)
    requires !ScaleInDomain(Fin(minY), Fin(maxY)) && !TopAtZero(Fin(minY), Fin(maxY))
    ensures !StopsWithin(minY, maxY, 0.0, n)
  {
    if maxY <= minY && 0.0 <= minY {
      DegenerateStep(minY, maxY, 0.0);
    } else {
      RunawayNeverStops(minY, maxY, 0.0, n);
    }
  }

  /** On ScaleInDomain and TopAtZero the first step is defined, and on
      TopAtZero it already keeps the candidate 0. */
  lemma DomainStops(minY: real, maxY: real)
    requires ScaleInDomain(Fin(minY), Fin(maxY)) || TopAtZero(Fin(minY), Fin(maxY))
    ensures NextCandidate(minY, maxY, 0.0).Some?
    ensures TopAtZero(Fin(minY), Fin(maxY)) ==> StopsWithin(minY, maxY, 0.0, 0)
  {
    if TopAtZero(Fin(minY), Fin(maxY)) {
      TopAtZeroStops(minY);
    } else if 0.0 <= minY {
      ClimbStep(minY, maxY, 0.0);
    } else {
      DescentStep(minY, maxY, 0.0);
    }
  }
}
