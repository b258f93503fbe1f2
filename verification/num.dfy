/** Shared numeric vocabulary: optional values, JavaScript numbers extended
    with the two infinities that `Math.max`/`Math.min` of an empty list
    produce, and the list extrema the chart computes everywhere. */
module Num {

  datatype Option<T> = None | Some(value: T)

  /** A JavaScript number as far as this model needs it: a finite value, or
      one of the infinities. */
  datatype Ext = NegInf | Fin(v: real) | PosInf

  function Abs(x: real): real {
    if x < 0.0 then -x else x
  }

  function Min(a: real, b: real): real {
    if a <= b then a else b
  }

  function Max(a: real, b: real): real {
    if a >= b then a else b
  }

  /** `Math.floor`, as a real. */
  function Floor(x: real): real {
    x.Floor as real
  }

  /** `Math.ceil`, as a real. */
  function Ceil(x: real): real {
    -((-x).Floor as real)
  }

  /** `Math.round`: halves go up. */
  function Round(x: real): real {
    (x + 0.5).Floor as real
  }

  lemma FloorMonotone(a: real, b: real)
    requires a <= b
    ensures Floor(a) <= Floor(b)
  {
    var fa, fb := a.Floor, b.Floor;
    assert fa as real <= a && b < fb as real + 1.0;
    assert fa < fb + 1;
  }

  /** Cancelling a common non-zero factor. */
  lemma Cancel(b: real, c: real, h: real)
    requires h != 0.0 && b * h == c * h
    ensures b == c
  {
    assert (b - c) * h == 0.0;
  }

  /** Moving the fraction `p` in `[0, 1]` of the way from `a` to `b` ends
      between the two. */
  lemma Lerp(a: real, b: real, p: real)
    ensures 0.0 <= p <= 1.0 ==> Min(a, b) <= a + p * (b - a) <= Max(a, b)
  {
    if 0.0 <= p <= 1.0 {
      if a <= b {
        MulNonneg(p, b - a);
        MulNonneg(1.0 - p, b - a);
      } else {
        MulNonneg(p, a - b);
        MulNonneg(1.0 - p, a - b);
      }
    }
  }

  /** A factor of a non-negative product with a positive other factor is
      itself non-negative. */
  lemma NonnegFactor(r: real, d: real)
    requires 0.0 < d && 0.0 <= r * d
    ensures 0.0 <= r
  {
    MulNonneg(r * d, 1.0 / d);
    assert r * d * (1.0 / d) == r;
  }

  /** A factor of a positive product with a positive other factor is
      itself positive. */
  lemma PositiveFactor(r: real, d: real)
    requires 0.0 < d && 0.0 < r * d
    ensures 0.0 < r
  {
    NonnegFactor(r, d);
    assert r != 0.0;
  }

  lemma MulPositive(x: real, y: real)
    requires 0.0 < x && 0.0 < y
    ensures 0.0 < x * y
  {
  }

  lemma MulNonneg(x: real, y: real)
    requires 0.0 <= x && 0.0 <= y
    ensures 0.0 <= x * y
  {
  }

  /** A positive factor keeps the sign of the other. */
  lemma ProductSign(d: real, k: real)
    ensures 0.0 < k ==> (0.0 < d * k <==> 0.0 < d)
  {
    if 0.0 < k && 0.0 < d {
      MulPositive(d, k);
    } else if 0.0 < k {
      MulNonneg(-d, k);
      assert (-d) * k == -(d * k);
    }
  }

  predicate ExtLe(a: Ext, b: Ext) {
    a.NegInf? || b.PosInf? || (a.Fin? && b.Fin? && a.v <= b.v)
  }

  function ExtMax(a: Ext, b: Ext): Ext {
    if ExtLe(a, b) then b else a
  }

  function ExtMin(a: Ext, b: Ext): Ext {
    if ExtLe(a, b) then a else b
  }

  /** `m` is what `Math.max` returns for a list whose elements satisfy `In`:
      -Infinity for no element, otherwise an element no smaller than any. */
  ghost predicate IsMaxOf(m: Ext, s: seq<real>) {
    && (m == NegInf <==> |s| == 0)
    && !m.PosInf?
    && (m.Fin? ==> m.v in s && forall i :: 0 <= i < |s| ==> s[i] <= m.v)
  }

  ghost predicate IsMinOf(m: Ext, s: seq<real>) {
    && (m == PosInf <==> |s| == 0)
    && !m.NegInf?
    && (m.Fin? ==> m.v in s && forall i :: 0 <= i < |s| ==> m.v <= s[i])
  }

  /** `Math.max(...s)`. */
  function SeqMax(s: seq<real>): (m: Ext)
    ensures IsMaxOf(m, s)
  {
    if |s| == 0 then NegInf
    else
      var rest := SeqMax(s[1..]);
      assert forall i :: 1 <= i < |s| ==> s[i] == s[1..][i - 1];
      ExtMax(Fin(s[0]), rest)
  }

  /** `Math.min(...s)`. */
  function SeqMin(s: seq<real>): (m: Ext)
    ensures IsMinOf(m, s)
  {
    if |s| == 0 then PosInf
    else
      var rest := SeqMin(s[1..]);
      assert forall i :: 1 <= i < |s| ==> s[i] == s[1..][i - 1];
      ExtMin(Fin(s[0]), rest)
  }

  /** The maximum of a list depends only on which values it holds. */
  lemma MaxDependsOnlyOnValues(s: seq<real>, t: seq<real>)
    requires forall x :: x in s <==> x in t
    ensures SeqMax(s) == SeqMax(t)
  {
    var a, b := SeqMax(s), SeqMax(t);
    if a.Fin? && b.Fin? {
      var i :| 0 <= i < |t| && t[i] == a.v;
      var j :| 0 <= j < |s| && s[j] == b.v;
    }
  }

  lemma MinDependsOnlyOnValues(s: seq<real>, t: seq<real>)
    requires forall x :: x in s <==> x in t
    ensures SeqMin(s) == SeqMin(t)
  {
    var a, b := SeqMin(s), SeqMin(t);
    if a.Fin? && b.Fin? {
      var i :| 0 <= i < |t| && t[i] == a.v;
      var j :| 0 <= j < |s| && s[j] == b.v;
    }
  }

  /** A list whose values all occur in a second list has a maximum no larger
      and a minimum no smaller than the second's. */
  lemma ExtremaOfSublist(s: seq<real>, t: seq<real>)
    requires forall x :: x in s ==> x in t
    ensures ExtLe(SeqMax(s), SeqMax(t))
    ensures ExtLe(SeqMin(t), SeqMin(s))
  {
    var a, b := SeqMax(s), SeqMax(t);
    if a.Fin? {
      var i :| 0 <= i < |t| && t[i] == a.v;
    }
    var c, d := SeqMin(s), SeqMin(t);
    if c.Fin? {
      var i :| 0 <= i < |t| && t[i] == c.v;
    }
  }

  /** The concatenation `lists[0] + lists[1] + ...`, as
      `reduce((values, d) => values.concat(d), [])` builds it. */
  function Flatten(lists: seq<seq<real>>): (r: seq<real>)
    ensures forall x :: x in r <==> exists i :: 0 <= i < |lists| && x in lists[i]
  {
    if |lists| == 0 then []
    else
      var last := |lists| - 1;
      var r := Flatten(lists[..last]) + lists[last];
      assert forall i :: 0 <= i < last ==> lists[..last][i] == lists[i];
      r
  }

  /** Flattening a permutation of the lists gives a list with the same values. */
  lemma FlattenPermutation(a: seq<seq<real>>, b: seq<seq<real>>)
    requires multiset(a) == multiset(b)
    ensures forall x :: x in Flatten(a) <==> x in Flatten(b)
  {
    forall x | x in Flatten(a)
      ensures x in Flatten(b)
    {
      var i :| 0 <= i < |a| && x in a[i];
      assert a[i] in multiset(b);
      var j :| 0 <= j < |b| && b[j] == a[i];
    }
    forall x | x in Flatten(b)
      ensures x in Flatten(a)
    {
      var i :| 0 <= i < |b| && x in b[i];
      assert b[i] in multiset(a);
      var j :| 0 <= j < |a| && a[j] == b[i];
    }
  }

  /** `Math.max` over a list of already extended numbers. */
  function ExtSeqMax(s: seq<Ext>): (m: Ext)
    ensures forall i :: 0 <= i < |s| ==> ExtLe(s[i], m)
    ensures |s| == 0 ==> m == NegInf
    ensures |s| > 0 ==> m in s
  {
    if |s| == 0 then NegInf
    else
      var rest := ExtSeqMax(s[1..]);
      assert forall i :: 1 <= i < |s| ==> s[i] == s[1..][i - 1];
      ExtMax(s[0], rest)
  }

  function ExtSeqMin(s: seq<Ext>): (m: Ext)
    ensures forall i :: 0 <= i < |s| ==> ExtLe(m, s[i])
    ensures |s| == 0 ==> m == PosInf
    ensures |s| > 0 ==> m in s
  {
    if |s| == 0 then PosInf
    else
      var rest := ExtSeqMin(s[1..]);
      assert forall i :: 1 <= i < |s| ==> s[i] == s[1..][i - 1];
      ExtMin(s[0], rest)
  }

  function MaximaOf(lists: seq<seq<real>>): (r: seq<Ext>)
    ensures |r| == |lists|
    ensures forall i :: 0 <= i < |lists| ==> r[i] == SeqMax(lists[i])
  {
    if |lists| == 0 then [] else [SeqMax(lists[0])] + MaximaOf(lists[1..])
  }

  function MinimaOf(lists: seq<seq<real>>): (r: seq<Ext>)
    ensures |r| == |lists|
    ensures forall i :: 0 <= i < |lists| ==> r[i] == SeqMin(lists[i])
  {
    if |lists| == 0 then [] else [SeqMin(lists[0])] + MinimaOf(lists[1..])
  }

  /** `Math.max(...lists.map(l => Math.max(...l)))` is the maximum of the
      concatenation of the lists. */
  lemma MaxOfMaxima(lists: seq<seq<real>>)
    ensures IsMaxOf(ExtSeqMax(MaximaOf(lists)), Flatten(lists))
    ensures ExtSeqMax(MaximaOf(lists)) == SeqMax(Flatten(lists))
  {
    MaximaAreMax(lists);
    MaxUnique(ExtSeqMax(MaximaOf(lists)), SeqMax(Flatten(lists)), Flatten(lists));
  }

  lemma MaximaAreMax(lists: seq<seq<real>>)
    ensures IsMaxOf(ExtSeqMax(MaximaOf(lists)), Flatten(lists))
  {
    var m, f := ExtSeqMax(MaximaOf(lists)), Flatten(lists);
    forall k | 0 <= k < |f| ensures ExtLe(Fin(f[k]), m) {
      MaximaBound(lists, f[k]);
    }
    if |f| > 0 {
      assert ExtLe(Fin(f[0]), m);
    }
    if m.Fin? {
      MaximumAttained(lists);
    }
  }

  /** Every value of every list is at most the maximum of the maxima. */
  lemma MaximaBound(lists: seq<seq<real>>, x: real)
    requires x in Flatten(lists)
    ensures ExtLe(Fin(x), ExtSeqMax(MaximaOf(lists)))
  {
    var i :| 0 <= i < |lists| && x in lists[i];
    var j :| 0 <= j < |lists[i]| && lists[i][j] == x;
    assert ExtLe(MaximaOf(lists)[i], ExtSeqMax(MaximaOf(lists)));
  }

  /** A finite maximum of the maxima is one of the values. */
  lemma MaximumAttained(lists: seq<seq<real>>)
    requires ExtSeqMax(MaximaOf(lists)).Fin?
    ensures ExtSeqMax(MaximaOf(lists)).v in Flatten(lists)
  {
    var m := ExtSeqMax(MaximaOf(lists));
    var i :| 0 <= i < |lists| && MaximaOf(lists)[i] == m;
    assert m.v in lists[i];
  }

  /** A list has one maximum. */
  lemma MaxUnique(a: Ext, b: Ext, s: seq<real>)
    requires IsMaxOf(a, s) && IsMaxOf(b, s)
    ensures a == b
  {
    if a.Fin? && b.Fin? {
      var i :| 0 <= i < |s| && s[i] == a.v;
      var j :| 0 <= j < |s| && s[j] == b.v;
    }
  }

  /** `Math.min(...lists.map(l => Math.min(...l)))` is the minimum of the
      concatenation of the lists. */
  lemma MinOfMinima(lists: seq<seq<real>>)
    ensures IsMinOf(ExtSeqMin(MinimaOf(lists)), Flatten(lists))
    ensures ExtSeqMin(MinimaOf(lists)) == SeqMin(Flatten(lists))
  {
    MinimaAreMin(lists);
    MinUnique(ExtSeqMin(MinimaOf(lists)), SeqMin(Flatten(lists)), Flatten(lists));
  }

  lemma MinimaAreMin(lists: seq<seq<real>>)
    ensures IsMinOf(ExtSeqMin(MinimaOf(lists)), Flatten(lists))
  {
    var m, f := ExtSeqMin(MinimaOf(lists)), Flatten(lists);
    forall k | 0 <= k < |f| ensures ExtLe(m, Fin(f[k])) {
      MinimaBound(lists, f[k]);
    }
    if |f| > 0 {
      assert ExtLe(m, Fin(f[0]));
    }
    if m.Fin? {
      MinimumAttained(lists);
    }
  }

  lemma MinimaBound(lists: seq<seq<real>>, x: real)
    requires x in Flatten(lists)
    ensures ExtLe(ExtSeqMin(MinimaOf(lists)), Fin(x))
  {
    var i :| 0 <= i < |lists| && x in lists[i];
    var j :| 0 <= j < |lists[i]| && lists[i][j] == x;
    assert ExtLe(ExtSeqMin(MinimaOf(lists)), MinimaOf(lists)[i]);
  }

  lemma MinimumAttained(lists: seq<seq<real>>)
    requires ExtSeqMin(MinimaOf(lists)).Fin?
    ensures ExtSeqMin(MinimaOf(lists)).v in Flatten(lists)
  {
    var m := ExtSeqMin(MinimaOf(lists));
    var i :| 0 <= i < |lists| && MinimaOf(lists)[i] == m;
    assert m.v in lists[i];
  }

  lemma MinUnique(a: Ext, b: Ext, s: seq<real>)
    requires IsMinOf(a, s) && IsMinOf(b, s)
    ensures a == b
  {
    if a.Fin? && b.Fin? {
      var i :| 0 <= i < |s| && s[i] == a.v;
      var j :| 0 <= j < |s| && s[j] == b.v;
    }
  }

  /** `a / b` when both are finite and the divisor is not zero; `None` stands
      for the Infinity or NaN JavaScript would produce otherwise. */
  function Div(a: real, b: Ext): (r: Option<real>)
    ensures r.Some? <==> b.Fin? && b.v != 0.0
    ensures r.Some? ==> r.value * b.v == a
  {
    if b.Fin? && b.v != 0.0 then Some(a / b.v) else None
  }

  /** `a / (hi - lo)` when both ends are finite and distinct; `None` stands
      for the Infinity or NaN JavaScript would produce otherwise. */
  function Ratio(a: real, hi: Ext, lo: Ext): (r: Option<real>)
    ensures r.Some? <==> hi.Fin? && lo.Fin? && hi.v != lo.v
    ensures r.Some? ==> r.value * (hi.v - lo.v) == a
  {
    if hi.Fin? && lo.Fin? && hi.v != lo.v then Some(a / (hi.v - lo.v)) else None
  }
}
