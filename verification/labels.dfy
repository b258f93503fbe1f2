/** The keyed label maps of the axes and how a frame reconciles them with
    the labels it wants: every tracked label is told to fade out, the ones
    that have faded are dropped (in the later chart version), wanted labels
    that are still tracked are told to fade back in and keep their current
    opacity, and wanted labels not tracked are inserted. */
module Labels {
  import opened Num

  /** One label: where it belongs (a value or a date), its horizontal offset,
      and its fill and stroke opacities with their targets. Labels without a
      stroke keep both stroke fields at 0. */
  datatype Label = Label(position: real, offset: real, opacity: real, targetOpacity: real,
                         strokeOpacity: real, targetStrokeOpacity: real)

  /** `+opacity.toFixed(2) === 0`: the opacity shows as 0 at two decimals. */
  predicate RoundsToZero(opacity: real) {
    Abs(opacity) < 0.005
  }

  /** Sets the fill target and, for labels with a stroke, the stroke target. */
  function Retarget(l: Label, target: real, stroke: Option<real>): (r: Label)
    ensures r.targetOpacity == target
    ensures r.targetStrokeOpacity == (if stroke.Some? then stroke.value else l.targetStrokeOpacity)
    ensures r.position == l.position && r.offset == l.offset
    ensures r.opacity == l.opacity && r.strokeOpacity == l.strokeOpacity
  {
    l.(targetOpacity := target, targetStrokeOpacity := if stroke.Some? then stroke.value else l.targetStrokeOpacity)
  }

  lemma RetargetTwice(l: Label, target: real, stroke: Option<real>)
    ensures Retarget(Retarget(l, target, stroke), target, stroke) == Retarget(l, target, stroke)
  {
  }

  /** The first loop of the later version: every label is told to fade out,
      and those whose opacity already shows as 0 are deleted. */
  function FadeAndPrune<K(==, !new)>(m: map<K, Label>, stroke: bool): (r: map<K, Label>)
    ensures forall k :: k in r <==> k in m && !RoundsToZero(m[k].opacity)
    ensures forall k :: k in r ==> r[k] == Retarget(m[k], 0.0, if stroke then Some(0.0) else None)
  {
    map k | k in m && !RoundsToZero(m[k].opacity) :: Retarget(m[k], 0.0, if stroke then Some(0.0) else None)
  }

  /** The first loop of the first version: every label is told to fade out;
      none is deleted. */
  function FadeAll<K(==, !new)>(m: map<K, Label>): (r: map<K, Label>)
    ensures r.Keys == m.Keys
    ensures forall k :: k in r ==> r[k] == Retarget(m[k], 0.0, Some(0.0))
  {
    map k | k in m :: Retarget(m[k], 0.0, Some(0.0))
  }

  /** `k` is the key of some wanted label. */
  predicate Wanted<K(==, !new)>(desired: seq<(K, Label)>, k: K) {
    exists i :: 0 <= i < |desired| && desired[i].0 == k
  }

  /** Entry `i` is the first wanted label with its key, and the key is not
      tracked yet. */
  predicate FirstNew<K(==, !new)>(m: map<K, Label>, desired: seq<(K, Label)>, i: int)
    requires 0 <= i < |desired|
  {
    desired[i].0 !in m && forall j :: 0 <= j < i ==> desired[j].0 != desired[i].0
  }

  /** The key of entry `i` is wanted again later. */
  predicate WantedAfter<K(==, !new)>(desired: seq<(K, Label)>, i: int)
    requires 0 <= i < |desired|
  {
    exists j :: i < j < |desired| && desired[j].0 == desired[i].0
  }

  /** The second loop: the wanted labels in order; one already tracked under
      its key is retargeted, a new one is inserted as it is. A key wanted
      twice is inserted at its first occurrence and retargeted at the later
      ones. */
  function Admit<K(==, !new)>(m: map<K, Label>, desired: seq<(K, Label)>, target: real, stroke: Option<real>): (r: map<K, Label>)
    ensures forall k :: k in r <==> k in m || Wanted(desired, k)
    ensures forall i :: 0 <= i < |desired| ==> desired[i].0 in r
  {
    if |desired| == 0 then m
    else
      var last := |desired| - 1;
      var prior := Admit(m, desired[..last], target, stroke);
      assert forall i :: 0 <= i < last ==> desired[..last][i] == desired[i];
      var (k, wanted) := desired[last];
      if k in prior then prior[k := Retarget(prior[k], target, stroke)]
      else prior[k := wanted]
  }

  /** A tracked label nobody wants is left as it was. */
  lemma {:induction false} AdmitKeepsUnwanted<K(!new)>(m: map<K, Label>, desired: seq<(K, Label)>,
                                                     target: real, stroke: Option<real>, k: K)
    requires k in m && !Wanted(desired, k)
    ensures Admit(m, desired, target, stroke)[k] == m[k]
  {
    if |desired| > 0 {
      var last := |desired| - 1;
      assert forall i :: 0 <= i < last ==> desired[..last][i] == desired[i];
      AdmitKeepsUnwanted(m, desired[..last], target, stroke, k);
    }
  }

  /** A tracked label that is wanted is retargeted and otherwise kept: its
      opacity is not reset. */
  lemma {:induction false} AdmitRetargetsTracked<K(!new)>(m: map<K, Label>, desired: seq<(K, Label)>,
                                                        target: real, stroke: Option<real>, k: K)
    requires k in m && Wanted(desired, k)
    ensures Admit(m, desired, target, stroke)[k] == Retarget(m[k], target, stroke)
  {
    var last := |desired| - 1;
    var prior := Admit(m, desired[..last], target, stroke);
    assert forall i :: 0 <= i < last ==> desired[..last][i] == desired[i];
    if Wanted(desired[..last], k) {
      AdmitRetargetsTracked(m, desired[..last], target, stroke, k);
      RetargetTwice(m[k], target, stroke);
    } else {
      AdmitKeepsUnwanted(m, desired[..last], target, stroke, k);
    }
  }

  /** A new key is inserted with the first wanted label that has it, which
      is retargeted only when the key is wanted again later. */
  lemma {:induction false} AdmitInsertsNew<K(!new)>(m: map<K, Label>, desired: seq<(K, Label)>,
                                                  target: real, stroke: Option<real>, i: nat)
    requires i < |desired| && FirstNew(m, desired, i)
    ensures Admit(m, desired, target, stroke)[desired[i].0] ==
      (if WantedAfter(desired, i) then Retarget(desired[i].1, target, stroke) else desired[i].1)
  {
    var last := |desired| - 1;
    var k := desired[i].0;
    AdmitLast(m, desired, target, stroke);
    if i == last {
      NotWantedBefore(desired, i);
    } else {
      FirstNewInPrefix(m, desired, i);
      AdmitInsertsNew(m, desired[..last], target, stroke, i);
      if desired[last].0 == k {
        assert WantedAfter(desired, i);
        RetargetTwice(desired[i].1, target, stroke);
      } else {
        WantedAfterInPrefix(desired, i);
      }
    }
  }

  /** A key that no entry before `i` has is not wanted by that prefix. */
  lemma NotWantedBefore<K(!new)>(desired: seq<(K, Label)>, i: nat)
    requires i < |desired| && forall j :: 0 <= j < i ==> desired[j].0 != desired[i].0
    ensures !Wanted(desired[..i], desired[i].0)
  {
    forall j | 0 <= j < i ensures desired[..i][j].0 != desired[i].0 {
      assert desired[..i][j] == desired[j];
    }
  }

  /** An entry first with its key stays so in the list without its last
      entry. */
  lemma FirstNewInPrefix<K(!new)>(m: map<K, Label>, desired: seq<(K, Label)>, i: nat)
    requires i + 1 < |desired| && FirstNew(m, desired, i)
    ensures desired[..|desired| - 1][i] == desired[i]
    ensures FirstNew(m, desired[..|desired| - 1], i)
  {
    var prefix := desired[..|desired| - 1];
    forall j | 0 <= j < i ensures prefix[j].0 != desired[i].0 {
      assert prefix[j] == desired[j];
    }
  }

  /** When the last entry has another key, the key of entry `i` is wanted
      again later in the whole list exactly when it is in the list without
      its last entry. */
  lemma WantedAfterInPrefix<K(!new)>(desired: seq<(K, Label)>, i: nat)
    requires i + 1 < |desired| && desired[|desired| - 1].0 != desired[i].0
    ensures WantedAfter(desired, i) <==> WantedAfter(desired[..|desired| - 1], i)
  {
    var last := |desired| - 1;
    var prefix := desired[..last];
    var k := desired[i].0;
    assert prefix[i] == desired[i];
    if WantedAfter(desired, i) {
      var j :| i < j < |desired| && desired[j].0 == k;
      assert j < last && prefix[j] == desired[j];
    }
    if WantedAfter(prefix, i) {
      var j :| i < j < last && prefix[j].0 == k;
      assert prefix[j] == desired[j];
    }
  }

  /** Admitting the last wanted label after the others. */
  lemma AdmitLast<K(!new)>(m: map<K, Label>, desired: seq<(K, Label)>, target: real, stroke: Option<real>)
    requires |desired| > 0
    ensures var prior := Admit(m, desired[..|desired| - 1], target, stroke);
      var k := desired[|desired| - 1].0;
      Admit(m, desired, target, stroke) ==
        if k in prior then prior[k := Retarget(prior[k], target, stroke)] else prior[k := desired[|desired| - 1].1]
  {
  }

  /** One animation frame of a label: both opacities move the fractions
      `p` and `ps` of the way to their targets, with no snapping. */
  function Animate(l: Label, p: real, ps: real): (r: Label)
    ensures 0.0 <= p <= 1.0 ==> Min(l.opacity, l.targetOpacity) <= r.opacity <= Max(l.opacity, l.targetOpacity)
    ensures 0.0 <= ps <= 1.0 ==> Min(l.strokeOpacity, l.targetStrokeOpacity) <= r.strokeOpacity <= Max(l.strokeOpacity, l.targetStrokeOpacity)
    ensures r.position == l.position && r.offset == l.offset
    ensures r.targetOpacity == l.targetOpacity && r.targetStrokeOpacity == l.targetStrokeOpacity
  {
    Lerp(l.opacity, l.targetOpacity, p);
    Lerp(l.strokeOpacity, l.targetStrokeOpacity, ps);
    l.(opacity := l.opacity + p * (l.targetOpacity - l.opacity),
       strokeOpacity := l.strokeOpacity + ps * (l.targetStrokeOpacity - l.strokeOpacity))
  }

  /** The drawing loop's updates over the whole map. */
  function AnimateAll<K(==, !new)>(m: map<K, Label>, p: real, ps: real): (r: map<K, Label>)
    ensures r.Keys == m.Keys
    ensures forall k :: k in r ==> r[k] == Animate(m[k], p, ps)
  {
    map k | k in m :: Animate(m[k], p, ps)
  }

  /** One frame of a label told to fade out: its opacity stays
      non-negative and strictly falls. That it comes to show as 0 and is
      dropped after enough frames is FadedLabelDropped. */
  lemma FadingLabelFalls(l: Label, p: real, ps: real)
    requires l.targetOpacity == 0.0 && 0.0 < l.opacity <= 1.0 && 0.0 < p <= 1.0
    ensures 0.0 <= Animate(l, p, ps).opacity < l.opacity
  {
  }

  /** One opacity over several frames heading for `target`, each frame
      moving it its gain of the way: the fill gain (`fill`) or the stroke
      gain of the frame. */
  function OpacityFrames(o: real, target: real, gains: seq<(real, real)>, fill: bool): real
    decreases |gains|
  {
    if |gains| == 0 then o
    else
      var g := if fill then gains[0].0 else gains[0].1;
      OpacityFrames(o + g * (target - o), target, gains[1..], fill)
  }

  /** A label over several frames, each with its fill and stroke gains. The
      fill and the stroke move independently of each other. */
  function AnimateFrames(l: Label, gains: seq<(real, real)>): (r: Label)
  {
    l.(opacity := OpacityFrames(l.opacity, l.targetOpacity, gains, true),
       strokeOpacity := OpacityFrames(l.strokeOpacity, l.targetStrokeOpacity, gains, false))
  }

  /** The first frame of an opacity, then the others. */
  lemma OpacityFirstFrame(o: real, t: real, gains: seq<(real, real)>, fill: bool, g: real)
    requires |gains| > 0 && g == if fill then gains[0].0 else gains[0].1
    ensures OpacityFrames(o, t, gains, fill) == OpacityFrames(o + g * (t - o), t, gains[1..], fill)
  {
  }

  /** Several frames are the drawing loop's frames one after the other: no
      frames leave the label as it is, and otherwise the first frame is
      drawn, then the others. Every frame keeps the position, the offset and
      the targets. */
  lemma FramesOneByOne(l: Label, gains: seq<(real, real)>)
    ensures |gains| == 0 ==> AnimateFrames(l, gains) == l
    ensures |gains| > 0 ==> AnimateFrames(l, gains) == AnimateFrames(Animate(l, gains[0].0, gains[0].1), gains[1..])
    ensures var r := AnimateFrames(l, gains);
      r.position == l.position && r.offset == l.offset
      && r.targetOpacity == l.targetOpacity && r.targetStrokeOpacity == l.targetStrokeOpacity
  {
    if |gains| > 0 {
      var next := Animate(l, gains[0].0, gains[0].1);
      assert next == l.(opacity := l.opacity + gains[0].0 * (l.targetOpacity - l.opacity),
                        strokeOpacity := l.strokeOpacity + gains[0].1 * (l.targetStrokeOpacity - l.strokeOpacity));
      FramesAfterFirst(l, gains, next);
    }
  }

  /** Several frames from a label are the other frames from the label the
      first frame gives. */
  lemma FramesAfterFirst(l: Label, gains: seq<(real, real)>, next: Label)
    requires |gains| > 0
    requires next == l.(opacity := l.opacity + gains[0].0 * (l.targetOpacity - l.opacity),
                        strokeOpacity := l.strokeOpacity + gains[0].1 * (l.targetStrokeOpacity - l.strokeOpacity))
    ensures AnimateFrames(l, gains) == AnimateFrames(next, gains[1..])
  {
    var rest := gains[1..];
    OpacityFirstFrame(l.opacity, l.targetOpacity, gains, true, gains[0].0);
    OpacityFirstFrame(l.strokeOpacity, l.targetStrokeOpacity, gains, false, gains[0].1);
    var before, after := AnimateFrames(l, gains), AnimateFrames(next, rest);
    assert before.opacity == after.opacity && before.strokeOpacity == after.strokeOpacity;
  }

  /** One frame of a fading fill, `o + p * (0 - o)`, leaves between none
      and `1 - p0` of it. */
  lemma FadeStep(o: real, p: real, p0: real)
    requires 0.0 <= o && 0.0 < p0 <= p <= 1.0
    ensures 0.0 <= o + p * (0.0 - o) <= (1.0 - p0) * o
  {
    assert o + p * (0.0 - o) == (1.0 - p) * o;
    MulNonneg(1.0 - p, o);
    MulNonneg(p - p0, o);
    assert (1.0 - p0) * o - (1.0 - p) * o == (p - p0) * o;
  }

  /** Scaling by a non-negative factor keeps the order. */
  lemma ScaleLe(q: real, a: real, b: real)
    requires 0.0 <= q && a <= b
    ensures q * a <= q * b
  {
    MulNonneg(q, b - a);
    assert q * (b - a) == q * b - q * a;
  }

  /** The arithmetic of FadeBound's induction step: if what is left after
      the later `m` frames, grown by `1 + m * p0`, is at most the opacity
      after the first frame, itself at most `(1 - p0) * o`, then grown by
      `1 + (m + 1) * p0` it is at most `o`. */
  lemma FadeChain(after: real, next: real, o: real, p0: real, n: nat, n': nat)
    requires 0.0 <= after && 0.0 <= o && 0.0 < p0 <= 1.0 && n' == n + 1
    requires after * (1.0 + n as real * p0) <= next && next <= (1.0 - p0) * o
    ensures after * (1.0 + n' as real * p0) <= o
  {
    var m := n as real;
    var a, b := 1.0 + m * p0, 1.0 + (m + 1.0) * p0;
    assert n' as real == m + 1.0;
    MulNonneg(m, p0);
    assert 0.0 < a;
    var sq := (m + 1.0) * (p0 * p0);
    assert (1.0 - p0) * b == a - sq;
    MulNonneg(p0, p0);
    MulNonneg(m + 1.0, p0 * p0);
    assert (1.0 - p0) * b <= a;
    ScaleLe(b, after * a, (1.0 - p0) * o);
    ScaleLe(o, (1.0 - p0) * b, a);
    assert (after * b) * a == b * (after * a);
    assert b * ((1.0 - p0) * o) == o * ((1.0 - p0) * b);
    assert (after * b) * a <= o * a;
    assert (after * b - o) * a == (after * b) * a - o * a;
    NonposFactor(after * b - o, a);
  }

  /** A product with a positive factor that is not positive has a factor
      that is not positive. */
  lemma NonposFactor(x: real, a: real)
    requires 0.0 < a && x * a <= 0.0
    ensures x <= 0.0
  {
    if x > 0.0 {
      MulPositive(x, a);
    }
  }

  /** The gains after the first frame keep the bounds of all the gains. */
  lemma TailGains(gains: seq<(real, real)>, p0: real)
    requires |gains| > 0 && forall i :: 0 <= i < |gains| ==> p0 <= gains[i].0 <= 1.0
    ensures forall i :: 0 <= i < |gains[1..]| ==> p0 <= gains[1..][i].0 <= 1.0
  {
    forall i | 0 <= i < |gains[1..]| ensures p0 <= gains[1..][i].0 <= 1.0 {
      assert gains[1..][i] == gains[i + 1];
    }
  }

  /** A fill fading out over `n` frames whose gains are at least `p0`: it
      never goes below 0, and what is left, times `1 + n * p0`, is at most
      where it started. */
  lemma {:induction false} FillBound(o: real, gains: seq<(real, real)>, p0: real)
    requires 0.0 <= o && 0.0 < p0 <= 1.0
    requires forall i :: 0 <= i < |gains| ==> p0 <= gains[i].0 <= 1.0
    ensures 0.0 <= OpacityFrames(o, 0.0, gains, true)
    ensures OpacityFrames(o, 0.0, gains, true) * (1.0 + |gains| as real * p0) <= o
    decreases |gains|, 2
  {
    if |gains| == 0 {
      assert |gains| as real * p0 == 0.0;
    } else {
      FillBoundStep(o, gains, p0);
    }
  }

  /** The induction step of FillBound: the first frame leaves at most
      `1 - p0` of the fill, and the others, by induction, their bound of
      what the first frame left. */
  lemma {:induction false} FillBoundStep(o: real, gains: seq<(real, real)>, p0: real)
    requires 0.0 <= o && 0.0 < p0 <= 1.0 && |gains| > 0
    requires forall i :: 0 <= i < |gains| ==> p0 <= gains[i].0 <= 1.0
    ensures 0.0 <= OpacityFrames(o, 0.0, gains, true)
    ensures OpacityFrames(o, 0.0, gains, true) * (1.0 + |gains| as real * p0) <= o
    decreases |gains|, 1
  {
    FadeStep(o, gains[0].0, p0);
    RestBound(o, gains, p0);
    FadeChain(OpacityFrames(o, 0.0, gains, true), o + gains[0].0 * (0.0 - o), o, p0, |gains| - 1, |gains|);
  }

  /** The frames after the first keep their bound, by induction, of what the
      first frame left. */
  lemma {:induction false} RestBound(o: real, gains: seq<(real, real)>, p0: real)
    requires 0.0 <= o && 0.0 < p0 <= 1.0 && |gains| > 0
    requires forall i :: 0 <= i < |gains| ==> p0 <= gains[i].0 <= 1.0
    ensures 0.0 <= OpacityFrames(o, 0.0, gains, true)
    ensures OpacityFrames(o, 0.0, gains, true) * (1.0 + (|gains| - 1) as real * p0) <= o + gains[0].0 * (0.0 - o)
    decreases |gains|, 0
  {
    var next := o + gains[0].0 * (0.0 - o);
    FadeStep(o, gains[0].0, p0);
    TailGains(gains, p0);
    FillBound(next, gains[1..], p0);
    OpacityFirstFrame(o, 0.0, gains, true, gains[0].0);
  }

  /** Each frame with a fill gain of at least `p0` takes at least `p0` of a
      fading label's opacity: after `n` such frames what is left, times
      `1 + n * p0`, is at most the opacity it started from, and it never
      goes below 0. */
  lemma FadeBound(l: Label, gains: seq<(real, real)>, p0: real)
    requires l.targetOpacity == 0.0 && 0.0 <= l.opacity && 0.0 < p0 <= 1.0
    requires forall i :: 0 <= i < |gains| ==> p0 <= gains[i].0 <= 1.0
    ensures 0.0 <= AnimateFrames(l, gains).opacity
    ensures AnimateFrames(l, gains).opacity * (1.0 + |gains| as real * p0) <= l.opacity
  {
    FillBound(l.opacity, gains, p0);
  }

  /** The arithmetic of FadedLabelDropped: what is left is under 1/200. */
  lemma DroppedArith(after: real, o: real, np: real)
    requires 0.0 <= after && 0.0 <= np && after * (1.0 + np) <= o && 200.0 * o <= np
    ensures after < 0.005
  {
    assert after * (1.0 + np) == after + after * np;
    MulNonneg(after, np);
    assert 200.0 * after + 200.0 * (after * np) <= np;
    if after >= 0.005 {
      ScaleLe(np, 0.005, after);
    }
  }

  /** A label no longer wanted is dropped in the end: after `n` frames whose
      fill gains are all at least `p0 > 0`, with `n * p0 >= 200 * opacity`,
      its opacity shows as 0 and the next reconciliation removes it. */
  lemma FadedLabelDropped<K(!new)>(m: map<K, Label>, k: K, gains: seq<(real, real)>, p0: real, stroke: bool)
    requires k in m && m[k].targetOpacity == 0.0 && 0.0 <= m[k].opacity && 0.0 < p0 <= 1.0
    requires forall i :: 0 <= i < |gains| ==> p0 <= gains[i].0 <= 1.0
    requires 200.0 * m[k].opacity <= |gains| as real * p0
    ensures RoundsToZero(AnimateFrames(m[k], gains).opacity)
    ensures k !in FadeAndPrune(m[k := AnimateFrames(m[k], gains)], stroke)
  {
    FadeBound(m[k], gains, p0);
    MulNonneg(|gains| as real, p0);
    DroppedArith(AnimateFrames(m[k], gains).opacity, m[k].opacity, |gains| as real * p0);
  }
}
