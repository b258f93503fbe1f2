/** The per-frame animation step shared by the charts: the elapsed time
    since the previous frame, capped, scales a gain `k`, and every animated
    quantity (an opacity, a ratio, the lower border, the zoom ratio) moves
    the fraction `k` of the way to its target, snapping onto the target once
    it is closer than a small epsilon. */
module Spring {
  import opened Num

  /** Number.EPSILON, 2^-52: the snapping distance of the opacity and scale
      springs. */
  const Epsilon: real := 0.0000000000000002220446049250313080847263336181640625

  /** `Math.min(cap, ts - (prevTs || ts))`: before the first frame, and for a
      previous timestamp of 0 (which is falsy), no time has elapsed. */
  function FrameDelta(prevTs: real, ts: real, cap: real): (delta: real)
    ensures delta <= cap
    ensures prevTs == 0.0 ==> delta == Min(cap, 0.0)
    ensures 0.0 <= cap && prevTs <= ts ==> 0.0 <= delta
  {
    var previous := if prevTs == 0.0 then ts else prevTs;
    Min(cap, ts - previous)
  }

  /** The gain `rate * delta` of a frame lies in `[0, rate * cap]` when time
      does not run backwards: 0.8 for the main chart (rate 0.008, cap 100)
      and 0.4 for the minimap (rate 0.008, cap 50). */
  lemma GainBounded(prevTs: real, ts: real, cap: real, rate: real)
    requires 0.0 <= cap && 0.0 <= rate && prevTs <= ts
    ensures 0.0 <= rate * FrameDelta(prevTs, ts, cap) <= rate * cap
  {
    var d := FrameDelta(prevTs, ts, cap);
    MulNonneg(rate, d);
    MulNonneg(rate, cap - d);
    assert rate * cap - rate * d == rate * (cap - d);
  }

  lemma MainChartGain(prevTs: real, ts: real)
    requires prevTs <= ts
    ensures 0.0 <= 0.008 * FrameDelta(prevTs, ts, 100.0) <= 0.8
  {
    GainBounded(prevTs, ts, 100.0, 0.008);
  }

  lemma MinimapGain(prevTs: real, ts: real)
    requires prevTs <= ts
    ensures 0.0 <= 0.008 * FrameDelta(prevTs, ts, 50.0) <= 0.4
  {
    GainBounded(prevTs, ts, 50.0, 0.008);
  }

  /** One step: snap onto the target when the gap is below `eps`, otherwise
      move by `k` times the gap. With a gain in `[0, 1]` the value ends
      between where it was and the target, so it never overshoots. */
  function Step(current: real, target: real, k: real, eps: real): (r: real)
    ensures Abs(target - current) < eps ==> r == target
    ensures 0.0 <= k <= 1.0 ==> Min(current, target) <= r <= Max(current, target)
    ensures 0.0 <= k <= 1.0 ==> Abs(target - r) <= Abs(target - current)
    ensures 0.0 < k <= 1.0 && r != target ==> Abs(target - r) < Abs(target - current)
  {
    var diff := target - current;
    if Abs(diff) < eps then target else current + k * diff
  }

  /** The remaining gap after a step that did not snap is `(1 - k)` times the
      gap before it. */
  lemma StepShrinksGap(current: real, target: real, k: real, eps: real)
    requires Abs(target - current) >= eps
    ensures target - Step(current, target, k, eps) == (1.0 - k) * (target - current)
  {
  }

  /** The change flag as written, `!Math.abs(diff) < EPSILON`: `!` binds
      first and turns the absolute gap into a boolean, which compares as 1
      (gap 0) or 0 (any other gap). */
  predicate ChangingFlag(diff: real, eps: real) {
    (if Abs(diff) == 0.0 then 1.0 else 0.0) < eps
  }

  /** With an epsilon in `(0, 1]` (Number.EPSILON is), the flag is raised
      exactly when the gap is not zero, however small. */
  lemma ChangingIffNonzero(diff: real, eps: real)
    requires 0.0 < eps <= 1.0
    ensures ChangingFlag(diff, eps) <==> diff != 0.0
  {
  }

  /** `n` frames with the same gain. */
  function Iterate(current: real, target: real, k: real, eps: real, n: nat): (r: real)
    ensures 0.0 <= k <= 1.0 ==> Min(current, target) <= r <= Max(current, target)
    ensures 0.0 <= k <= 1.0 ==> Abs(target - r) <= Abs(target - current)
    decreases n
  {
    if n == 0 then current else Iterate(Step(current, target, k, eps), target, k, eps, n - 1)
  }

  /** The target is a fixed point of the step. */
  lemma {:induction false} TargetIsFixed(target: real, k: real, eps: real, n: nat)
    requires 0.0 < eps
    ensures Iterate(target, target, k, eps, n) == target
    decreases n
  {
    if n > 0 {
      assert Step(target, target, k, eps) == target;
      TargetIsFixed(target, k, eps, n - 1);
    }
  }

  /** A frame that does not land on the target closes the gap by at least
      `k * eps`. */
  lemma StepCloses(current: real, target: real, k: real, eps: real)
    requires 0.0 < k <= 1.0 && 0.0 < eps
    requires Step(current, target, k, eps) != target
    ensures Abs(target - Step(current, target, k, eps)) <= Abs(target - current) - k * eps
  {
    var d := target - current;
    assert Abs(d) >= eps;
    StepShrinksGap(current, target, k, eps);
    var d' := target - Step(current, target, k, eps);
    assert d' == (1.0 - k) * d;
    if d >= 0.0 {
      assert d' >= 0.0;
      assert k * d >= k * eps;
    } else {
      assert d' <= 0.0;
      assert k * -d >= k * eps;
    }
  }

  /** `n * g`, accumulated one frame at a time. */
  function Budget(n: nat, g: real): (r: real)
    ensures r == n as real * g
  {
    if n == 0 then 0.0 else Budget(n - 1, g) + g
  }

  /** Over `n` frames, every frame that does not land on the target closes
      the gap by at least `k * eps`. */
  lemma {:induction false} IterateCloses(current: real, target: real, k: real, eps: real, n: nat)
    requires 0.0 < k <= 1.0 && 0.0 < eps
    ensures var r := Iterate(current, target, k, eps, n);
      r == target || Abs(target - r) <= Abs(target - current) - Budget(n, k * eps)
    decreases n
  {
    if n > 0 {
      var next := Step(current, target, k, eps);
      assert Iterate(current, target, k, eps, n) == Iterate(next, target, k, eps, n - 1);
      IterateCloses(next, target, k, eps, n - 1);
      if next == target {
        TargetIsFixed(target, k, eps, n - 1);
      } else {
        StepCloses(current, target, k, eps);
      }
    }
  }

  /** The spring settles: after more than `gap / (k * eps)` frames the value
      sits exactly on its target. */
  lemma Settles(current: real, target: real, k: real, eps: real, n: nat)
    requires 0.0 < k <= 1.0 && 0.0 < eps
    requires n as real * (k * eps) > Abs(target - current)
    ensures Iterate(current, target, k, eps, n) == target
  {
    IterateCloses(current, target, k, eps, n);
  }
}
