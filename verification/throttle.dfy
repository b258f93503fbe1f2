/** rafThrottle(f, time): a leading-edge throttle. A call runs `f` when it
    is the first call or when at least `time` has passed since `f` last ran,
    and returns the most recent result of `f` either way; the second
    function handed out resets the clock to 0. The clock reading
    (`performance.now()`) and the result `f` would compute are parameters. */
module Throttle {
  import opened Num

  datatype Throttle<R> = Throttle(lastCallTime: real, isFirstCall: bool, lastResult: Option<R>, interval: real)

  /** The state right after `rafThrottle(f, time)` at clock reading `now`. */
  function Create<R>(now: real, interval: real): (t: Throttle<R>)
    ensures t.isFirstCall && t.lastResult.None?
    ensures t.lastCallTime == now && t.interval == interval
  {
    Throttle(now, true, None, interval)
  }

  /** Whether a call at `now` runs `f`. */
  predicate Fires<R>(t: Throttle<R>, now: real) {
    now - t.lastCallTime >= t.interval || t.isFirstCall
  }

  /** One call at `now`; `result` is what `f` would return now. The result is the
      new state and the value handed back to the caller. */
  function Call<R>(t: Throttle<R>, now: real, result: R): (r: (Throttle<R>, Option<R>))
    ensures t.isFirstCall ==> r.1 == Some(result)
    ensures Fires(t, now) ==> r.0.lastCallTime == now && !r.0.isFirstCall && r.1 == Some(result)
    ensures !Fires(t, now) ==> r.0 == t && r.1 == t.lastResult
    ensures r.0.interval == t.interval && r.1 == r.0.lastResult
  {
    if Fires(t, now) then
      var t' := t.(lastCallTime := now, isFirstCall := false, lastResult := Some(result));
      (t', t'.lastResult)
    else (t, t.lastResult)
  }

  /** The reset function: `lastCallTime = 0`. */
  function Reset<R>(t: Throttle<R>): (r: Throttle<R>)
    ensures r.lastCallTime == 0.0
    ensures r.isFirstCall == t.isFirstCall && r.lastResult == t.lastResult && r.interval == t.interval
  {
    t.(lastCallTime := 0.0)
  }

  /** The first call after creation runs `f`, however little time passed. */
  lemma FirstCallFires<R>(created: real, now: real, interval: real, result: R)
    ensures Call(Create<R>(created, interval), now, result).1 == Some(result)
  {
  }

  /** Once `f` has run, a later call runs it again exactly when at least
      `time` has passed since that run; a call that does not run it hands
      back the earlier result. */
  lemma LaterCallFiresIff<R>(created: real, first: real, later: real, interval: real, a: R, b: R)
    ensures var t1 := Call(Create<R>(created, interval), first, a).0;
      && (Fires(t1, later) <==> later - first >= interval)
      && (later - first < interval ==> Call(t1, later, b).1 == Some(a))
  {
  }

  /** After a reset, any call at a clock reading of at least `time` runs `f`. */
  lemma ResetThenFires<R>(t: Throttle<R>, now: real, result: R)
    requires now >= t.interval
    ensures Call(Reset(t), now, result).1 == Some(result)
    ensures Call(Reset(t), now, result).0.lastCallTime == now
  {
  }

  /** The clock readings at which `f` runs, for calls at `times`. */
  function Invocations<R>(t: Throttle<R>, times: seq<real>, result: R): seq<real>
    decreases |times|
  {
    if |times| == 0 then []
    else
      var next := Call(t, times[0], result).0;
      (if Fires(t, times[0]) then [times[0]] else []) + Invocations(next, times[1..], result)
  }

  /** Without a reset, successive runs of `f` are at least `time` apart, and
      the first run after a state that has already run `f` is at least `time`
      after its last run. */
  lemma {:induction false} InvocationsSpaced<R>(t: Throttle<R>, times: seq<real>, result: R)
    ensures var inv := Invocations(t, times, result);
      && (forall i :: 0 < i < |inv| ==> inv[i] - inv[i - 1] >= t.interval)
      && (!t.isFirstCall && |inv| > 0 ==> inv[0] - t.lastCallTime >= t.interval)
    decreases |times|
  {
    if |times| > 0 {
      var next := Call(t, times[0], result).0;
      InvocationsSpaced(next, times[1..], result);
      var rest := Invocations(next, times[1..], result);
      if Fires(t, times[0]) {
        assert Invocations(t, times, result) == [times[0]] + rest;
        assert !next.isFirstCall && next.lastCallTime == times[0];
      } else {
        assert next == t;
      }
    }
  }

  /** Every run of `f` happens at the clock reading of some call, and there
      are never more runs than calls. */
  lemma {:induction false} InvocationsAreCalls<R>(t: Throttle<R>, times: seq<real>, result: R)
    ensures |Invocations(t, times, result)| <= |times|
    ensures forall x :: x in Invocations(t, times, result) ==> x in times
    decreases |times|
  {
    if |times| > 0 {
      InvocationsAreCalls(Call(t, times[0], result).0, times[1..], result);
    }
  }
}
