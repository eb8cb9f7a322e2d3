/** The sequence of window starts walked by calculate_windowed_features
    (onchain_anomaly_detector.py, lines 46-56 and 107-115): it begins at the
    earliest in-period timestamp, advances by the step, and ends with the
    asymmetric termination rule that may "snap" one last window towards the
    latest timestamp. All times are whole seconds. */
module WindowWalk {
  import opened Common

  /** The window [start, start + window) contains the instant `t`. */
  predicate InWindow(t: int, start: int, window: int)
  {
    start <= t < start + window
  }

  /** The snap branch of lines 107-111: the step overshoots the latest
      timestamp, the start is still before it, and the window ends before it. */
  predicate Snaps(cur: int, tmax: int, window: int, step: int)
  {
    cur + step > tmax && cur < tmax && cur + window < tmax
  }

  /** Lines 107-115: what the loop does after emitting the window that starts
      at `cur`; `None` is a `break`. The snapped start always lies after `cur`,
      so the clamp to `tmin` at line 111 never changes it, and a snap needs a
      step longer than the window. */
  function Advance(cur: int, tmin: int, tmax: int, window: int, step: int): (next: Option<int>)
    requires cur <= tmax
    ensures next.None? ==> cur + step > tmax
    ensures next.Some? && step > 0 ==> cur < next.value
    ensures next.Some? && next.value != cur + step ==>
              && Snaps(cur, tmax, window, step)
              && step > window
              && (tmin <= cur ==> next.value == tmax - window + 1)
  {
    if cur + step > tmax && cur < tmax then
      if cur + window >= tmax then None
      else
        var snapped := tmax - window + 1;
        Some(if snapped < tmin then tmin else snapped)
    else if cur + step > tmax then None
    else Some(cur + step)
  }

  /** The window starts emitted by the loop of lines 55-115 from `cur` on. */
  function WindowStarts(cur: int, tmin: int, tmax: int, window: int, step: int): (starts: seq<int>)
    requires tmin <= cur
    requires step > 0
    ensures cur <= tmax ==> |starts| > 0 && starts[0] == cur
    ensures cur > tmax ==> starts == []
    ensures forall i :: 0 <= i < |starts| ==> cur <= starts[i] <= tmax
    ensures forall i, j :: 0 <= i < j < |starts| ==> starts[i] < starts[j]
    ensures |starts| > 0 && window >= 1 ==> Advance(starts[|starts| - 1], tmin, tmax, window, step).None?
    decreases tmax - cur
  {
    if cur > tmax then []
    else
      match Advance(cur, tmin, tmax, window, step)
      case None => [cur]
      case Some(next) => [cur] + WindowStarts(next, tmin, tmax, window, step)
  }

  /** One pass of the loop: the walk from `cur` is `cur` followed by the walk
      from the next start, if any. */
  lemma WalkUnfolds(cur: int, tmin: int, tmax: int, window: int, step: int)
    requires tmin <= cur <= tmax && step > 0
    ensures match Advance(cur, tmin, tmax, window, step)
            case None => WindowStarts(cur, tmin, tmax, window, step) == [cur]
            case Some(next) => WindowStarts(cur, tmin, tmax, window, step) == [cur] + WindowStarts(next, tmin, tmax, window, step)
  {
  }

  /** The walk invariant of the loop: the starts emitted so far followed by
      the walk from the current start make up the whole walk. */
  lemma WalkStep(done: seq<int>, walk: seq<int>, cur: int, tmin: int, tmax: int, window: int, step: int)
    requires tmin <= cur <= tmax && step > 0
    requires done + WindowStarts(cur, tmin, tmax, window, step) == walk
    ensures match Advance(cur, tmin, tmax, window, step)
            case None => done + [cur] == walk
            case Some(next) => (done + [cur]) + WindowStarts(next, tmin, tmax, window, step) == walk
  {
    WalkUnfolds(cur, tmin, tmax, window, step);
    match Advance(cur, tmin, tmax, window, step)
    case None =>
    case Some(next) =>
      var rest := WindowStarts(next, tmin, tmax, window, step);
      assert (done + [cur]) + rest == done + ([cur] + rest);
  }

  /** With a window of at least one second the last window reaches `tmax`:
      its end is at or after the latest timestamp. */
  lemma LastWindowReachesLatest(tmin: int, tmax: int, window: int, step: int)
    requires tmin <= tmax && window >= 1 && step >= 1
    ensures var starts := WindowStarts(tmin, tmin, tmax, window, step);
            |starts| > 0 && starts[0] == tmin && starts[|starts| - 1] + window >= tmax
  {
  }

  /** Some window of `starts` holds the instant `t`. */
  predicate Covered(starts: seq<int>, window: int, t: int)
  {
    exists i :: 0 <= i < |starts| && InWindow(t, starts[i], window)
  }

  /** Windows are half-open, so the latest timestamp is covered exactly when
      the last window does not end precisely at it. */
  lemma LatestCoveredUnlessExactEnd(tmin: int, tmax: int, window: int, step: int)
    requires tmin <= tmax && window >= 1 && step >= 1
    ensures var starts := WindowStarts(tmin, tmin, tmax, window, step);
            Covered(starts, window, tmax) <==> starts[|starts| - 1] + window != tmax
  {
    var starts := WindowStarts(tmin, tmin, tmax, window, step);
    var last := |starts| - 1;
    if starts[last] + window != tmax {
      assert InWindow(tmax, starts[last], window);
    } else {
      forall i | 0 <= i < |starts|
        ensures !InWindow(tmax, starts[i], window)
      {
        if i < last {
          assert starts[i] < starts[last];
        }
      }
    }
  }

  /** When the step is no longer than the window the snap cannot happen and
      the latest timestamp is always covered. */
  lemma StepWithinWindowCoversLatest(tmin: int, tmax: int, window: int, step: int)
    requires tmin <= tmax && 1 <= step <= window
    ensures Covered(WindowStarts(tmin, tmin, tmax, window, step), window, tmax)
  {
    var starts := WindowStarts(tmin, tmin, tmax, window, step);
    LatestCoveredUnlessExactEnd(tmin, tmax, window, step);
    var last := starts[|starts| - 1];
    assert Advance(last, tmin, tmax, window, step).None?;
  }

  /** A window that ends exactly at the latest timestamp stops the walk
      without covering it: transactions at hour 0 and hour 24, a 24-hour
      window and a 25-hour step yield the single window [0, 86400). */
  lemma ExactEndLeavesLatestUncovered()
    ensures WindowStarts(0, 0, 86400, 86400, 90000) == [0]
    ensures !Covered(WindowStarts(0, 0, 86400, 86400, 90000), 86400, 86400)
  {
    assert Advance(0, 0, 86400, 86400, 90000) == None;
  }

  /** The start after `n` more passes through the loop, or `None` once the
      loop has exited by its `while` condition or by a `break`. */
  function StartAfter(cur: int, tmin: int, tmax: int, window: int, step: int, n: nat): Option<int>
    decreases n
  {
    if n == 0 then Some(cur)
    else if cur > tmax then None
    else
      match Advance(cur, tmin, tmax, window, step)
      case None => None
      case Some(next) => StartAfter(next, tmin, tmax, window, step, n - 1)
  }

  /** With a step of zero or less the loop never exits: after any number of
      passes it is still running, at `cur + n * step`. */
  lemma {:induction false} NonPositiveStepNeverStops(cur: int, tmin: int, tmax: int, window: int, step: int, n: nat)
    requires cur <= tmax && step <= 0
    ensures StartAfter(cur, tmin, tmax, window, step, n) == Some(cur + n * step)
    decreases n
  {
    if n > 0 {
      assert Advance(cur, tmin, tmax, window, step) == Some(cur + step);
      NonPositiveStepNeverStops(cur + step, tmin, tmax, window, step, n - 1);
      assert cur + step + (n - 1) * step == cur + n * step;
    }
  }
}
