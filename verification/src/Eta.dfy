/** The moving-average estimator of partition durations, over the reals
    (servo-runtime/src/eta.rs). */
module Eta {
  import opened Wrappers

  datatype Ewma = Ewma(alpha: real, avgDurationMs: real, observationCount: nat)

  function Clamp(alpha: real): (r: real)
    ensures 0.01 <= r <= 1.0
    ensures 0.01 <= alpha <= 1.0 ==> r == alpha
    ensures alpha < 0.01 ==> r == 0.01
    ensures alpha > 1.0 ==> r == 1.0
  {
    if alpha < 0.01 then 0.01 else if alpha > 1.0 then 1.0 else alpha
  }

  /** `f64::round`: to the nearest integer, halves away from zero. */
  function Round(x: real): (n: int)
    ensures -0.5 <= x - n as real <= 0.5
    ensures x - n as real == 0.5 ==> x < 0.0
    ensures x - n as real == -0.5 ==> x > 0.0
    ensures x >= 0.0 ==> n >= 0
  {
    if x >= 0.0 then (x + 0.5).Floor else -((0.5 - x).Floor)
  }

  function Fresh(alpha: real): Ewma {
    Ewma(Clamp(alpha), 0.0, 0)
  }

  function Resumed(alpha: real, initialAvgMs: int): Ewma {
    Ewma(Clamp(alpha), initialAvgMs as real, if initialAvgMs > 0 then 1 else 0)
  }

  /** The new average from an observation and the average before. */
  function Blend(alpha: real, observed: real, average: real): real {
    alpha * observed + (1.0 - alpha) * average
  }

  function Observe(e: Ewma, durationMs: nat): Ewma {
    var duration := durationMs as real;
    e.(avgDurationMs := if e.observationCount == 0 then duration
                        else Blend(e.alpha, duration, e.avgDurationMs),
       observationCount := e.observationCount + 1)
  }

  function ObserveAll(e: Ewma, durations: seq<nat>): Ewma {
    if durations == [] then e
    else Observe(ObserveAll(e, durations[..|durations| - 1]), durations[|durations| - 1])
  }

  /** The average as it is stored with the job. */
  function Stored(e: Ewma): int {
    Round(e.avgDurationMs)
  }

  ghost predicate IsSmoothing(alpha: real) {
    0.0 <= alpha <= 1.0
  }

  lemma BlendStaysBetween(alpha: real, x: real, y: real, lo: real, hi: real)
    requires IsSmoothing(alpha) && lo <= x <= hi && lo <= y <= hi
    ensures lo <= Blend(alpha, x, y) <= hi
  {
    assert alpha * x + (1.0 - alpha) * y == y + alpha * (x - y);
    assert y + alpha * (x - y) == x + (1.0 - alpha) * (y - x);
    if x <= y {
      ProductOfNonNegatives(alpha, y - x);
      ProductOfNonNegatives(1.0 - alpha, y - x);
      assert alpha * (x - y) == -(alpha * (y - x));
    } else {
      ProductOfNonNegatives(alpha, x - y);
      ProductOfNonNegatives(1.0 - alpha, x - y);
      assert (1.0 - alpha) * (y - x) == -((1.0 - alpha) * (x - y));
    }
  }

  lemma ProductOfNonNegatives(a: real, b: real)
    requires a >= 0.0 && b >= 0.0
    ensures a * b >= 0.0
  {
  }

  /** The average stays between any bounds of the observations and, once there is one, of the
      average it started from. */
  lemma {:induction false} AverageStaysInRange(e: Ewma, durations: seq<nat>, lo: real, hi: real)
    requires IsSmoothing(e.alpha)
    requires forall i :: 0 <= i < |durations| ==> lo <= durations[i] as real <= hi
    requires e.observationCount > 0 ==> lo <= e.avgDurationMs <= hi
    ensures var r := ObserveAll(e, durations);
            && r.alpha == e.alpha
            && r.observationCount == e.observationCount + |durations|
            && (r.observationCount > 0 ==> lo <= r.avgDurationMs <= hi)
  {
    if durations != [] {
      hide Blend;
      var n := |durations| - 1;
      AverageStaysInRange(e, durations[..n], lo, hi);
      var r := ObserveAll(e, durations[..n]);
      if r.observationCount > 0 {
        BlendStaysBetween(e.alpha, durations[n] as real, r.avgDurationMs, lo, hi);
      }
    }
  }

  // ----- Resuming from a stored average -----

  function Power(x: real, n: nat): real {
    if n == 0 then 1.0 else x * Power(x, n - 1)
  }

  /** Identical updates shrink the difference of two averages by the same factor each time. */
  lemma {:induction false} DifferenceDecays(a: Ewma, b: Ewma, durations: seq<nat>)
    requires a.alpha == b.alpha && a.observationCount > 0 && b.observationCount > 0
    ensures ObserveAll(a, durations).avgDurationMs - ObserveAll(b, durations).avgDurationMs
         == Power(1.0 - a.alpha, |durations|) * (a.avgDurationMs - b.avgDurationMs)
    ensures ObserveAll(a, durations).observationCount > 0 && ObserveAll(b, durations).observationCount > 0
    ensures ObserveAll(a, durations).alpha == a.alpha && ObserveAll(b, durations).alpha == a.alpha
  {
    if durations == [] {
      hide Blend;
      assert Power(1.0 - a.alpha, 0) == 1.0;
    } else {
      hide Blend, Power;
      var n := |durations| - 1;
      PowerStep(1.0 - a.alpha, n);
      DifferenceDecays(a, b, durations[..n]);
      var ra, rb := ObserveAll(a, durations[..n]).avgDurationMs, ObserveAll(b, durations[..n]).avgDurationMs;
      BlendDifference(a.alpha, durations[n] as real, ra, rb);
      MultiplyThrough(1.0 - a.alpha, ra - rb, Power(1.0 - a.alpha, n), a.avgDurationMs - b.avgDurationMs);
    }
  }

  lemma BlendDifference(alpha: real, observed: real, x: real, y: real)
    ensures Blend(alpha, observed, x) - Blend(alpha, observed, y) == (1.0 - alpha) * (x - y)
  {
  }

  lemma PowerStep(x: real, n: nat)
    ensures Power(x, n + 1) == x * Power(x, n)
  {
  }

  lemma MultiplyThrough(q: real, x: real, p: real, d: real)
    requires x == p * d
    ensures q * x == (q * p) * d
  {
  }

  lemma {:induction false} PowerIsNonNegative(x: real, n: nat)
    requires x >= 0.0
    ensures Power(x, n) >= 0.0
  {
    if n > 0 {
      PowerIsNonNegative(x, n - 1);
    }
  }

  function Abs(x: real): real {
    if x < 0.0 then -x else x
  }

  /** How far a run resumed from the stored average is from the uninterrupted one. */
  function Drift(e: Ewma, durations: seq<nat>): real {
    Abs(ObserveAll(e, durations).avgDurationMs
        - ObserveAll(Resumed(e.alpha, Stored(e)), durations).avgDurationMs)
  }

  ghost predicate DriftIsBounded(e: Ewma) {
    forall durations: seq<nat> :: Drift(e, durations) <= Power(1.0 - e.alpha, |durations|) * 0.5
  }

  lemma ScaledDifference(p: real, d: real)
    requires p >= 0.0 && -0.5 <= d <= 0.5
    ensures Abs(p * d) <= p * 0.5
  {
    ProductOfNonNegatives(p, 0.5 - d);
    ProductOfNonNegatives(p, 0.5 + d);
    assert p * (0.5 - d) == p * 0.5 - p * d && p * (0.5 + d) == p * 0.5 + p * d;
  }

  /** Resuming from a positive stored average drifts by at most half a millisecond, less by a
      factor of `1 - alpha` with every further update. */
  lemma ResumedDriftDecays(e: Ewma, durations: seq<nat>)
    requires 0.01 <= e.alpha <= 1.0 && e.observationCount > 0 && Stored(e) > 0
    ensures Drift(e, durations) <= Power(1.0 - e.alpha, |durations|) * 0.5
  {
    hide Power, ObserveAll;
    var resumed := Resumed(e.alpha, Stored(e));
    DifferenceDecays(e, resumed, durations);
    PowerIsNonNegative(1.0 - e.alpha, |durations|);
    var p, d := Power(1.0 - e.alpha, |durations|), e.avgDurationMs - Stored(e) as real;
    assert resumed.avgDurationMs == Stored(e) as real && resumed.alpha == e.alpha;
    assert Drift(e, durations) == Abs(p * d);
    ScaledDifference(p, d);
  }

  /** The bound holds for all further durations exactly if the stored average is positive, or
      there was nothing to store, or only the last observation counts anyway: an average that
      rounds to zero is forgotten. */
  lemma DriftIsBoundedIff(e: Ewma)
    requires 0.01 <= e.alpha <= 1.0 && e.avgDurationMs >= 0.0
    requires e.observationCount == 0 ==> e.avgDurationMs == 0.0
    ensures DriftIsBounded(e) <==> e.observationCount == 0 || Stored(e) > 0 || e.alpha == 1.0
  {
    if e.observationCount == 0 || Stored(e) > 0 || e.alpha == 1.0 {
      forall durations: seq<nat> ensures Drift(e, durations) <= Power(1.0 - e.alpha, |durations|) * 0.5 {
        if e.observationCount > 0 && Stored(e) > 0 {
          ResumedDriftDecays(e, durations);
        } else if e.observationCount == 0 {
          FreshResumesExactly(e);
          PowerIsNonNegative(1.0 - e.alpha, |durations|);
        } else {
          LastObservationOnly(e, durations);
        }
      }
    } else {
      ForgottenAverage(e);
    }
  }

  lemma FreshResumesExactly(e: Ewma)
    requires 0.01 <= e.alpha <= 1.0 && e.observationCount == 0 && e.avgDurationMs == 0.0
    ensures Resumed(e.alpha, Stored(e)) == e
  {
    assert (0.5).Floor == 0;
  }

  lemma {:induction false} LastObservationOnly(e: Ewma, durations: seq<nat>)
    requires e.alpha == 1.0 && Stored(e) == 0 && e.avgDurationMs >= 0.0
    ensures Drift(e, durations) <= Power(0.0, |durations|) * 0.5
    ensures ObserveAll(e, durations).alpha == 1.0
    ensures ObserveAll(Resumed(1.0, 0), durations).alpha == 1.0
  {
    if durations != [] {
      LastObservationOnly(e, durations[..|durations| - 1]);
      var n := |durations| - 1;
      assert Power(0.0, n + 1) == 0.0 * Power(0.0, n);
    }
  }

  /** One observation of two milliseconds shows the difference. */
  lemma ForgottenAverage(e: Ewma)
    requires 0.01 <= e.alpha < 1.0 && e.observationCount > 0 && e.avgDurationMs >= 0.0 && Stored(e) == 0
    ensures !DriftIsBounded(e)
  {
    var durations: seq<nat> := [2];
    assert durations[..0] == [];
    var resumed := Resumed(e.alpha, 0);
    assert ObserveAll(resumed, durations) == Observe(resumed, 2);
    assert ObserveAll(e, durations) == Observe(e, 2);
    var q := 1.0 - e.alpha;
    assert e.alpha * 2.0 + q * e.avgDurationMs - 2.0 == -(q * (2.0 - e.avgDurationMs));
    assert e.avgDurationMs <= 0.5;
    ProductOfNonNegatives(q, 0.5 - e.avgDurationMs);
    assert q * (2.0 - e.avgDurationMs) == q * 1.5 + q * (0.5 - e.avgDurationMs);
    assert Power(q, 0) == 1.0 && Power(q, 1) == q * Power(q, 0);
    assert Drift(e, durations) > Power(q, |durations|) * 0.5;
  }

  class EtaCalculator {
    const alpha: real
    var avgDurationMs: real
    var observationCount: nat

    function View(): Ewma
      reads this
    {
      Ewma(alpha, avgDurationMs, observationCount)
    }

    constructor (alpha: real)
      ensures View() == Fresh(alpha)
      ensures this.alpha == Clamp(alpha) && observationCount == 0
    {
      this.alpha := Clamp(alpha);
      avgDurationMs := 0.0;
      observationCount := 0;
    }

    constructor WithInitialAvg(alpha: real, initialAvgMs: int)
      ensures View() == Resumed(alpha, initialAvgMs)
      ensures this.alpha == Clamp(alpha) && avgDurationMs == initialAvgMs as real
      ensures observationCount == 1 <==> initialAvgMs > 0
      ensures observationCount == 0 <==> initialAvgMs <= 0
    {
      this.alpha := Clamp(alpha);
      avgDurationMs := initialAvgMs as real;
      observationCount := if initialAvgMs > 0 then 1 else 0;
    }

    method Update(durationMs: nat)
      modifies this
      ensures View() == Observe(old(View()), durationMs)
    {
      var duration := durationMs as real;
      if observationCount == 0 {
        avgDurationMs := duration;
      } else {
        avgDurationMs := alpha * duration + (1.0 - alpha) * avgDurationMs;
      }
      observationCount := observationCount + 1;
    }

    method AvgDurationMs() returns (r: int)
      ensures r == Stored(View())
    {
      return Round(avgDurationMs);
    }

    /** The estimated milliseconds for the remaining partitions, if anything was observed. */
    method EstimateRemaining(remainingPartitions: nat) returns (r: Option<int>)
      ensures r.None? <==> observationCount == 0
      ensures r.Some? ==> r.value == Round(avgDurationMs * remainingPartitions as real)
      ensures r.Some? ==> Abs(r.value as real - avgDurationMs * remainingPartitions as real) <= 0.5
    {
      if observationCount == 0 {
        return None;
      }
      return Some(Round(avgDurationMs * remainingPartitions as real));
    }
  }
}
