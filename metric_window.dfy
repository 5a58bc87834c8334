/**
 * What every metric computer shares: the half-open checking window
 * `[t - period, t)`, the timestamps `first + i * step` of a consecutive run,
 * the fetch range `[first - period, last)` that a run loads from the database
 * once, and the performance-warning rule.
 */
module MetricWindow {
  import opened Common

  /** Difference between the timestamps of a single-timestamp computation (one day). */
  const DefaultConsecutiveTimestampsDifference: int := Day

  /** Operation count above which a computation logs a performance warning. */
  const DefaultComputeOperationsThreshold: int := 100_000_000

  /** An event at `time` counts at the point `t` iff `t - period <= time < t`. */
  predicate InWindow(time: int, t: int, period: int) {
    t - period <= time < t
  }

  /** The last timestamp of a run of `n` points: `first + (n - 1) * step`. */
  function LastTimestamp(first: int, n: int, step: int): int {
    first + (n - 1) * step
  }

  /**
   * The performance warning is logged iff the operation count exceeds the
   * threshold strictly; with no threshold the default one is used. It is a
   * log line only: the computers return it beside their results and nothing
   * they compute depends on it.
   */
  function WouldWarnAboutPerformance(operationsCount: int, threshold: Option<int>): (warn: bool)
    ensures threshold.None? ==> (warn <==> operationsCount > DefaultComputeOperationsThreshold)
    ensures threshold.Some? ==> (warn <==> operationsCount > threshold.value)
  {
    var limit := if threshold.None? then DefaultComputeOperationsThreshold else threshold.value;
    operationsCount > limit
  }

  /**
   * Point `k` of a run with a non-negative step lies inside the run's fetch
   * range, and so does its whole window.
   */
  lemma {:induction false} PointWithinRun(first: int, n: int, step: int, k: int, period: int)
    requires step >= 0 && 0 <= k < n
    ensures first - period <= first + k * step - period
    ensures first + k * step <= LastTimestamp(first, n, step)
  {
    assert k * step >= 0 by { MulNonNegative(k, step); }
    assert (n - 1 - k) * step >= 0 by { MulNonNegative(n - 1 - k, step); }
    assert (n - 1) * step == k * step + (n - 1 - k) * step;
  }

  lemma MulNonNegative(a: int, b: int)
    requires a >= 0 && b >= 0
    ensures a * b >= 0
  {
  }

  /** Point `k - i` of a run starting at point `i` of another run with the same step is point `k` of that run. */
  lemma {:induction false} SubRunTimestamp(first: int, step: int, i: int, k: int)
    ensures (first + i * step) + (k - i) * step == first + k * step
  {
    assert (k - i) * step == k * step - i * step;
  }
}
