/**
 * The deployment-frequency computer: at each point `t`, the mean interval in
 * seconds between the passed deployments of the window `[t - period, t)`, or
 * nothing when fewer than two of them fall in it. Every passed deployment
 * counts, re-deployments of one changelist included.
 */
module DeploymentFrequency {
  import opened Common
  import opened DevopsModels
  import opened MetricWindow

  const MinimumDeploymentsRequired: nat := 2

  predicate FetchedPassed(d: Deployment, environment: nat, lo: int, hi: int) {
    d.environment == environment && d.status == Pass && lo <= d.time < hi
  }

  /**
   * The run's query: times of the environment's passed deployments in
   * `[lo, hi)`. The query orders them by time; the frequency depends only on
   * their count, maximum and minimum, so they are kept in table order here.
   */
  function FetchPassedDeploymentTimes(deployments: seq<Deployment>, environment: nat, lo: int, hi: int): seq<int> {
    MapSeq(Filter(deployments, (d: Deployment) => FetchedPassed(d, environment, lo, hi)), (d: Deployment) => d.time)
  }

  /** Python's `max` over a non-empty list. */
  function SeqMax(s: seq<int>): (m: int)
    requires |s| > 0
    ensures m in s && forall x :: x in s ==> x <= m
  {
    if |s| == 1 then s[0]
    else
      var rest := SeqMax(s[1..]);
      assert forall x :: x in s <==> x == s[0] || x in s[1..];
      if s[0] >= rest then s[0] else rest
  }

  /** Python's `min` over a non-empty list. */
  function SeqMin(s: seq<int>): (m: int)
    requires |s| > 0
    ensures m in s && forall x :: x in s ==> m <= x
  {
    if |s| == 1 then s[0]
    else
      var rest := SeqMin(s[1..]);
      assert forall x :: x in s <==> x == s[0] || x in s[1..];
      if s[0] <= rest then s[0] else rest
  }

  function TimesInWindow(times: seq<int>, t: int, period: int): seq<int> {
    Filter(times, (x: int) => InWindow(x, t, period))
  }

  /** The frequency from the deployment times of one window. */
  function FrequencyOf(w: seq<int>): Option<real> {
    if |w| < MinimumDeploymentsRequired then None
    else Some((SeqMax(w) - SeqMin(w)) as real / (|w| - 1) as real)
  }

  /** The frequency at `t` from the times a run fetched. */
  function FrequencyAt(times: seq<int>, t: int, period: int): Option<real> {
    FrequencyOf(TimesInWindow(times, t, period))
  }

  function SeriesFrom(times: seq<int>, period: int, first: int, n: nat, step: int): seq<(int, Option<real>)> {
    seq(n, i requires 0 <= i < n => (first + i * step, FrequencyAt(times, first + i * step, period)))
  }

  /** The points `(first + i * step, frequency)` of a run of `n` timestamps. */
  function Series(
    deployments: seq<Deployment>, environment: Environment, period: int, first: int, n: nat, step: int
  ): seq<(int, Option<real>)> {
    SeriesFrom(FetchPassedDeploymentTimes(deployments, environment.id, first - period, LastTimestamp(first, n, step)),
               period, first, n, step)
  }

  /** The operations count of a run: the number of timestamps times the size of the passed deployment times fetched. */
  function OperationsCount(deployments: seq<Deployment>, environment: Environment, period: int, first: int, n: nat, step: int): int {
    n * |FetchPassedDeploymentTimes(deployments, environment.id, first - period, LastTimestamp(first, n, step))|
  }

  method ComputeForConsecutiveTimestamps(
    deployments: seq<Deployment>, environment: Environment, period: int, first: int, n: nat, step: int
  ) returns (frequencies: seq<(int, Option<real>)>, warn: bool)
    ensures frequencies == Series(deployments, environment, period, first, n, step)
    ensures |frequencies| == n
    ensures warn == WouldWarnAboutPerformance(OperationsCount(deployments, environment, period, first, n, step), None)
  {
    var times := FetchPassedDeploymentTimes(deployments, environment.id, first - period, LastTimestamp(first, n, step));
    warn := WouldWarnAboutPerformance(n * |times|, None);
    frequencies := ComputeFromFetched(times, period, first, n, step);
  }

  /** The per-timestamp loop over the deployment times already fetched. */
  method ComputeFromFetched(times: seq<int>, period: int, first: int, n: nat, step: int)
    returns (frequencies: seq<(int, Option<real>)>)
    ensures frequencies == SeriesFrom(times, period, first, n, step)
  {
    frequencies := [];
    for i := 0 to n
      invariant |frequencies| == i
      invariant forall k :: 0 <= k < i ==> frequencies[k] == (first + k * step, FrequencyAt(times, first + k * step, period))
    {
      var t := first + i * step;
      var current := TimesInWindow(times, t, period);
      var frequency: Option<real>;
      if |current| < MinimumDeploymentsRequired {
        frequency := None;
      } else {
        frequency := Some((SeqMax(current) - SeqMin(current)) as real / (|current| - 1) as real);
      }
      assert frequency == FrequencyOf(current);
      frequencies := frequencies + [(t, frequency)];
    }
  }

  /** The frequency at `t` computed from exactly the window's own deployments. */
  function WindowValue(deployments: seq<Deployment>, environment: Environment, period: int, t: int): Option<real> {
    FrequencyAt(FetchPassedDeploymentTimes(deployments, environment.id, t - period, t), t, period)
  }

  /** Narrowed to the window, the times fetched over any range containing it are the window's own. */
  lemma WindowTimesOfFetch(deployments: seq<Deployment>, environment: nat, lo: int, hi: int, t: int, period: int)
    requires lo <= t - period && t <= hi
    ensures TimesInWindow(FetchPassedDeploymentTimes(deployments, environment, lo, hi), t, period)
         == MapSeq(Filter(deployments, (d: Deployment) => d.environment == environment && d.status == Pass && InWindow(d.time, t, period)),
                   (d: Deployment) => d.time)
  {
    var q := (d: Deployment) => FetchedPassed(d, environment, lo, hi);
    var w := (d: Deployment) => InWindow(d.time, t, period);
    var qw := (d: Deployment) => q(d) && w(d);
    var both := (d: Deployment) => d.environment == environment && d.status == Pass && InWindow(d.time, t, period);
    FilterMapSeq(Filter(deployments, q), (d: Deployment) => d.time, (x: int) => InWindow(x, t, period), w);
    FilterFilter(deployments, q, w, qw);
    FilterSameOn(deployments, qw, both);
  }

  /** Over any fetch range containing the window, the frequency at `t` is the window's own. */
  lemma FetchRangeIrrelevant(deployments: seq<Deployment>, environment: Environment, period: int, lo: int, hi: int, t: int)
    requires lo <= t - period && t <= hi
    ensures FrequencyAt(FetchPassedDeploymentTimes(deployments, environment.id, lo, hi), t, period)
         == WindowValue(deployments, environment, period, t)
  {
    WindowTimesOfFetch(deployments, environment.id, lo, hi, t, period);
    WindowTimesOfFetch(deployments, environment.id, t - period, t, t, period);
    var wide := TimesInWindow(FetchPassedDeploymentTimes(deployments, environment.id, lo, hi), t, period);
    var narrow := TimesInWindow(FetchPassedDeploymentTimes(deployments, environment.id, t - period, t), t, period);
    assert wide == narrow;
  }

  /** Every point of a run equals the frequency computed from its own window alone. */
  lemma SeriesPointIsWindowValue(
    deployments: seq<Deployment>, environment: Environment, period: int, first: int, n: nat, step: int, k: nat
  )
    requires step >= 0 && k < n
    ensures Series(deployments, environment, period, first, n, step)[k]
         == (first + k * step, WindowValue(deployments, environment, period, first + k * step))
  {
    PointWithinRun(first, n, step, k, period);
    SeriesPointAt(deployments, environment, period, first, n, step, k, first + k * step);
  }

  lemma SeriesPointAt(
    deployments: seq<Deployment>, environment: Environment, period: int, first: int, n: nat, step: int, k: nat, t: int
  )
    requires step >= 0 && k < n
    requires first - period <= t - period && t <= LastTimestamp(first, n, step)
    requires t == first + k * step
    ensures Series(deployments, environment, period, first, n, step)[k] == (t, WindowValue(deployments, environment, period, t))
  {
    var times := FetchPassedDeploymentTimes(deployments, environment.id, first - period, LastTimestamp(first, n, step));
    var v := WindowValue(deployments, environment, period, t);
    assert FrequencyAt(times, t, period) == v by {
      FetchRangeIrrelevant(deployments, environment, period, first - period, LastTimestamp(first, n, step), t);
    }
    assert Series(deployments, environment, period, first, n, step)[k] == (t, FrequencyAt(times, t, period));
  }

  /** The frequency, when present, is never negative. */
  lemma FrequencyNonNegative(times: seq<int>, t: int, period: int)
    ensures FrequencyAt(times, t, period).Some? ==> FrequencyAt(times, t, period).value >= 0.0
  {
    var w := TimesInWindow(times, t, period);
    if |w| >= MinimumDeploymentsRequired {
      assert SeqMin(w) <= w[0] <= SeqMax(w);
    }
  }

  /** The ordering key of `order_by('time')` over the deployment times: the time itself. */
  function TimeOf(x: int): int { x }

  /** Sum of the intervals between consecutive elements. */
  function SumOfGaps(s: seq<int>): int {
    if |s| < 2 then 0 else (s[1] - s[0]) + SumOfGaps(s[1..])
  }

  lemma {:induction false} SumOfGapsTelescopes(s: seq<int>)
    requires |s| >= 1
    ensures SumOfGaps(s) == s[|s| - 1] - s[0]
  {
    if |s| >= 2 {
      SumOfGapsTelescopes(s[1..]);
    }
  }

  lemma SortedMinMax(w: seq<int>)
    requires SortedBy(w, TimeOf) && |w| > 0
    ensures SeqMax(w) == w[|w| - 1] && SeqMin(w) == w[0]
  {
    SortedMax(w);
    SortedMin(w);
  }

  lemma SortedMax(w: seq<int>)
    requires SortedBy(w, TimeOf) && |w| > 0
    ensures SeqMax(w) == w[|w| - 1]
  {
    var j :| 0 <= j < |w| && w[j] == SeqMax(w);
    assert w[|w| - 1] in w;
    if j < |w| - 1 {
      assert w[j] <= w[|w| - 1];
    }
  }

  lemma SortedMin(w: seq<int>)
    requires SortedBy(w, TimeOf) && |w| > 0
    ensures SeqMin(w) == w[0]
  {
    var m :| 0 <= m < |w| && w[m] == SeqMin(w);
    assert w[0] in w;
    if 0 < m {
      assert w[0] <= w[m];
    }
  }

  /**
   * Over times in order, the frequency is the mean of the intervals between
   * consecutive deployments of the window.
   */
  lemma FrequencyIsMeanInterval(times: seq<int>, t: int, period: int)
    requires SortedBy(times, TimeOf)
    ensures var w := TimesInWindow(times, t, period);
      FrequencyAt(times, t, period) ==
        if |w| < 2 then None else Some(SumOfGaps(w) as real / (|w| - 1) as real)
  {
    var w := TimesInWindow(times, t, period);
    FilterKeepsSortedBy(times, TimeOf, (x: int) => InWindow(x, t, period));
    if |w| >= 2 {
      SumOfGapsTelescopes(w);
      SortedMinMax(w);
    }
  }

  /** Passes at 200 and 400 around a failure at 300, at `t = 500` over 400 seconds: 200. */
  lemma ExampleFailureIgnored()
    ensures
      var deps := [Deployment(1, 5, 1, Pass, 200), Deployment(2, 5, 1, Fail, 300), Deployment(3, 5, 2, Pass, 400)];
      WindowValue(deps, Environment(5, 9), 400, 500) == Some(200.0)
  {
    ExampleFetch();
    ExampleFrequency();
  }

  lemma ExampleFetch()
    ensures
      var deps := [Deployment(1, 5, 1, Pass, 200), Deployment(2, 5, 1, Fail, 300), Deployment(3, 5, 2, Pass, 400)];
      FetchPassedDeploymentTimes(deps, 5, 100, 500) == [200, 400]
  {
    var deps := [Deployment(1, 5, 1, Pass, 200), Deployment(2, 5, 1, Fail, 300), Deployment(3, 5, 2, Pass, 400)];
    var passed := [Deployment(1, 5, 1, Pass, 200), Deployment(3, 5, 2, Pass, 400)];
    ExamplePassed();
    assert Filter(deps, (d: Deployment) => FetchedPassed(d, 5, 100, 500)) == passed;
    assert MapSeq(passed, (d: Deployment) => d.time) == [200, 400];
  }

  lemma ExamplePassed()
    ensures Filter([Deployment(1, 5, 1, Pass, 200), Deployment(2, 5, 1, Fail, 300), Deployment(3, 5, 2, Pass, 400)],
                   (d: Deployment) => FetchedPassed(d, 5, 100, 500))
         == [Deployment(1, 5, 1, Pass, 200), Deployment(3, 5, 2, Pass, 400)]
  {
    var d1 := Deployment(1, 5, 1, Pass, 200);
    var d2 := Deployment(2, 5, 1, Fail, 300);
    var d3 := Deployment(3, 5, 2, Pass, 400);
    var q := (d: Deployment) => FetchedPassed(d, 5, 100, 500);
    FilterCons(d3, [], q);
    FilterCons(d2, [d3], q);
    FilterCons(d1, [d2, d3], q);
    assert [d1, d2, d3] == [d1] + ([d2] + ([d3] + []));
  }

  lemma ExampleFrequency()
    ensures FrequencyAt([200, 400], 500, 400) == Some(200.0)
  {
    var inW := (x: int) => InWindow(x, 500, 400);
    FilterCons(400, [], inW);
    FilterCons(200, [400], inW);
    assert [200, 400] == [200] + ([400] + []);
    assert TimesInWindow([200, 400], 500, 400) == [200, 400];
    assert SeqMax([200, 400]) == 400 && SeqMin([200, 400]) == 200;
  }
}
