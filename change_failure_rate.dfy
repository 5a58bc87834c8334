/**
 * The change-failure-rate computer: at each point `t`, the percentage of the
 * deployments of the window `[t - period, t)` that failed, or nothing when no
 * deployment falls in it.
 */
module ChangeFailureRate {
  import opened Common
  import opened DevopsModels
  import opened MetricWindow

  predicate FetchedAny(d: Deployment, environment: nat, lo: int, hi: int) {
    d.environment == environment && lo <= d.time < hi
  }

  /**
   * The run's query: the environment's deployments of either status in
   * `[lo, hi)`. The query orders them by time; the rate only counts them, so
   * they are kept in table order here.
   */
  function FetchDeployments(deployments: seq<Deployment>, environment: nat, lo: int, hi: int): seq<Deployment> {
    Filter(deployments, (d: Deployment) => FetchedAny(d, environment, lo, hi))
  }

  function DeploymentsInWindow(deployments: seq<Deployment>, t: int, period: int): seq<Deployment> {
    Filter(deployments, (d: Deployment) => InWindow(d.time, t, period))
  }

  lemma WindowMembers(deployments: seq<Deployment>, t: int, period: int)
    ensures forall d :: d in DeploymentsInWindow(deployments, t, period) <==> d in deployments && InWindow(d.time, t, period)
  {
    FilterMembers(deployments, (d: Deployment) => InWindow(d.time, t, period));
  }

  function FailedOf(deployments: seq<Deployment>): seq<Deployment> {
    Filter(deployments, (d: Deployment) => d.status == Fail)
  }

  /** The failure percentage of the deployments of one window. */
  function RateOf(w: seq<Deployment>): Option<real> {
    if |w| > 0 then Some((|FailedOf(w)| as real / |w| as real) * 100.0) else None
  }

  /** The rate at `t` from the deployments a run fetched. */
  function RateAt(deployments: seq<Deployment>, t: int, period: int): Option<real> {
    RateOf(DeploymentsInWindow(deployments, t, period))
  }

  function SeriesFrom(fetched: seq<Deployment>, period: int, first: int, n: nat, step: int): seq<(int, Option<real>)> {
    seq(n, i requires 0 <= i < n => (first + i * step, RateAt(fetched, first + i * step, period)))
  }

  /** The points `(first + i * step, rate)` of a run of `n` timestamps. */
  function Series(
    deployments: seq<Deployment>, environment: Environment, period: int, first: int, n: nat, step: int
  ): seq<(int, Option<real>)> {
    SeriesFrom(FetchDeployments(deployments, environment.id, first - period, LastTimestamp(first, n, step)),
               period, first, n, step)
  }

  /** The operations count of a run: the number of timestamps times the size of the deployments fetched. */
  function OperationsCount(deployments: seq<Deployment>, environment: Environment, period: int, first: int, n: nat, step: int): int {
    n * |FetchDeployments(deployments, environment.id, first - period, LastTimestamp(first, n, step))|
  }

  method ComputeForConsecutiveTimestamps(
    deployments: seq<Deployment>, environment: Environment, period: int, first: int, n: nat, step: int
  ) returns (rates: seq<(int, Option<real>)>, warn: bool)
    ensures rates == Series(deployments, environment, period, first, n, step)
    ensures |rates| == n
    ensures warn == WouldWarnAboutPerformance(OperationsCount(deployments, environment, period, first, n, step), None)
  {
    var fetched := FetchDeployments(deployments, environment.id, first - period, LastTimestamp(first, n, step));
    warn := WouldWarnAboutPerformance(n * |fetched|, None);
    rates := ComputeFromFetched(fetched, period, first, n, step);
  }

  /** The per-timestamp loop over the deployments already fetched. */
  method ComputeFromFetched(fetched: seq<Deployment>, period: int, first: int, n: nat, step: int)
    returns (rates: seq<(int, Option<real>)>)
    ensures rates == SeriesFrom(fetched, period, first, n, step)
  {
    rates := [];
    for i := 0 to n
      invariant |rates| == i
      invariant forall k :: 0 <= k < i ==> rates[k] == (first + k * step, RateAt(fetched, first + k * step, period))
    {
      var t := first + i * step;
      var current := DeploymentsInWindow(fetched, t, period);
      var failed := FailedOf(current);
      var totalCount := |current|;
      var failedCount := |failed|;
      var rate: Option<real>;
      if totalCount > 0 {
        rate := Some((failedCount as real / totalCount as real) * 100.0);
      } else {
        rate := None;
      }
      rates := rates + [(t, rate)];
    }
  }

  /** The rate at `t` computed from exactly the window's own deployments. */
  function WindowValue(deployments: seq<Deployment>, environment: Environment, period: int, t: int): Option<real> {
    RateAt(FetchDeployments(deployments, environment.id, t - period, t), t, period)
  }

  /** Narrowed to the window, the deployments fetched over any range containing it are the window's own. */
  lemma WindowDeploymentsOfFetch(deployments: seq<Deployment>, environment: nat, lo: int, hi: int, t: int, period: int)
    requires lo <= t - period && t <= hi
    ensures DeploymentsInWindow(FetchDeployments(deployments, environment, lo, hi), t, period)
         == Filter(deployments, (d: Deployment) => d.environment == environment && InWindow(d.time, t, period))
  {
    var q := (d: Deployment) => FetchedAny(d, environment, lo, hi);
    var w := (d: Deployment) => InWindow(d.time, t, period);
    var qw := (d: Deployment) => q(d) && w(d);
    FilterFilter(deployments, q, w, qw);
    FilterSameOn(deployments, qw, (d: Deployment) => d.environment == environment && InWindow(d.time, t, period));
  }

  /** Over any fetch range containing the window, the rate at `t` is the window's own. */
  lemma FetchRangeIrrelevant(deployments: seq<Deployment>, environment: Environment, period: int, lo: int, hi: int, t: int)
    requires lo <= t - period && t <= hi
    ensures RateAt(FetchDeployments(deployments, environment.id, lo, hi), t, period)
         == WindowValue(deployments, environment, period, t)
  {
    WindowDeploymentsOfFetch(deployments, environment.id, lo, hi, t, period);
    WindowDeploymentsOfFetch(deployments, environment.id, t - period, t, t, period);
    var wide := DeploymentsInWindow(FetchDeployments(deployments, environment.id, lo, hi), t, period);
    var narrow := DeploymentsInWindow(FetchDeployments(deployments, environment.id, t - period, t), t, period);
    assert wide == narrow;
  }

  /** Every point of a run equals the rate computed from its own window alone. */
  lemma SeriesPointIsWindowValue(
    deployments: seq<Deployment>, environment: Environment, period: int, first: int, n: nat, step: int, k: nat
  )
    requires step >= 0 && k < n
    ensures Series(deployments, environment, period, first, n, step)[k]
         == (first + k * step, WindowValue(deployments, environment, period, first + k * step))
  {
    PointWithinRun(first, n, step, k, period);
    SeriesPointAt(deployments, environment, period, first, n, step, k, first + k * step);
  }

  lemma SeriesPointAt(
    deployments: seq<Deployment>, environment: Environment, period: int, first: int, n: nat, step: int, k: nat, t: int
  )
    requires step >= 0 && k < n
    requires first - period <= t - period && t <= LastTimestamp(first, n, step)
    requires t == first + k * step
    ensures Series(deployments, environment, period, first, n, step)[k] == (t, WindowValue(deployments, environment, period, t))
  {
    var fetched := FetchDeployments(deployments, environment.id, first - period, LastTimestamp(first, n, step));
    FetchRangeIrrelevant(deployments, environment, period, first - period, LastTimestamp(first, n, step), t);
    assert Series(deployments, environment, period, first, n, step)[k] == (t, RateAt(fetched, t, period));
  }

  lemma FractionAtMostOne(part: real, whole: real)
    requires 0.0 <= part <= whole && whole > 0.0
    ensures 0.0 <= part / whole <= 1.0
  {
    var q := part / whole;
    assert q * whole == part;
    assert (1.0 - q) * whole == whole - part;
  }

  /** A rate is absent exactly when no deployment falls in the window, and is a percentage otherwise. */
  lemma RateIsPercentage(deployments: seq<Deployment>, t: int, period: int)
    ensures var w := DeploymentsInWindow(deployments, t, period);
      RateAt(deployments, t, period).None? <==> |w| == 0
    ensures RateAt(deployments, t, period).Some? ==>
      0.0 <= RateAt(deployments, t, period).value <= 100.0
  {
    var w := DeploymentsInWindow(deployments, t, period);
    if |w| > 0 {
      var f := |FailedOf(w)| as real;
      var total := |w| as real;
      assert 0.0 <= f <= total;
      FractionAtMostOne(f, total);
    }
  }

  /** With no failed deployment in the window the rate is 0. */
  lemma AllPassedIsZero(deployments: seq<Deployment>, t: int, period: int)
    requires exists d :: d in deployments && InWindow(d.time, t, period)
    requires forall d :: d in deployments && InWindow(d.time, t, period) ==> d.status == Pass
    ensures RateAt(deployments, t, period) == Some(0.0)
  {
    var w := DeploymentsInWindow(deployments, t, period);
    var d :| d in deployments && InWindow(d.time, t, period);
    WindowMembers(deployments, t, period);
    assert d in w;
    FilterKeepsNone(w, (d: Deployment) => d.status == Fail);
  }

  /** With only failed deployments in the window the rate is 100. */
  lemma AllFailedIsHundred(deployments: seq<Deployment>, t: int, period: int)
    requires exists d :: d in deployments && InWindow(d.time, t, period)
    requires forall d :: d in deployments && InWindow(d.time, t, period) ==> d.status == Fail
    ensures RateAt(deployments, t, period) == Some(100.0)
  {
    var w := DeploymentsInWindow(deployments, t, period);
    var d :| d in deployments && InWindow(d.time, t, period);
    WindowMembers(deployments, t, period);
    assert d in w;
    assert forall x :: x in w ==> x.status == Fail;
    FilterKeepsAll(w, (d: Deployment) => d.status == Fail);
    assert |FailedOf(w)| == |w|;
    WholeIsHundredPercent(|w|);
  }

  lemma WholeIsHundredPercent(n: nat)
    requires n > 0
    ensures (n as real / n as real) * 100.0 == 100.0
  {
    assert n as real / n as real == 1.0;
  }

  /** One pass and one fail at 300 and 400, at `t = 500` over 400 seconds: 50 per cent. */
  lemma ExampleHalfFailed()
    ensures
      var deps := [Deployment(1, 5, 1, Pass, 300), Deployment(2, 5, 2, Fail, 400)];
      RateAt(deps, 500, 400) == Some(50.0)
  {
    var d1 := Deployment(1, 5, 1, Pass, 300);
    var d2 := Deployment(2, 5, 2, Fail, 400);
    var inW := (d: Deployment) => InWindow(d.time, 500, 400);
    var isFail := (d: Deployment) => d.status == Fail;
    assert [d1, d2] == [d1] + ([d2] + []);
    FilterCons(d2, [], inW);
    FilterCons(d1, [d2], inW);
    assert DeploymentsInWindow([d1, d2], 500, 400) == [d1, d2];
    FilterCons(d2, [], isFail);
    FilterCons(d1, [d2], isFail);
    assert FailedOf([d1, d2]) == [d2];
  }
}
