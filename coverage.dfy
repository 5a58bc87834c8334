/**
 * The coverage computers. At a point `t` they look at the project's reports of
 * one coverage type updated in `[t - period, t)`, or before `t` when there is
 * no period. The overall computer reports the value of the report updated
 * last, the incremental computer the mean of the values; both report nothing
 * for an empty window. The single-timestamp computations take a faster route
 * (the last row of the query, a database average) to the same result.
 */
module CoverageComputation {
  import opened Common
  import opened MetricWindow
  import opened CoverageReports

  /** A report updated at `time` counts at `t`; with no period every earlier report counts. */
  predicate InCoverageWindow(time: int, t: int, period: Option<int>) {
    time < t && (period.None? || t - period.value <= time)
  }

  predicate Queried(r: CoverageReport, project: nat, coverageType: CoverageType, period: Option<int>, first: int, last: int) {
    r.project == project && r.coverageType == coverageType && r.lastUpdateTime < last &&
    (period.None? || first - period.value <= r.lastUpdateTime)
  }

  /** The query of a computation over the points `first .. last`. */
  function QueryForInterval(
    reports: seq<CoverageReport>, project: nat, coverageType: CoverageType, period: Option<int>, first: int, last: int
  ): seq<CoverageReport> {
    Filter(reports, (r: CoverageReport) => Queried(r, project, coverageType, period, first, last))
  }

  /** The overall coverage of a window: the value of its report updated last. */
  function OverallOf(w: seq<CoverageReport>): (r: Option<real>)
    ensures r.None? <==> w == []
    ensures r.Some? ==> exists c :: (c in w && c.value == r.value &&
      forall c' :: c' in w ==> c'.lastUpdateTime <= c.lastUpdateTime)
  {
    var latest := LatestBy(w, (c: CoverageReport) => c.lastUpdateTime);
    if latest.None? then None else Some(latest.value.value)
  }

  function SumOfValues(w: seq<CoverageReport>): real {
    if w == [] then 0.0 else w[0].value + SumOfValues(w[1..])
  }

  /** The incremental coverage of a window: the mean of its values. */
  function IncrementalOf(w: seq<CoverageReport>): (r: Option<real>)
    ensures r.None? <==> w == []
  {
    if w == [] then None else Some(SumOfValues(w) / |w| as real)
  }

  function ComputeForReports(coverageType: CoverageType, w: seq<CoverageReport>): Option<real> {
    if coverageType.Overall? then OverallOf(w) else IncrementalOf(w)
  }

  function ReportsAt(fetched: seq<CoverageReport>, t: int, period: Option<int>): seq<CoverageReport> {
    Filter(fetched, (r: CoverageReport) => InCoverageWindow(r.lastUpdateTime, t, period))
  }

  function SeriesFrom(
    fetched: seq<CoverageReport>, coverageType: CoverageType, period: Option<int>, first: int, n: nat, step: int
  ): seq<(int, Option<real>)> {
    seq(n, i requires 0 <= i < n =>
      (first + i * step, ComputeForReports(coverageType, ReportsAt(fetched, first + i * step, period))))
  }

  /** The points `(first + i * step, coverage)` of a run of `n` timestamps. */
  function Series(
    reports: seq<CoverageReport>, project: nat, coverageType: CoverageType, period: Option<int>,
    first: int, n: nat, step: int
  ): seq<(int, Option<real>)> {
    SeriesFrom(QueryForInterval(reports, project, coverageType, period, first, LastTimestamp(first, n, step)),
               coverageType, period, first, n, step)
  }

  /**
   * The run as the source writes it: the fetch stops at `first + (n - 1) * step`
   * but point `i` sits at `first + i` days whatever the step.
   */
  function SeriesAsWritten(
    reports: seq<CoverageReport>, project: nat, coverageType: CoverageType, period: Option<int>,
    first: int, n: nat, step: int
  ): seq<(int, Option<real>)> {
    var fetched := QueryForInterval(reports, project, coverageType, period, first, LastTimestamp(first, n, step));
    seq(n, i requires 0 <= i < n =>
      (first + i * Day, ComputeForReports(coverageType, ReportsAt(fetched, first + i * Day, period))))
  }

  /** The operations count of a run: the number of timestamps times the size of the reports fetched. */
  function OperationsCount(reports: seq<CoverageReport>, project: nat, coverageType: CoverageType, period: Option<int>, first: int, n: nat, step: int): int {
    n * |QueryForInterval(reports, project, coverageType, period, first, LastTimestamp(first, n, step))|
  }

  method ComputeForConsecutiveTimestamps(
    reports: seq<CoverageReport>, project: nat, coverageType: CoverageType, period: Option<int>,
    first: int, n: nat, step: int
  ) returns (dataPoints: seq<(int, Option<real>)>, warn: bool)
    ensures dataPoints == Series(reports, project, coverageType, period, first, n, step)
    ensures |dataPoints| == n
    ensures warn == WouldWarnAboutPerformance(OperationsCount(reports, project, coverageType, period, first, n, step), None)
  {
    var fetched := QueryForInterval(reports, project, coverageType, period, first, LastTimestamp(first, n, step));
    warn := WouldWarnAboutPerformance(n * |fetched|, None);
    dataPoints := ComputeFromFetched(fetched, coverageType, period, first, n, step);
  }

  /** The per-timestamp loop over the reports already fetched. */
  method ComputeFromFetched(
    fetched: seq<CoverageReport>, coverageType: CoverageType, period: Option<int>, first: int, n: nat, step: int
  ) returns (dataPoints: seq<(int, Option<real>)>)
    ensures dataPoints == SeriesFrom(fetched, coverageType, period, first, n, step)
  {
    dataPoints := [];
    for i := 0 to n
      invariant dataPoints == SeriesFrom(fetched, coverageType, period, first, i, step)
    {
      var t := first + i * step;
      var current := ReportsAt(fetched, t, period);
      SeriesFromSnoc(fetched, coverageType, period, first, i, step);
      dataPoints := dataPoints + [(t, ComputeForReports(coverageType, current))];
    }
  }

  lemma SeriesFromSnoc(fetched: seq<CoverageReport>, coverageType: CoverageType, period: Option<int>, first: int, i: nat, step: int)
    ensures SeriesFrom(fetched, coverageType, period, first, i + 1, step)
         == SeriesFrom(fetched, coverageType, period, first, i, step)
            + [(first + i * step, ComputeForReports(coverageType, ReportsAt(fetched, first + i * step, period)))]
  {
  }

  /**
   * The single-timestamp fast path: the query over `[t, t]` already is the
   * window, so the overall computer takes its last row and the incremental one
   * lets the database average it.
   */
  function SingleTimestamp(
    reports: seq<CoverageReport>, project: nat, coverageType: CoverageType, period: Option<int>, t: int
  ): Option<real> {
    var qs := QueryForInterval(reports, project, coverageType, period, t, t);
    if coverageType.Overall? then OverallOf(qs) else IncrementalOf(qs)
  }

  /** The reports a fetch over `[first, last]` keeps at a point `t` in that range are those of the query over `[t, t]`. */
  lemma WindowReportsOfFetch(
    reports: seq<CoverageReport>, project: nat, coverageType: CoverageType, period: Option<int>,
    first: int, last: int, t: int
  )
    requires first <= t <= last
    ensures ReportsAt(QueryForInterval(reports, project, coverageType, period, first, last), t, period)
         == QueryForInterval(reports, project, coverageType, period, t, t)
  {
    var q := (r: CoverageReport) => Queried(r, project, coverageType, period, first, last);
    var w := (r: CoverageReport) => InCoverageWindow(r.lastUpdateTime, t, period);
    var qw := (r: CoverageReport) => q(r) && w(r);
    FilterFilter(reports, q, w, qw);
    FilterSameOn(reports, qw, (r: CoverageReport) => Queried(r, project, coverageType, period, t, t));
  }

  /** Every point of a (corrected) run equals the single-timestamp result at that point. */
  lemma SeriesPointIsSingleTimestamp(
    reports: seq<CoverageReport>, project: nat, coverageType: CoverageType, period: Option<int>,
    first: int, n: nat, step: int, k: nat
  )
    requires step >= 0 && k < n
    ensures Series(reports, project, coverageType, period, first, n, step)[k]
         == (first + k * step, SingleTimestamp(reports, project, coverageType, period, first + k * step))
  {
    var t := first + k * step;
    var fetched := QueryForInterval(reports, project, coverageType, period, first, LastTimestamp(first, n, step));
    PointWithinRun(first, n, step, k, 0);
    WindowReportsOfFetch(reports, project, coverageType, period, first, LastTimestamp(first, n, step), t);
    assert Series(reports, project, coverageType, period, first, n, step)[k]
        == (t, ComputeForReports(coverageType, ReportsAt(fetched, t, period)));
  }

  /** The fast path equals the general fold: the one point of a one-day run at `t`. */
  lemma FastPathIsFold(
    reports: seq<CoverageReport>, project: nat, coverageType: CoverageType, period: Option<int>, t: int
  )
    ensures Series(reports, project, coverageType, period, t, 1, Day) == [(t, SingleTimestamp(reports, project, coverageType, period, t))]
  {
    SeriesPointIsSingleTimestamp(reports, project, coverageType, period, t, 1, Day, 0);
  }

  /** With a one-day step the run as written and the corrected run coincide. */
  lemma AsWrittenAgreesForDailyStep(
    reports: seq<CoverageReport>, project: nat, coverageType: CoverageType, period: Option<int>, first: int, n: nat
  )
    ensures SeriesAsWritten(reports, project, coverageType, period, first, n, Day)
         == Series(reports, project, coverageType, period, first, n, Day)
  {
  }

  /**
   * With a 100-second step, the run as written labels its second point a day
   * after the first and, having fetched only up to `first + 100`, misses a
   * report that the single-timestamp computation at that label sees.
   */
  lemma AsWrittenBreaksConsistency()
    ensures
      var reports := [CoverageReport(1, 7, 50.0, Overall, 1200, 1200, "")];
      SeriesAsWritten(reports, 7, Overall, None, 1000, 2, 100)[1] == (1000 + Day, None) &&
      SingleTimestamp(reports, 7, Overall, None, 1000 + Day) == Some(50.0)
  {
    var r := CoverageReport(1, 7, 50.0, Overall, 1200, 1200, "");
    var q := (c: CoverageReport) => Queried(c, 7, Overall, None, 1000, 1100);
    FilterCons(r, [], q);
    assert [r] == [r] + [];
    assert QueryForInterval([r], 7, Overall, None, 1000, 1100) == [];
    var q2 := (c: CoverageReport) => Queried(c, 7, Overall, None, 1000 + Day, 1000 + Day);
    FilterCons(r, [], q2);
    assert QueryForInterval([r], 7, Overall, None, 1000 + Day, 1000 + Day) == [r];
  }

  lemma {:induction false} SumAtLeast(w: seq<CoverageReport>, lo: real)
    requires forall i :: 0 <= i < |w| ==> lo <= w[i].value
    ensures |w| as real * lo <= SumOfValues(w)
  {
    if w != [] {
      var rest := w[1..];
      assert forall i :: 0 <= i < |rest| ==> rest[i] == w[i + 1];
      SumAtLeast(rest, lo);
      var m := |rest| as real;
      assert |w| as real * lo == m * lo + lo;
    }
  }

  lemma {:induction false} SumAtMost(w: seq<CoverageReport>, hi: real)
    requires forall i :: 0 <= i < |w| ==> w[i].value <= hi
    ensures SumOfValues(w) <= |w| as real * hi
  {
    if w != [] {
      var rest := w[1..];
      assert forall i :: 0 <= i < |rest| ==> rest[i] == w[i + 1];
      SumAtMost(rest, hi);
      var m := |rest| as real;
      assert |w| as real * hi == m * hi + hi;
    }
  }

  /** The mean of values that all lie in `[lo, hi]` lies in `[lo, hi]` too. */
  lemma IncrementalWithinBounds(w: seq<CoverageReport>, lo: real, hi: real)
    requires forall i :: 0 <= i < |w| ==> lo <= w[i].value <= hi
    ensures IncrementalOf(w).Some? ==> lo <= IncrementalOf(w).value <= hi
  {
    if w != [] {
      SumAtLeast(w, lo);
      SumAtMost(w, hi);
      MeanBounds(SumOfValues(w), |w| as real, lo, hi);
    }
  }

  lemma MeanBounds(sum: real, n: real, lo: real, hi: real)
    requires n > 0.0 && n * lo <= sum <= n * hi
    ensures lo <= sum / n <= hi
  {
    var q := sum / n;
    assert q * n == sum;
    assert (q - lo) * n >= 0.0;
    assert (hi - q) * n >= 0.0;
  }

  /** Reports of 10, 30 and 80 per cent, no period: overall 80 and incremental 40 at any later point. */
  lemma ExampleThreeReports()
    ensures
      var w := [CoverageReport(1, 7, 10.0, Overall, 100, 100, ""), CoverageReport(2, 7, 30.0, Overall, 200, 200, ""),
                CoverageReport(3, 7, 80.0, Overall, 300, 300, "")];
      OverallOf(w) == Some(80.0) && IncrementalOf(w) == Some(40.0)
  {
    var c1 := CoverageReport(1, 7, 10.0, Overall, 100, 100, "");
    var c2 := CoverageReport(2, 7, 30.0, Overall, 200, 200, "");
    var c3 := CoverageReport(3, 7, 80.0, Overall, 300, 300, "");
    var w := [c1, c2, c3];
    assert w[1..] == [c2, c3] && w[1..][1..] == [c3] && w[1..][1..][1..] == [];
    assert SumOfValues([c3]) == 80.0;
    assert SumOfValues([c2, c3]) == 110.0;
    assert SumOfValues(w) == 120.0;
    var latest := LatestBy(w, (c: CoverageReport) => c.lastUpdateTime);
    assert latest.value in w;
    assert latest.value.lastUpdateTime >= c3.lastUpdateTime;
  }

  /** The project's overall coverage now, over reports updated since 00:00 UTC of a date, if one is given. */
  function CurrentOverallCoverage(reports: seq<CoverageReport>, project: nat, now: int, gteDate: Option<int>): Option<real> {
    SingleTimestamp(reports, project, Overall, CheckingPeriodSince(now, gteDate), now)
  }

  /** The project's incremental coverage now, over reports updated since 00:00 UTC of a date, if one is given. */
  function CurrentIncrementalCoverage(reports: seq<CoverageReport>, project: nat, now: int, gteDate: Option<int>): Option<real> {
    SingleTimestamp(reports, project, Incremental, CheckingPeriodSince(now, gteDate), now)
  }

  /** The coverage helpers look exactly at the reports updated from 00:00 UTC of the date up to `now`. */
  lemma CurrentCoverageWindow(reports: seq<CoverageReport>, project: nat, coverageType: CoverageType, now: int, gteDate: Option<int>)
    ensures forall c :: c in QueryForInterval(reports, project, coverageType, CheckingPeriodSince(now, gteDate), now, now) <==>
      c in reports && c.project == project && c.coverageType == coverageType && c.lastUpdateTime < now &&
      (gteDate.Some? ==> gteDate.value * Day <= c.lastUpdateTime)
  {
    var period := CheckingPeriodSince(now, gteDate);
    FilterMembers(reports, (r: CoverageReport) => Queried(r, project, coverageType, period, now, now));
  }
}
