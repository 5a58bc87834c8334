/**
 * The time-to-restore computer: at each point `t`, the mean length in seconds
 * of the outages of the window `[t - period, t)`. An outage opens at the first
 * `Down` report while the service is up and closes at the next `Up` report;
 * further `Down`s while down and `Up`s while up are ignored, and an outage
 * still open at the end of the window does not count. A run reports 0 where
 * no outage closed.
 */
module TimeToRestore {
  import opened Common
  import opened DevopsModels
  import opened MetricWindow

  /** The scan's variables: the report that opened the current outage, the total downtime, the closed outages. */
  datatype ScanState = ScanState(lastDown: Option<int>, totalDownTime: int, count: nat)

  const Initial := ScanState(None, 0, 0)

  /** How one report inside the window changes the scan. */
  function Step(s: ScanState, r: ServiceStatusReport): ScanState {
    if r.status == Down then
      (if s.lastDown.None? then s.(lastDown := Some(r.time)) else s)
    else if s.lastDown.None? then s
    else ScanState(None, s.totalDownTime + (r.time - s.lastDown.value), s.count + 1)
  }

  /** One iteration of the scan: a report outside the window is skipped. */
  function StepAt(s: ScanState, r: ServiceStatusReport, t: int, period: int): ScanState {
    if !InWindow(r.time, t, period) then s else Step(s, r)
  }

  /** The scan from state `s` over `reports`, first to last. */
  function ScanFrom(s: ScanState, reports: seq<ServiceStatusReport>, t: int, period: int): ScanState
    decreases |reports|
  {
    if reports == [] then s else ScanFrom(StepAt(s, reports[0], t, period), reports[1..], t, period)
  }

  /** The mean time to restore from the scan's totals, or nothing when no outage closed. */
  function Average(s: ScanState): Option<real> {
    if s.count > 0 then Some(s.totalDownTime as real / s.count as real) else None
  }

  /** The single-timestamp result over the reports a run fetched. */
  function AvgTtr(reports: seq<ServiceStatusReport>, t: int, period: int): Option<real> {
    Average(ScanFrom(Initial, reports, t, period))
  }

  method ComputeSingleTimestampAvgTtr(reports: seq<ServiceStatusReport>, t: int, period: int)
    returns (avg: Option<real>)
    ensures avg == AvgTtr(reports, t, period)
  {
    var checkingFirst := t - period;
    var totalDownTime := 0;
    var lastDown: Option<int> := None;
    var count: nat := 0;
    for i := 0 to |reports|
      invariant ScanFrom(ScanState(lastDown, totalDownTime, count), reports[i..], t, period)
             == ScanFrom(Initial, reports, t, period)
    {
      assert reports[i..][1..] == reports[i + 1..];
      var r := reports[i];
      if !(checkingFirst <= r.time < t) {
        continue;
      }
      if r.status == Down {
        if lastDown.None? {
          lastDown := Some(r.time);
        }
      } else {
        if lastDown.None? {
          continue;
        } else {
          totalDownTime := totalDownTime + (r.time - lastDown.value);
          count := count + 1;
          lastDown := None;
        }
      }
    }
    assert reports[|reports|..] == [];
    avg := if count > 0 then Some(totalDownTime as real / count as real) else None;
  }

  /** The value a run reports at `t`: the mean truncated to whole seconds, or 0. */
  function ReportedValue(avg: Option<real>): int {
    if avg.Some? then TruncReal(avg.value) else 0
  }

  predicate FetchedReport(r: ServiceStatusReport, environment: nat, lo: int, hi: int) {
    r.environment == environment && lo <= r.time < hi
  }

  function ReportTime(r: ServiceStatusReport): int { r.time }

  /** The run's query: the environment's reports in `[lo, hi)`, ordered by time (reports with equal times in table order). */
  function FetchReports(reports: seq<ServiceStatusReport>, environment: nat, lo: int, hi: int): seq<ServiceStatusReport> {
    OrderBy(Filter(reports, (r: ServiceStatusReport) => FetchedReport(r, environment, lo, hi)), ReportTime)
  }

  /** The query returns each of the environment's reports in the range, and nothing else, in time order. */
  lemma FetchedReports(reports: seq<ServiceStatusReport>, environment: nat, lo: int, hi: int)
    ensures var r := FetchReports(reports, environment, lo, hi);
      SortedBy(r, ReportTime) &&
      multiset(r) == multiset(Filter(reports, (x: ServiceStatusReport) => FetchedReport(x, environment, lo, hi))) &&
      forall x :: x in r <==> x in reports && FetchedReport(x, environment, lo, hi)
  {
    var q := (x: ServiceStatusReport) => FetchedReport(x, environment, lo, hi);
    OrderBySorted(Filter(reports, q), ReportTime);
    OrderByPermutes(Filter(reports, q), ReportTime);
    OrderByMembers(Filter(reports, q), ReportTime);
    FilterMembers(reports, q);
  }

  function SeriesFrom(fetched: seq<ServiceStatusReport>, period: int, first: int, n: nat, step: int): seq<(int, int)> {
    seq(n, i requires 0 <= i < n => (first + i * step, ReportedValue(AvgTtr(fetched, first + i * step, period))))
  }

  /** The points `(first + i * step, time to restore)` of a run of `n` timestamps. */
  function Series(
    reports: seq<ServiceStatusReport>, environment: Environment, period: int, first: int, n: nat, step: int
  ): seq<(int, int)> {
    SeriesFrom(FetchReports(reports, environment.id, first - period, LastTimestamp(first, n, step)), period, first, n, step)
  }

  /** The operations count of a run: the number of timestamps times the size of the status reports fetched. */
  function OperationsCount(reports: seq<ServiceStatusReport>, environment: Environment, period: int, first: int, n: nat, step: int): int {
    n * |FetchReports(reports, environment.id, first - period, LastTimestamp(first, n, step))|
  }

  method ComputeForConsecutiveTimestamps(
    reports: seq<ServiceStatusReport>, environment: Environment, period: int, first: int, n: nat, step: int
  ) returns (ttrs: seq<(int, int)>, warn: bool)
    ensures ttrs == Series(reports, environment, period, first, n, step)
    ensures |ttrs| == n
    ensures warn == WouldWarnAboutPerformance(OperationsCount(reports, environment, period, first, n, step), None)
  {
    var fetched := FetchReports(reports, environment.id, first - period, LastTimestamp(first, n, step));
    warn := WouldWarnAboutPerformance(n * |fetched|, None);
    ttrs := ComputeFromFetched(fetched, period, first, n, step);
  }

  /** The per-timestamp loop over the reports already fetched. */
  method ComputeFromFetched(fetched: seq<ServiceStatusReport>, period: int, first: int, n: nat, step: int)
    returns (ttrs: seq<(int, int)>)
    ensures ttrs == SeriesFrom(fetched, period, first, n, step)
  {
    ttrs := [];
    for i := 0 to n
      invariant |ttrs| == i
      invariant forall k :: 0 <= k < i ==>
        ttrs[k] == (first + k * step, ReportedValue(AvgTtr(fetched, first + k * step, period)))
    {
      var t := first + i * step;
      var avg := ComputeSingleTimestampAvgTtr(fetched, t, period);
      ttrs := ttrs + [(t, if avg.Some? then TruncReal(avg.value) else 0)];
    }
  }

  /** The mean at `t` computed from exactly the window's own reports. */
  function WindowValue(reports: seq<ServiceStatusReport>, environment: Environment, period: int, t: int): Option<real> {
    AvgTtr(FetchReports(reports, environment.id, t - period, t), t, period)
  }

  /** The scan over any reports equals the scan, without a window check, of the reports in the window. */
  function ScanInWindow(s: ScanState, reports: seq<ServiceStatusReport>): ScanState
    decreases |reports|
  {
    if reports == [] then s else ScanInWindow(Step(s, reports[0]), reports[1..])
  }

  lemma {:induction false} ScanSkipsOutside(s: ScanState, reports: seq<ServiceStatusReport>, t: int, period: int)
    ensures ScanFrom(s, reports, t, period)
         == ScanInWindow(s, Filter(reports, (r: ServiceStatusReport) => InWindow(r.time, t, period)))
    decreases |reports|
  {
    if reports != [] {
      var w := (r: ServiceStatusReport) => InWindow(r.time, t, period);
      ScanSkipsOutside(StepAt(s, reports[0], t, period), reports[1..], t, period);
      assert Filter(reports, w) == (if w(reports[0]) then [reports[0]] else []) + Filter(reports[1..], w);
      if w(reports[0]) {
        var f := [reports[0]] + Filter(reports[1..], w);
        assert f[0] == reports[0] && f[1..] == Filter(reports[1..], w);
        assert ScanInWindow(s, f) == ScanInWindow(Step(s, reports[0]), Filter(reports[1..], w));
      } else {
        assert StepAt(s, reports[0], t, period) == s;
        assert Filter(reports, w) == Filter(reports[1..], w);
      }
    }
  }

  /** Over any fetch range containing the window, the mean at `t` is the window's own. */
  /** The reports of a fetch that fall in the window are the environment's reports in the window, in time order. */
  lemma WindowOfFetch(reports: seq<ServiceStatusReport>, e: nat, lo: int, hi: int, t: int, period: int)
    requires lo <= t - period && t <= hi
    ensures Filter(FetchReports(reports, e, lo, hi), (r: ServiceStatusReport) => InWindow(r.time, t, period))
         == OrderBy(Filter(reports, (r: ServiceStatusReport) => r.environment == e && InWindow(r.time, t, period)), ReportTime)
  {
    var w := (r: ServiceStatusReport) => InWindow(r.time, t, period);
    var q := (r: ServiceStatusReport) => FetchedReport(r, e, lo, hi);
    var qAndWindow := (r: ServiceStatusReport) => q(r) && w(r);
    var both := (r: ServiceStatusReport) => r.environment == e && InWindow(r.time, t, period);
    FilterOrderBy(Filter(reports, q), ReportTime, w);
    FilterFilter(reports, q, w, qAndWindow);
    FilterSameOn(reports, qAndWindow, both);
  }

  /** The value at `t` is the same whichever fetch range containing the window the reports were loaded over. */
  lemma FetchRangeIrrelevant(
    reports: seq<ServiceStatusReport>, environment: Environment, period: int, lo: int, hi: int, t: int
  )
    requires lo <= t - period && t <= hi
    ensures AvgTtr(FetchReports(reports, environment.id, lo, hi), t, period)
         == WindowValue(reports, environment, period, t)
  {
    var e := environment.id;
    WindowOfFetch(reports, e, lo, hi, t, period);
    WindowOfFetch(reports, e, t - period, t, t, period);
    ScanSkipsOutside(Initial, FetchReports(reports, e, lo, hi), t, period);
    ScanSkipsOutside(Initial, FetchReports(reports, e, t - period, t), t, period);
  }

  /** Every point of a run equals the mean computed from its own window alone, truncated, or 0. */
  lemma SeriesPointIsWindowValue(
    reports: seq<ServiceStatusReport>, environment: Environment, period: int, first: int, n: nat, step: int, k: nat
  )
    requires step >= 0 && k < n
    ensures Series(reports, environment, period, first, n, step)[k]
         == (first + k * step, ReportedValue(WindowValue(reports, environment, period, first + k * step)))
  {
    var t := first + k * step;
    var fetched := FetchReports(reports, environment.id, first - period, LastTimestamp(first, n, step));
    PointWithinRun(first, n, step, k, period);
    FetchRangeIrrelevant(reports, environment, period, first - period, LastTimestamp(first, n, step), t);
    assert Series(reports, environment, period, first, n, step)[k] == (t, ReportedValue(AvgTtr(fetched, t, period)));
  }

  /** A `Down` report at the end of the window leaves the totals as they were: an open outage is not counted. */
  lemma {:induction false} TrailingDownIgnored(s: ScanState, reports: seq<ServiceStatusReport>, last: ServiceStatusReport)
    requires last.status == Down
    ensures ScanInWindow(s, reports + [last]).totalDownTime == ScanInWindow(s, reports).totalDownTime
    ensures ScanInWindow(s, reports + [last]).count == ScanInWindow(s, reports).count
    decreases |reports|
  {
    if reports == [] {
      assert [last][1..] == [];
    } else {
      assert (reports + [last])[1..] == reports[1..] + [last];
      TrailingDownIgnored(Step(s, reports[0]), reports[1..], last);
    }
  }

  /**
   * Over reports in time order, the downtime total never becomes negative,
   * so the mean time to restore is never negative.
   */
  lemma {:induction false} TotalNonNegative(s: ScanState, reports: seq<ServiceStatusReport>)
    requires SortedBy(reports, ReportTime)
    requires s.totalDownTime >= 0
    requires s.lastDown.Some? ==> forall r :: r in reports ==> s.lastDown.value <= r.time
    ensures ScanInWindow(s, reports).totalDownTime >= 0
    decreases |reports|
  {
    if reports != [] {
      var s' := Step(s, reports[0]);
      SortedByTail(reports, ReportTime);
      SortedByHeadLeast(reports, ReportTime);
      assert forall r :: r in reports[1..] ==> r in reports;
      TotalNonNegative(s', reports[1..]);
    }
  }

  /** The mean time to restore at any point is never negative: the query orders the reports by time. */
  lemma AvgNonNegative(reports: seq<ServiceStatusReport>, environment: Environment, period: int, t: int)
    ensures var v := WindowValue(reports, environment, period, t); v.Some? ==> v.value >= 0.0
  {
    var fetched := FetchReports(reports, environment.id, t - period, t);
    var w := Filter(fetched, (r: ServiceStatusReport) => InWindow(r.time, t, period));
    ScanSkipsOutside(Initial, fetched, t, period);
    FetchedReports(reports, environment.id, t - period, t);
    FilterKeepsSortedBy(fetched, ReportTime, (r: ServiceStatusReport) => InWindow(r.time, t, period));
    TotalNonNegative(Initial, w);
  }

  /** Each closed outage is closed by an `Up` report, so there are no more outages than `Up` reports. */
  lemma {:induction false} CountBoundedByUps(s: ScanState, reports: seq<ServiceStatusReport>)
    ensures ScanInWindow(s, reports).count <= s.count + Count(reports, (r: ServiceStatusReport) => r.status == Up)
    decreases |reports|
  {
    if reports != [] {
      CountBoundedByUps(Step(s, reports[0]), reports[1..]);
    }
  }

  /** Down at 100, up at 150, at `t = 200` over 200 seconds: 50. */
  lemma ExampleOneOutage()
    ensures AvgTtr([ServiceStatusReport(1, 5, Down, 100), ServiceStatusReport(2, 5, Up, 150)], 200, 200) == Some(50.0)
  {
    var r1 := ServiceStatusReport(1, 5, Down, 100);
    var r2 := ServiceStatusReport(2, 5, Up, 150);
    assert [r1, r2][1..] == [r2];
    assert ScanFrom(Initial, [r1, r2], 200, 200) == ScanFrom(ScanState(Some(100), 0, 0), [r2], 200, 200);
    assert ScanFrom(Initial, [r1, r2], 200, 200) == ScanState(None, 50, 1);
  }

  /**
   * The report table need not be in time order: an `Up` at 60 stored before a
   * `Down` at 10 is one outage of 50 seconds, since the query sorts them.
   */
  lemma ExampleUnsortedTable()
    ensures WindowValue([ServiceStatusReport(1, 5, Up, 60), ServiceStatusReport(2, 5, Down, 10)], Environment(5, 9), 100, 100)
         == Some(50.0)
  {
    var up := ServiceStatusReport(1, 5, Up, 60);
    var down := ServiceStatusReport(2, 5, Down, 10);
    var q := (r: ServiceStatusReport) => FetchedReport(r, 5, 0, 100);
    assert [up, down] == [up] + ([down] + []);
    FilterCons(down, [], q);
    FilterCons(up, [down], q);
    assert Filter([up, down], q) == [up, down];
    assert [up, down][1..] == [down] && [down][1..] == [];
    assert OrderBy([down], ReportTime) == [down];
    assert InsertBy(up, [down], ReportTime) == [down] + InsertBy(up, [], ReportTime);
    var fetched := FetchReports([up, down], 5, 0, 100);
    assert fetched == [down, up];
    assert fetched[1..] == [up];
    assert ScanFrom(Initial, fetched, 100, 100) == ScanFrom(ScanState(Some(10), 0, 0), [up], 100, 100);
    assert ScanFrom(Initial, fetched, 100, 100) == ScanState(None, 50, 1);
  }

  /** Downs at 230, 250 and 270 then up at 360: one outage of 130 seconds. */
  lemma ExampleRepeatedDowns()
    ensures AvgTtr([ServiceStatusReport(1, 5, Down, 230), ServiceStatusReport(2, 5, Down, 250),
                    ServiceStatusReport(3, 5, Down, 270), ServiceStatusReport(4, 5, Up, 360)], 500, 400) == Some(130.0)
  {
    var r1 := ServiceStatusReport(1, 5, Down, 230);
    var r2 := ServiceStatusReport(2, 5, Down, 250);
    var r3 := ServiceStatusReport(3, 5, Down, 270);
    var r4 := ServiceStatusReport(4, 5, Up, 360);
    var open := ScanState(Some(230), 0, 0);
    assert [r1, r2, r3, r4][1..] == [r2, r3, r4];
    assert [r2, r3, r4][1..] == [r3, r4];
    assert [r3, r4][1..] == [r4];
    assert ScanFrom(open, [r4], 500, 400) == ScanState(None, 130, 1);
    assert ScanFrom(open, [r3, r4], 500, 400) == ScanState(None, 130, 1);
    assert ScanFrom(open, [r2, r3, r4], 500, 400) == ScanState(None, 130, 1);
  }

  /** With no report at all the single result is absent and the run reports 0. */
  lemma ExampleNoReports(environment: Environment)
    ensures Series([], environment, 10, 10, 1, Day) == [(10, 0)]
  {
    var fetched := FetchReports([], environment.id, 0, 10);
    assert fetched == [];
    assert AvgTtr([], 10, 10) == None;
  }
}
