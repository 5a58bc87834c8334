/**
 * What every metric computer offers on top of its consecutive-timestamps
 * computation: the single-timestamp result (the one point of a one-day run,
 * unless the computer has a faster route to the same value), the daily graph
 * of a date range (points at the local midnights after each day, relabelled to
 * the day itself) and the single/consecutive consistency law that ties them.
 */
module ComputationBase {
  import opened Common
  import opened MetricWindow
  import opened DevopsModels
  import opened CoverageReports
  import opened DevopsSerializers
  import LeadTime
  import DeploymentFrequency
  import ChangeFailureRate
  import TimeToRestore
  import CoverageComputation

  /** The value of one point, whatever the metric. */
  datatype MetricValue = NoValue | IntValue(i: int) | RealValue(r: real)

  /** The tables the computers read. */
  datatype Database = Database(
    changeLists: seq<ChangeList>, deployments: seq<Deployment>,
    statusReports: seq<ServiceStatusReport>, coverageReports: seq<CoverageReport>)

  /** A computer with its constructor arguments; periods are in seconds. */
  datatype Computer =
    | LeadTimeComputer(environment: Environment, period: int)
    | DeploymentFrequencyComputer(environment: Environment, period: int)
    | ChangeFailureRateComputer(environment: Environment, period: int)
    | TimeToRestoreComputer(environment: Environment, period: int)
    | OverallCoverageComputer(project: nat, coveragePeriod: Option<int>)
    | IncrementalCoverageComputer(project: nat, coveragePeriod: Option<int>)

  function OfOptionalInt(v: Option<int>): MetricValue { if v.None? then NoValue else IntValue(v.value) }
  function OfOptionalReal(v: Option<real>): MetricValue { if v.None? then NoValue else RealValue(v.value) }

  function IntPoints(s: seq<(int, Option<int>)>): (r: seq<(int, MetricValue)>)
    ensures |r| == |s| && forall i :: 0 <= i < |s| ==> r[i] == (s[i].0, OfOptionalInt(s[i].1))
  {
    MapSeq(s, (p: (int, Option<int>)) => (p.0, OfOptionalInt(p.1)))
  }

  function RealPoints(s: seq<(int, Option<real>)>): (r: seq<(int, MetricValue)>)
    ensures |r| == |s| && forall i :: 0 <= i < |s| ==> r[i] == (s[i].0, OfOptionalReal(s[i].1))
  {
    MapSeq(s, (p: (int, Option<real>)) => (p.0, OfOptionalReal(p.1)))
  }

  function TtrPoints(s: seq<(int, int)>): (r: seq<(int, MetricValue)>)
    ensures |r| == |s| && forall i :: 0 <= i < |s| ==> r[i] == (s[i].0, IntValue(s[i].1))
  {
    MapSeq(s, (p: (int, int)) => (p.0, IntValue(p.1)))
  }

  /** The points of the computer's run of `n` timestamps from `first`, `step` apart. */
  function Consecutive(c: Computer, db: Database, first: int, n: nat, step: int): (r: seq<(int, MetricValue)>)
    ensures |r| == n && forall i :: 0 <= i < n ==> r[i].0 == first + i * step
  {
    match c
    case LeadTimeComputer(e, p) =>
      IntPoints(LeadTime.Series(db.changeLists, db.deployments, e, p, first, n, step))
    case DeploymentFrequencyComputer(e, p) =>
      RealPoints(DeploymentFrequency.Series(db.deployments, e, p, first, n, step))
    case ChangeFailureRateComputer(e, p) =>
      RealPoints(ChangeFailureRate.Series(db.deployments, e, p, first, n, step))
    case TimeToRestoreComputer(e, p) =>
      TtrPoints(TimeToRestore.Series(db.statusReports, e, p, first, n, step))
    case OverallCoverageComputer(project, p) =>
      RealPoints(CoverageComputation.Series(db.coverageReports, project, Overall, p, first, n, step))
    case IncrementalCoverageComputer(project, p) =>
      RealPoints(CoverageComputation.Series(db.coverageReports, project, Incremental, p, first, n, step))
  }

  /** The number of operations a run reports to the performance check: points times rows fetched. */
  function OperationsCount(c: Computer, db: Database, first: int, n: nat, step: int): int {
    match c
    case LeadTimeComputer(e, p) => LeadTime.OperationsCount(db.changeLists, db.deployments, e, p, first, n, step)
    case DeploymentFrequencyComputer(e, p) => DeploymentFrequency.OperationsCount(db.deployments, e, p, first, n, step)
    case ChangeFailureRateComputer(e, p) => ChangeFailureRate.OperationsCount(db.deployments, e, p, first, n, step)
    case TimeToRestoreComputer(e, p) => TimeToRestore.OperationsCount(db.statusReports, e, p, first, n, step)
    case OverallCoverageComputer(project, p) =>
      CoverageComputation.OperationsCount(db.coverageReports, project, Overall, p, first, n, step)
    case IncrementalCoverageComputer(project, p) =>
      CoverageComputation.OperationsCount(db.coverageReports, project, Incremental, p, first, n, step)
  }

  /**
   * A consecutive-timestamps computation: one pair per timestamp, and a
   * performance warning that is only reported beside the result.
   */
  method ComputeForConsecutiveTimestamps(c: Computer, db: Database, first: int, n: nat, step: int)
    returns (points: seq<(int, MetricValue)>, warn: bool)
    ensures points == Consecutive(c, db, first, n, step)
    ensures warn == WouldWarnAboutPerformance(OperationsCount(c, db, first, n, step), None)
  {
    match c {
      case LeadTimeComputer(e, p) =>
        var r;
        r, warn := LeadTime.ComputeForConsecutiveTimestamps(db.changeLists, db.deployments, e, p, first, n, step);
        points := IntPoints(r);
      case DeploymentFrequencyComputer(e, p) =>
        var r;
        r, warn := DeploymentFrequency.ComputeForConsecutiveTimestamps(db.deployments, e, p, first, n, step);
        points := RealPoints(r);
      case ChangeFailureRateComputer(e, p) =>
        var r;
        r, warn := ChangeFailureRate.ComputeForConsecutiveTimestamps(db.deployments, e, p, first, n, step);
        points := RealPoints(r);
      case TimeToRestoreComputer(e, p) =>
        var r;
        r, warn := TimeToRestore.ComputeForConsecutiveTimestamps(db.statusReports, e, p, first, n, step);
        points := TtrPoints(r);
      case OverallCoverageComputer(project, p) =>
        var r;
        r, warn := CoverageComputation.ComputeForConsecutiveTimestamps(db.coverageReports, project, Overall, p, first, n, step);
        points := RealPoints(r);
      case IncrementalCoverageComputer(project, p) =>
        var r;
        r, warn := CoverageComputation.ComputeForConsecutiveTimestamps(db.coverageReports, project, Incremental, p, first, n, step);
        points := RealPoints(r);
    }
  }

  /** The value at `t` computed from the data of the window ending at `t` alone. */
  function WindowValue(c: Computer, db: Database, t: int): MetricValue {
    match c
    case LeadTimeComputer(e, p) => OfOptionalInt(LeadTime.WindowValue(db.changeLists, db.deployments, e, p, t))
    case DeploymentFrequencyComputer(e, p) => OfOptionalReal(DeploymentFrequency.WindowValue(db.deployments, e, p, t))
    case ChangeFailureRateComputer(e, p) => OfOptionalReal(ChangeFailureRate.WindowValue(db.deployments, e, p, t))
    case TimeToRestoreComputer(e, p) =>
      IntValue(TimeToRestore.ReportedValue(TimeToRestore.WindowValue(db.statusReports, e, p, t)))
    case OverallCoverageComputer(project, p) =>
      OfOptionalReal(CoverageComputation.SingleTimestamp(db.coverageReports, project, Overall, p, t))
    case IncrementalCoverageComputer(project, p) =>
      OfOptionalReal(CoverageComputation.SingleTimestamp(db.coverageReports, project, Incremental, p, t))
  }

  /** What the consistency law of lead time needs: no deployment precedes its changelist. */
  ghost predicate LawHolds(c: Computer, db: Database) {
    c.LeadTimeComputer? ==> DeploymentsNotBeforeChangeLists(db.changeLists, db.deployments)
  }

  /**
   * The consistency law: for a non-negative step, point `k` of any run is the
   * value computed from that point's own window.
   */
  lemma ConsistencyLaw(c: Computer, db: Database, first: int, n: nat, step: int, k: nat)
    requires step >= 0 && k < n
    requires LawHolds(c, db)
    ensures Consecutive(c, db, first, n, step)[k] == (first + k * step, WindowValue(c, db, first + k * step))
  {
    match c {
      case LeadTimeComputer(e, p) =>
        LeadTime.SeriesPointIsWindowValue(db.changeLists, db.deployments, e, p, first, n, step, k);
      case DeploymentFrequencyComputer(e, p) =>
        DeploymentFrequency.SeriesPointIsWindowValue(db.deployments, e, p, first, n, step, k);
      case ChangeFailureRateComputer(e, p) =>
        ChangeFailureRate.SeriesPointIsWindowValue(db.deployments, e, p, first, n, step, k);
      case TimeToRestoreComputer(e, p) =>
        TimeToRestore.SeriesPointIsWindowValue(db.statusReports, e, p, first, n, step, k);
      case OverallCoverageComputer(project, p) =>
        CoverageComputation.SeriesPointIsSingleTimestamp(db.coverageReports, project, Overall, p, first, n, step, k);
      case IncrementalCoverageComputer(project, p) =>
        CoverageComputation.SeriesPointIsSingleTimestamp(db.coverageReports, project, Incremental, p, first, n, step, k);
    }
  }

  /**
   * The one point of a one-day run at `t` is the window value at `t`, for
   * every computer and without any precondition: such a run fetches exactly
   * the window.
   */
  lemma OnePointRunIsWindowValue(c: Computer, db: Database, t: int)
    ensures Consecutive(c, db, t, 1, Day) == [(t, WindowValue(c, db, t))]
  {
    if c.LeadTimeComputer? {
      var s := LeadTime.Series(db.changeLists, db.deployments, c.environment, c.period, t, 1, Day);
      assert LastTimestamp(t, 1, Day) == t;
      assert s[0] == (t, LeadTime.WindowValue(db.changeLists, db.deployments, c.environment, c.period, t));
    } else {
      ConsistencyLaw(c, db, t, 1, Day, 0);
    }
  }

  /**
   * The single-timestamp computation: the coverage computers take their fast
   * path, every other computer the one point of a one-day run at `t`.
   */
  method ComputeForSingleTimestamp(c: Computer, db: Database, t: int) returns (value: MetricValue)
    ensures value == WindowValue(c, db, t)
    ensures [(t, value)] == Consecutive(c, db, t, 1, Day)
  {
    OnePointRunIsWindowValue(c, db, t);
    if c.OverallCoverageComputer? {
      value := OfOptionalReal(CoverageComputation.SingleTimestamp(db.coverageReports, c.project, Overall, c.coveragePeriod, t));
    } else if c.IncrementalCoverageComputer? {
      value := OfOptionalReal(CoverageComputation.SingleTimestamp(db.coverageReports, c.project, Incremental, c.coveragePeriod, t));
    } else {
      var dataList, _ := ComputeForConsecutiveTimestamps(c, db, t, 1, Day);
      value := dataList[0].1;
    }
  }

  /**
   * The consistency law over sub-runs: point `m` of the run of `len`
   * timestamps that starts at point `i` of a run (at `first + i * step`) is
   * point `i + m` of that run.
   */
  lemma SubRunLaw(c: Computer, db: Database, start: int, first: int, n: nat, len: nat, step: int, i: nat, m: nat)
    requires step >= 0 && i + len <= n && m < len
    requires LawHolds(c, db)
    requires start == first + i * step
    ensures Consecutive(c, db, start, len, step)[m] == Consecutive(c, db, first, n, step)[i + m]
  {
    var a := PointAt(c, db, start, len, step, m);
    var b := PointAt(c, db, first, n, step, i + m);
    SubRunStart(first, step, i, m);
    assert a == b;
  }

  /** Point `m` of a run, with its timestamp named. */
  lemma PointAt(c: Computer, db: Database, start: int, len: nat, step: int, m: nat) returns (t: int)
    requires step >= 0 && m < len
    requires LawHolds(c, db)
    ensures t == start + m * step
    ensures Consecutive(c, db, start, len, step)[m] == (t, WindowValue(c, db, t))
  {
    t := start + m * step;
    assert Consecutive(c, db, start, len, step)[m] == (t, WindowValue(c, db, t)) by {
      ConsistencyLaw(c, db, start, len, step, m);
    }
  }

  lemma SubRunStart(first: int, step: int, i: nat, m: nat)
    ensures (first + i * step) + m * step == first + (i + m) * step
  {
    SubRunTimestamp(first, step, i, i + m);
    assert i + m - i == m;
  }

  /** The number of points of the daily graph from `startDate` to `endDate` (day numbers), both included. */
  function PeriodDays(startDate: int, endDate: int): nat {
    if endDate - startDate + 1 < 0 then 0 else endDate - startDate + 1
  }

  /**
   * The daily graph: a one-day-step run of one point per day from 00:00 local
   * time of the day after `startDate`, each point relabelled a day earlier and
   * serialized as a date/value pair.
   */
  method GetDailyGraphDataSerialized(c: Computer, db: Database, startDate: int, endDate: int, offset: int)
    returns (points: seq<MetricDataPoint<MetricValue>>, warn: bool)
    ensures |points| == PeriodDays(startDate, endDate)
    ensures forall k :: 0 <= k < |points| ==> points[k].date == LocalMidnight(startDate + k, offset)
    ensures forall k :: 0 <= k < |points| ==>
      points[k].value == Consecutive(c, db, LocalMidnight(startDate + 1, offset), |points|, Day)[k].1
    ensures LawHolds(c, db) ==> forall k :: 0 <= k < |points| ==>
      points[k].value == WindowValue(c, db, LocalMidnight(startDate + k + 1, offset))
  {
    var periodDays := PeriodDays(startDate, endDate);
    var firstNextDayAt00 := LocalMidnight(startDate + 1, offset);
    var dailyMetrics;
    dailyMetrics, warn := ComputeForConsecutiveTimestamps(c, db, firstNextDayAt00, periodDays, Day);
    var oneDayOffset := ShiftOneDayBack(dailyMetrics);
    points := SerializeDataPoints(oneDayOffset);
    DailyPoints(c, db, startDate, offset, dailyMetrics, points);
  }

  /** Each point of a run relabelled one day earlier, its value unchanged. */
  method ShiftOneDayBack(dailyMetrics: seq<(int, MetricValue)>) returns (oneDayOffset: seq<(int, MetricValue)>)
    ensures |oneDayOffset| == |dailyMetrics|
    ensures forall k :: 0 <= k < |dailyMetrics| ==> oneDayOffset[k] == (dailyMetrics[k].0 - Day, dailyMetrics[k].1)
  {
    oneDayOffset := [];
    for i := 0 to |dailyMetrics|
      invariant |oneDayOffset| == i
      invariant forall k :: 0 <= k < i ==> oneDayOffset[k] == (dailyMetrics[k].0 - Day, dailyMetrics[k].1)
    {
      var (date, value) := dailyMetrics[i];
      oneDayOffset := oneDayOffset + [(date - Day, value)];
    }
  }

  /** The points of the daily graph, from the one-day run they were shifted from. */
  lemma DailyPoints(
    c: Computer, db: Database, startDate: int, offset: int,
    daily: seq<(int, MetricValue)>, points: seq<MetricDataPoint<MetricValue>>
  )
    requires daily == Consecutive(c, db, LocalMidnight(startDate + 1, offset), |daily|, Day)
    requires |points| == |daily|
    requires forall k :: 0 <= k < |points| ==> points[k] == MetricDataPoint(daily[k].0 - Day, daily[k].1)
    ensures forall k :: 0 <= k < |points| ==> points[k].date == LocalMidnight(startDate + k, offset)
    ensures LawHolds(c, db) ==> forall k :: 0 <= k < |points| ==>
      points[k].value == WindowValue(c, db, LocalMidnight(startDate + k + 1, offset))
  {
    var first := LocalMidnight(startDate + 1, offset);
    forall k | 0 <= k < |points|
      ensures points[k].date == LocalMidnight(startDate + k, offset)
      ensures LawHolds(c, db) ==> points[k].value == WindowValue(c, db, LocalMidnight(startDate + k + 1, offset))
    {
      MidnightSteps(startDate, offset, k);
      if LawHolds(c, db) {
        var t := PointAt(c, db, first, |daily|, Day, k);
      }
    }
  }

  /** Whole days after the local midnight of the day after `startDate`. */
  lemma MidnightSteps(startDate: int, offset: int, k: int)
    ensures LocalMidnight(startDate + 1, offset) + k * Day - Day == LocalMidnight(startDate + k, offset)
    ensures LocalMidnight(startDate + 1, offset) + k * Day == LocalMidnight(startDate + k + 1, offset)
  {
  }
}
