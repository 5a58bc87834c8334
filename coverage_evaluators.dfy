/**
 * The coverage evaluators. Overall and incremental coverage pass when the
 * project's coverage over the checking period reaches the item's acceptable
 * value. The "is test coverage calculated" evaluator passes when a coverage
 * report was updated within the checking period, keeps a still-valid passing
 * report when none was, and otherwise fails with the reason as description.
 */
module CoverageEvaluators {
  import opened Common
  import opened Numbers
  import opened MaturityModels
  import opened Evaluations
  import CoverageReports
  import CoverageComputation

  const NotANumber: string := "could not convert string to float"

  /**
   * The common rule: no coverage value gives no report; otherwise the report
   * passes exactly when the value reaches the acceptable value, and records
   * the value's text. An acceptable value that is missing or not a number raises.
   */
  function ReportFromCoverage(
    coverage: Option<real>, project: nat, item: MaturityModelItem, floatText: real -> string
  ): (r: Result<Option<EvaluationReport>>)
    ensures coverage.None? ==> r == Ok(None)
    ensures r.Err? <==> coverage.Some? && (item.acceptableValue.None? || ParseFloat(item.acceptableValue.value).None?)
    ensures r.Ok? && r.value.Some? ==>
      && coverage.Some?
      && r.value.value.id == 0 && r.value.value.item == item.id && r.value.value.project == project
      && r.value.value.currentValue == PyStr(floatText(coverage.value))
      && (r.value.value.status == Pass <==> coverage.value >= ParseFloat(item.acceptableValue.value).value)
  {
    if coverage.None? then Ok(None)
    else if item.acceptableValue.None? then Err(NotANumber)
    else
      var acceptable := ParseFloat(item.acceptableValue.value);
      if acceptable.None? then Err(NotANumber)
      else
        var status := if coverage.value >= acceptable.value then Pass else Fail;
        Ok(Some(CreateNew(item, project, status, "", PyStr(floatText(coverage.value)), None, None)))
  }

  /** The first day of the checking period: the UTC date of `now` minus the checking days. */
  function EarliestValidDate(now: int, item: MaturityModelItem): int {
    LocalDate(now - item.evaluationType.checkingPeriodDays * Day, 0)
  }

  /** The overall coverage evaluator. */
  function EvaluateOverall(
    coverageReports: seq<CoverageReports.CoverageReport>, project: nat, item: MaturityModelItem, now: int,
    floatText: real -> string
  ): (r: Result<Option<EvaluationReport>>)
    ensures r == ReportFromCoverage(
      CoverageComputation.CurrentOverallCoverage(coverageReports, project, now, Some(EarliestValidDate(now, item))),
      project, item, floatText)
  {
    var coverage := CoverageComputation.CurrentOverallCoverage(coverageReports, project, now, Some(EarliestValidDate(now, item)));
    ReportFromCoverage(coverage, project, item, floatText)
  }

  /** The incremental coverage evaluator. */
  function EvaluateIncremental(
    coverageReports: seq<CoverageReports.CoverageReport>, project: nat, item: MaturityModelItem, now: int,
    floatText: real -> string
  ): (r: Result<Option<EvaluationReport>>)
    ensures r == ReportFromCoverage(
      CoverageComputation.CurrentIncrementalCoverage(coverageReports, project, now, Some(EarliestValidDate(now, item))),
      project, item, floatText)
  {
    var coverage := CoverageComputation.CurrentIncrementalCoverage(coverageReports, project, now, Some(EarliestValidDate(now, item)));
    ReportFromCoverage(coverage, project, item, floatText)
  }

  /** The window of both coverage evaluators starts at 00:00 UTC of the first day of the checking period. */
  lemma CoverageWindowStartsAtEarliestDate(
    coverageReports: seq<CoverageReports.CoverageReport>, project: nat, coverageType: CoverageReports.CoverageType,
    item: MaturityModelItem, now: int
  )
    ensures var d := EarliestValidDate(now, item);
      && d * Day <= now - item.evaluationType.checkingPeriodDays * Day < (d + 1) * Day
      && forall c :: c in CoverageComputation.QueryForInterval(coverageReports, project, coverageType,
          CoverageReports.CheckingPeriodSince(now, Some(d)), now, now) <==>
        c in coverageReports && c.project == project && c.coverageType == coverageType &&
        d * Day <= c.lastUpdateTime < now
  {
    CoverageComputation.CurrentCoverageWindow(coverageReports, project, coverageType, now, Some(EarliestValidDate(now, item)));
  }

  const NoCoverageAtAll: string := "No coverage report found at all."
  const NoPreviousReport: string := "Neither recent coverage report, nor previous evaluation report found."
  const PreviousFailed: string := "No recent coverage reports found and the previous evaluation status is Failed."
  const NothingRecent: string := "No recent coverage reports or evaluation reports found."

  function RecentCoverageDescription(item: MaturityModelItem): string {
    "A recently reported coverage found within last " + IntToString(item.evaluationType.checkingPeriodDays) + " days."
  }

  function ExceptionDescription(reason: string): string {
    "Exception: " + reason
  }

  /** The project's latest overall coverage report, or its latest incremental one when it has no overall one. */
  function LatestCoverage(coverageReports: seq<CoverageReports.CoverageReport>, project: nat): Option<CoverageReports.CoverageReport> {
    var overall := CoverageReports.GetLatest(coverageReports, project, CoverageReports.Overall, None, 0);
    if overall.Some? then overall else CoverageReports.GetLatest(coverageReports, project, CoverageReports.Incremental, None, 0)
  }

  /** A coverage report was updated within the checking period. */
  predicate CoverageIsRecent(c: CoverageReports.CoverageReport, item: MaturityModelItem, now: int) {
    c.lastUpdateTime >= now - item.evaluationType.checkingPeriodDays * Day
  }

  /** A previous report was updated within the validity period. */
  predicate PreviousStillValid(previous: EvaluationReport, item: MaturityModelItem, now: int) {
    previous.lastUpdateTime >= now - item.evaluationType.validityPeriodDays * Day
  }

  /**
   * The "is test coverage calculated" evaluator: a passing report exactly when
   * the latest coverage report is recent; no report (so the previous one
   * stays) exactly when it is not but the item's previous report passed and
   * is still valid; a failing report, whose description gives the reason, in
   * every other case.
   */
  function EvaluateIsCoverageCalculated(
    coverageReports: seq<CoverageReports.CoverageReport>, reports: seq<EvaluationReport>,
    project: nat, item: MaturityModelItem, now: int
  ): (r: Option<EvaluationReport>)
    ensures r.Some? ==> r.value.id == 0 && r.value.item == item.id && r.value.project == project
    ensures LatestCoverage(coverageReports, project).None? ==>
      r == Some(CreateNew(item, project, Fail, ExceptionDescription(NoCoverageAtAll), PyNone, None, None))
    ensures var latest := LatestCoverage(coverageReports, project);
      r.Some? && r.value.status == Pass <==> latest.Some? && CoverageIsRecent(latest.value, item, now)
    ensures var latest := LatestCoverage(coverageReports, project);
      var previous := GetLatest(reports, project, item.id, None, 0);
      r.None? <==>
        latest.Some? && !CoverageIsRecent(latest.value, item, now) &&
        previous.Some? && previous.value.status == Pass && PreviousStillValid(previous.value, item, now)
  {
    var failWith := (reason: string) => Some(CreateNew(item, project, Fail, ExceptionDescription(reason), PyNone, None, None));
    var latestCoverage := LatestCoverage(coverageReports, project);
    if latestCoverage.None? then failWith(NoCoverageAtAll)
    else if CoverageIsRecent(latestCoverage.value, item, now) then
      Some(CreateNew(item, project, Pass, RecentCoverageDescription(item), PyNone, None, None))
    else
      var previous := GetLatest(reports, project, item.id, None, 0);
      if previous.None? then failWith(NoPreviousReport)
      else if previous.value.status == Fail then failWith(PreviousFailed)
      else if PreviousStillValid(previous.value, item, now) then None
      else failWith(NothingRecent)
  }

  /**
   * The description of each verdict: the pass names the checking period; a
   * failure with stale coverage says whether there was no previous report,
   * whether the previous one failed, or whether it is no longer valid.
   */
  lemma IsCoverageCalculatedReasons(
    coverageReports: seq<CoverageReports.CoverageReport>, reports: seq<EvaluationReport>,
    project: nat, item: MaturityModelItem, now: int
  )
    ensures var latest := LatestCoverage(coverageReports, project);
      latest.Some? && CoverageIsRecent(latest.value, item, now) ==>
        EvaluateIsCoverageCalculated(coverageReports, reports, project, item, now) ==
          Some(CreateNew(item, project, Pass, RecentCoverageDescription(item), PyNone, None, None))
    ensures var latest := LatestCoverage(coverageReports, project);
      var previous := GetLatest(reports, project, item.id, None, 0);
      var reason := if previous.None? then NoPreviousReport
                    else if previous.value.status == Fail then PreviousFailed
                    else NothingRecent;
      latest.Some? && !CoverageIsRecent(latest.value, item, now) &&
      !(previous.Some? && previous.value.status == Pass && PreviousStillValid(previous.value, item, now)) ==>
        EvaluateIsCoverageCalculated(coverageReports, reports, project, item, now) ==
          Some(CreateNew(item, project, Fail, ExceptionDescription(reason), PyNone, None, None))
  {
    var latest := LatestCoverage(coverageReports, project);
    var previous := GetLatest(reports, project, item.id, None, 0);
    if latest.Some? && !CoverageIsRecent(latest.value, item, now) && previous.Some? && previous.value.status == Pass {
      assert previous.value.status != Fail;
    }
  }

  /** Overall coverage reports take precedence: the incremental ones are consulted only when there is no overall one. */
  lemma LatestCoveragePrefersOverall(coverageReports: seq<CoverageReports.CoverageReport>, project: nat)
    ensures var overall := CoverageReports.GetLatest(coverageReports, project, CoverageReports.Overall, None, 0);
      overall.Some? ==> LatestCoverage(coverageReports, project) == overall
    ensures LatestCoverage(coverageReports, project).None? <==>
      forall c :: c in coverageReports ==> c.project != project
  {
    forall c | c in coverageReports && c.project == project
      ensures LatestCoverage(coverageReports, project).Some?
    {
      assert CoverageReports.LatestCandidate(c, project, c.coverageType, None, 0);
    }
  }
}
