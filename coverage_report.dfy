/**
 * Coverage reports: one measured coverage value (a percentage) of a project,
 * either over the whole code or over the new code only, optionally tagged
 * with a version. Within a project and coverage type a non-empty version is
 * reported at most once.
 */
module CoverageReports {
  import opened Common

  datatype CoverageType = Overall | Incremental

  /** The three-letter code stored in the coverage-type column. */
  function CoverageTypeCode(t: CoverageType): (code: string)
    ensures |code| == 3
  {
    if t.Overall? then "OVR" else "INC"
  }

  const DuplicateCoverageReportErrorCode: string := "duplicate-coverage-report"

  datatype CoverageReport = CoverageReport(
    id: nat, project: nat, value: real, coverageType: CoverageType,
    creationTime: int, lastUpdateTime: int, version: string)

  function DuplicateVersionMessage(coverageType: CoverageType, version: string): string {
    "CoverageReport with type " + CoverageTypeCode(coverageType) + " and version " + version + " already reported."
  }

  predicate SameKey(c: CoverageReport, project: nat, coverageType: CoverageType, version: string) {
    c.project == project && c.coverageType == coverageType && c.version == version
  }

  /**
   * The check run before a report is saved: `prior` is the stored row being
   * updated, if any. An empty version is never checked; otherwise a stored
   * report with the same key is tolerated only when it is the one being updated
   * and the update keeps the key.
   */
  function ValidateVersionUniqueness(
    table: seq<CoverageReport>, prior: Option<CoverageReport>,
    newProject: nat, newType: CoverageType, newVersion: string
  ): (r: Result<()>)
    ensures newVersion == "" ==> r.Ok?
    ensures r.Ok? <==>
      newVersion == "" ||
      (forall c :: c in table ==> !SameKey(c, newProject, newType, newVersion)) ||
      (prior.Some? && SameKey(prior.value, newProject, newType, newVersion))
    ensures r.Err? ==> r.error == DuplicateVersionMessage(newType, newVersion)
  {
    if newVersion == "" then Ok(())
    else
      var savedAlready := exists c :: c in table && SameKey(c, newProject, newType, newVersion);
      if savedAlready && prior.None? then Err(DuplicateVersionMessage(newType, newVersion))
      else if savedAlready && !SameKey(prior.value, newProject, newType, newVersion) then
        Err(DuplicateVersionMessage(newType, newVersion))
      else Ok(())
  }

  /** No two reports of one project and coverage type share a non-empty version. */
  ghost predicate UniqueVersions(table: seq<CoverageReport>) {
    forall i, j :: 0 <= i < j < |table| && table[i].version != "" ==>
      !SameKey(table[j], table[i].project, table[i].coverageType, table[i].version)
  }

  /**
   * Creating a report: the uniqueness check runs first, then the row is
   * appended with `now` as its last-update time (the column is stamped on
   * every save); the creation time is the one given, which defaults to now.
   */
  function Create(table: seq<CoverageReport>, report: CoverageReport, now: int): (r: Result<seq<CoverageReport>>)
    ensures r.Ok? ==> r.value == table + [report.(lastUpdateTime := now)]
    ensures r.Ok? <==> ValidateVersionUniqueness(table, None, report.project, report.coverageType, report.version).Ok?
  {
    var check := ValidateVersionUniqueness(table, None, report.project, report.coverageType, report.version);
    if check.Err? then Err(check.error) else Ok(table + [report.(lastUpdateTime := now)])
  }

  /**
   * Updating the stored row `prior` (between `before` and `after`) with the
   * report of the same id: check, then replace, stamping `now` as the
   * last-update time.
   */
  function Update(
    before: seq<CoverageReport>, prior: CoverageReport, after: seq<CoverageReport>, report: CoverageReport, now: int
  ): (r: Result<seq<CoverageReport>>)
    requires report.id == prior.id
    ensures r.Ok? ==> r.value == before + [report.(lastUpdateTime := now)] + after
    ensures r.Ok? <==> ValidateVersionUniqueness(
      before + [prior] + after, Some(prior), report.project, report.coverageType, report.version).Ok?
  {
    var check := ValidateVersionUniqueness(
      before + [prior] + after, Some(prior), report.project, report.coverageType, report.version);
    if check.Err? then Err(check.error) else Ok(before + [report.(lastUpdateTime := now)] + after)
  }

  lemma CreateKeepsVersionsUnique(table: seq<CoverageReport>, report: CoverageReport, now: int)
    requires UniqueVersions(table)
    requires Create(table, report, now).Ok?
    ensures UniqueVersions(Create(table, report, now).value)
  {
    var t := table + [report.(lastUpdateTime := now)];
    forall i, j | 0 <= i < j < |t| && t[i].version != ""
      ensures !SameKey(t[j], t[i].project, t[i].coverageType, t[i].version)
    {
      if j == |table| {
        assert t[i] in table;
      }
    }
  }

  lemma UpdateKeepsVersionsUnique(
    before: seq<CoverageReport>, prior: CoverageReport, after: seq<CoverageReport>, report: CoverageReport, now: int
  )
    requires report.id == prior.id
    requires UniqueVersions(before + [prior] + after)
    requires Update(before, prior, after, report, now).Ok?
    ensures UniqueVersions(Update(before, prior, after, report, now).value)
  {
    var t0 := before + [prior] + after;
    var t := before + [report.(lastUpdateTime := now)] + after;
    var k := |before|;
    forall i, j | 0 <= i < j < |t| && t[i].version != ""
      ensures !SameKey(t[j], t[i].project, t[i].coverageType, t[i].version)
    {
      assert t[i] == t0[i] || i == k;
      assert t[j] == t0[j] || j == k;
      if i == k {
        assert t[j] == t0[j] && t0[j] in t0;
        assert t0[k] == prior;
      } else if j == k {
        assert t[i] == t0[i] && t0[i] in t0;
        assert t0[k] == prior;
      }
    }
  }

  predicate LatestCandidate(c: CoverageReport, project: nat, coverageType: CoverageType, beforeDate: Option<int>, offset: int) {
    c.project == project && c.coverageType == coverageType &&
    (beforeDate.None? || LocalDate(c.creationTime, offset) <= beforeDate.value)
  }

  /**
   * The project's report of the type created last, optionally among those
   * created on or before a (local) date.
   */
  function GetLatest(
    table: seq<CoverageReport>, project: nat, coverageType: CoverageType, beforeDate: Option<int>, offset: int
  ): (r: Option<CoverageReport>)
    ensures r.None? <==> forall c :: c in table ==> !LatestCandidate(c, project, coverageType, beforeDate, offset)
    ensures r.Some? ==> r.value in table && LatestCandidate(r.value, project, coverageType, beforeDate, offset)
    ensures r.Some? ==> forall c :: c in table && LatestCandidate(c, project, coverageType, beforeDate, offset) ==>
      c.creationTime <= r.value.creationTime
  {
    var p := (c: CoverageReport) => LatestCandidate(c, project, coverageType, beforeDate, offset);
    FilterMembers(table, p);
    var candidates := Filter(table, p);
    assert forall c :: c in table && LatestCandidate(c, project, coverageType, beforeDate, offset) ==> c in candidates;
    LatestBy(candidates, (c: CoverageReport) => c.creationTime)
  }

  /**
   * The checking period of the coverage helpers: from 00:00 UTC of the given
   * date up to `now`, or unbounded when no date is given.
   */
  function CheckingPeriodSince(now: int, gteDate: Option<int>): (period: Option<int>)
    ensures gteDate.None? <==> period.None?
    ensures gteDate.Some? ==> now - period.value == gteDate.value * Day
  {
    if gteDate.None? then None else Some(now - gteDate.value * Day)
  }
}
