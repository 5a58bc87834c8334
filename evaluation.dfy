/**
 * Evaluation reports (the verdict of one evaluation of an item for a project)
 * and evaluation requests (a user's request for a re-evaluation), with the
 * store that saves reports: the guard on re-evaluation times, the database
 * constraints on a report's times, and the closing of pending requests that
 * every save performs.
 *
 * Times are whole seconds; a report's id is 0 until it has been saved.
 */
module Evaluations {
  import opened Common
  import opened MaturityModels

  datatype ReportStatus = Pass | Fail

  function ReportStatusCode(s: ReportStatus): char { if s.Pass? then 'P' else 'F' }

  /** A value held in a report's value fields: nothing, a text, or an integer. */
  datatype PyValue = PyNone | PyStr(s: string) | PyInt(i: int)

  /** Python's `str` of the value. */
  function Text(v: PyValue): (s: string)
    ensures v.PyNone? ==> s == "None"
    ensures v.PyStr? ==> s == v.s
    ensures v.PyInt? ==> s == IntToString(v.i)
  {
    match v
    case PyNone => "None"
    case PyStr(s) => s
    case PyInt(i) => IntToString(i)
  }

  /** An absent text field reads as `None`. */
  function OfOptionalString(s: Option<string>): PyValue {
    if s.None? then PyNone else PyStr(s.value)
  }

  datatype EvaluationReport = EvaluationReport(
    id: nat, item: nat, project: nat, status: ReportStatus,
    creationTime: int, lastUpdateTime: int, latestEvaluationTime: int,
    description: string, expectedValue: PyValue, currentValue: PyValue, valueType: Option<ValueType>)

  datatype RequestStatus = Pending | Done

  datatype EvaluationRequest = EvaluationRequest(
    id: nat, item: nat, project: nat, time: int, status: RequestStatus, closingReport: Option<nat>)

  /** The database constraints on a stored report's times. */
  predicate TimesOrdered(r: EvaluationReport) {
    r.latestEvaluationTime >= r.creationTime && r.lastUpdateTime >= r.creationTime
  }

  /**
   * A report is valid from its creation until the item's validity period has
   * passed since its latest evaluation, both ends included.
   */
  predicate IsInValidityPeriod(report: EvaluationReport, item: MaturityModelItem, now: int) {
    report.creationTime <= now <= report.latestEvaluationTime + item.evaluationType.validityPeriodDays * Day
  }

  /** A report re-evaluated at `now` is valid at `now`. */
  lemma ReevaluatedIsValid(report: EvaluationReport, item: MaturityModelItem, now: int)
    requires report.creationTime <= now
    requires item.evaluationType.validityPeriodDays >= 0
    ensures IsInValidityPeriod(report.(latestEvaluationTime := now), item, now)
  {
  }

  /** Two reports say the same: status, description and the text of both values agree. */
  predicate LogicallyEquals(a: EvaluationReport, b: EvaluationReport) {
    a.status == b.status && a.description == b.description &&
    Text(a.currentValue) == Text(b.currentValue) && Text(a.expectedValue) == Text(b.expectedValue)
  }

  /** Logical equality is an equivalence, and ignores ids and times. */
  lemma LogicallyEqualsIsEquivalence(a: EvaluationReport, b: EvaluationReport, c: EvaluationReport)
    ensures LogicallyEquals(a, a)
    ensures LogicallyEquals(a, b) ==> LogicallyEquals(b, a)
    ensures LogicallyEquals(a, b) && LogicallyEquals(b, c) ==> LogicallyEquals(a, c)
    ensures LogicallyEquals(a, a.(id := b.id, creationTime := b.creationTime, lastUpdateTime := b.lastUpdateTime,
                                   latestEvaluationTime := b.latestEvaluationTime))
  {
  }

  /** An integer value equals its text: 0 and "0" are logically the same. */
  lemma IntegerEqualsItsText(a: EvaluationReport, i: int)
    ensures LogicallyEquals(a.(currentValue := PyInt(i)), a.(currentValue := PyStr(IntToString(i))))
  {
  }

  /** Different statuses are never logically equal. */
  lemma StatusDistinguishes(a: EvaluationReport, b: EvaluationReport)
    requires a.status != b.status
    ensures !LogicallyEquals(a, b)
  {
  }

  /**
   * A new, unsaved report of an item. The value type and the expected value are
   * taken from the item unless the caller supplies them (the outer `Option`
   * tells whether a value was supplied). The times are set when it is saved.
   */
  function CreateNew(
    item: MaturityModelItem, project: nat, status: ReportStatus, description: string, currentValue: PyValue,
    valueType: Option<Option<ValueType>>, expectedValue: Option<PyValue>
  ): (r: EvaluationReport)
    ensures r.id == 0 && r.item == item.id && r.project == project && r.status == status
    ensures r.description == description && r.currentValue == currentValue
    ensures r.valueType == if valueType.Some? then valueType.value else item.acceptableValueType
    ensures r.expectedValue == if expectedValue.Some? then expectedValue.value else OfOptionalString(item.acceptableValue)
  {
    EvaluationReport(
      0, item.id, project, status, 0, 0, 0, description,
      if expectedValue.Some? then expectedValue.value else OfOptionalString(item.acceptableValue),
      currentValue,
      if valueType.Some? then valueType.value else item.acceptableValueType)
  }

  predicate LatestCandidate(r: EvaluationReport, project: nat, item: nat, beforeDate: Option<int>, offset: int) {
    r.project == project && r.item == item && (beforeDate.None? || LocalDate(r.creationTime, offset) <= beforeDate.value)
  }

  /** The report of the item for the project created last, optionally among those created on or before a (local) date. */
  function GetLatest(reports: seq<EvaluationReport>, project: nat, item: nat, beforeDate: Option<int>, offset: int): (r: Option<EvaluationReport>)
    ensures r.None? <==> forall x :: x in reports ==> !LatestCandidate(x, project, item, beforeDate, offset)
    ensures r.Some? ==> r.value in reports && LatestCandidate(r.value, project, item, beforeDate, offset)
    ensures r.Some? ==> forall x :: x in reports && LatestCandidate(x, project, item, beforeDate, offset) ==>
      x.creationTime <= r.value.creationTime
  {
    var p := (x: EvaluationReport) => LatestCandidate(x, project, item, beforeDate, offset);
    FilterMembers(reports, p);
    var candidates := Filter(reports, p);
    assert forall x :: x in reports && LatestCandidate(x, project, item, beforeDate, offset) ==> x in candidates;
    LatestBy(candidates, (x: EvaluationReport) => x.creationTime)
  }

  const OnlyLatestCanBeReevaluated: string := "Only re-evaluation time of latest evaluation report can be updated."
  const ReportDoesNotExist: string := "EvaluationReport matching query does not exist."
  const TimesConstraintViolated: string := "new row violates a check constraint on the evaluation report times"

  /**
   * The guard of a save: unless forced, a stored report's latest-evaluation
   * time may only change when it is the latest report of its item.
   */
  function SaveGuard(reports: seq<EvaluationReport>, report: EvaluationReport, force: bool): (r: Result<()>)
    ensures force || report.id == 0 ==> r.Ok?
    ensures r.Err? && r.error == OnlyLatestCanBeReevaluated ==>
      (exists s :: s in reports && s.id == report.id && s.latestEvaluationTime != report.latestEvaluationTime) &&
      GetLatest(reports, report.project, report.item, None, 0).Some? &&
      GetLatest(reports, report.project, report.item, None, 0).value.id != report.id
    ensures r.Ok? && !force && report.id != 0 ==>
      exists s :: (s in reports && s.id == report.id &&
        (s.latestEvaluationTime == report.latestEvaluationTime ||
         GetLatest(reports, report.project, report.item, None, 0).None? ||
         GetLatest(reports, report.project, report.item, None, 0).value.id == report.id))
  {
    if force || report.id == 0 then Ok(())
    else
      var stored := FindFirst(reports, (s: EvaluationReport) => s.id == report.id);
      if stored.None? then Err(ReportDoesNotExist)
      else
        var latest := GetLatest(reports, report.project, report.item, None, 0);
        if stored.value.latestEvaluationTime != report.latestEvaluationTime && latest.Some? && latest.value.id != report.id then
          Err(OnlyLatestCanBeReevaluated)
        else Ok(())
  }

  /** A stored report and the table it was written into. */
  datatype Written = Written(reports: seq<EvaluationReport>, report: EvaluationReport, lastId: nat)

  /**
   * Writing a report: a new one gets the next id and the current time as all
   * three of its times; a stored one is replaced, with its last-update time
   * set to now, and rejected when its times break the database constraints.
   */
  function Write(reports: seq<EvaluationReport>, lastId: nat, report: EvaluationReport, now: int): (r: Result<Written>)
    ensures r.Ok? ==> TimesOrdered(r.value.report) && r.value.report in r.value.reports
    ensures r.Ok? ==> r.value.report.lastUpdateTime == now
    ensures r.Ok? && report.id == 0 ==> r.value.reports == reports + [r.value.report] && r.value.report.id == lastId + 1
    ensures r.Err? ==> r.error == TimesConstraintViolated
    // A report that is not stored yet is always inserted, at the end, with `now` as all three of its times.
    ensures report.id == 0 || (forall s :: s in reports ==> s.id != report.id) ==>
      r.Ok? && r.value.reports == reports + [r.value.report] &&
      r.value.report.creationTime == now && r.value.report.latestEvaluationTime == now &&
      r.value.report.(id := report.id, creationTime := report.creationTime, lastUpdateTime := report.lastUpdateTime,
                      latestEvaluationTime := report.latestEvaluationTime) == report
    ensures report.id == 0 ==> r.Ok? && r.value.lastId == lastId + 1
    // A stored report replaces the first row with its id, with only its last-update time changed.
    ensures report.id != 0 && (exists s :: s in reports && s.id == report.id) ==>
      (r.Ok? <==> TimesOrdered(report.(lastUpdateTime := now))) &&
      (r.Ok? ==> r.value.lastId == lastId &&
                 r.value.reports == reports[FirstIndex(reports, (s: EvaluationReport) => s.id == report.id) := report.(lastUpdateTime := now)])
  {
    var existing := if report.id == 0 then -1 else FirstIndex(reports, (s: EvaluationReport) => s.id == report.id);
    if existing < 0 then
      var id := if report.id == 0 then lastId + 1 else report.id;
      var row := report.(id := id, creationTime := now, lastUpdateTime := now, latestEvaluationTime := now);
      Ok(Written(reports + [row], row, if id > lastId then id else lastId))
    else
      var row := report.(lastUpdateTime := now);
      if !TimesOrdered(row) then Err(TimesConstraintViolated)
      else
        assert reports[existing := row][existing] == row;
        Ok(Written(reports[existing := row], row, lastId))
  }

  /** The store's invariant: ids are unique, positive and at most `lastId`, and times are ordered. */
  ghost predicate StoreInvariant(reports: seq<EvaluationReport>, lastId: nat) {
    (forall i :: 0 <= i < |reports| ==> 1 <= reports[i].id <= lastId && TimesOrdered(reports[i])) &&
    (forall i, j :: 0 <= i < j < |reports| ==> reports[i].id != reports[j].id)
  }

  lemma WriteKeepsInvariant(reports: seq<EvaluationReport>, lastId: nat, report: EvaluationReport, now: int)
    requires StoreInvariant(reports, lastId)
    requires Write(reports, lastId, report, now).Ok?
    ensures StoreInvariant(Write(reports, lastId, report, now).value.reports, Write(reports, lastId, report, now).value.lastId)
  {
    var w := Write(reports, lastId, report, now).value;
    var existing := if report.id == 0 then -1 else FirstIndex(reports, (s: EvaluationReport) => s.id == report.id);
    if existing < 0 {
      forall i | 0 <= i < |reports| ensures reports[i].id != w.report.id {
        if report.id != 0 {
          assert !(reports[i].id == report.id);
        }
      }
      assert w.reports == reports + [w.report];
    } else {
      assert w.reports == reports[existing := w.report];
      assert w.report.id == reports[existing].id;
    }
  }

  /** Whether saving `report` closes the request. */
  predicate Closes(report: EvaluationReport, q: EvaluationRequest) {
    q.project == report.project && q.item == report.item && q.status == Pending && q.time <= report.creationTime
  }

  /**
   * What every save does afterwards: each pending request for the same project
   * and item made no later than the report's creation is marked done and
   * linked to the report; every other request is left as it was.
   */
  function CloseRequests(requests: seq<EvaluationRequest>, report: EvaluationReport): (r: seq<EvaluationRequest>)
    ensures |r| == |requests|
    ensures forall i :: 0 <= i < |requests| && Closes(report, requests[i]) ==>
      r[i] == requests[i].(status := Done, closingReport := Some(report.id))
    ensures forall i :: 0 <= i < |requests| && !Closes(report, requests[i]) ==> r[i] == requests[i]
  {
    MapSeq(requests, (q: EvaluationRequest) => if Closes(report, q) then q.(status := Done, closingReport := Some(report.id)) else q)
  }

  /** After a save no request that the report covers is still pending. */
  lemma NoCoveredRequestStaysPending(requests: seq<EvaluationRequest>, report: EvaluationReport)
    ensures forall q :: q in CloseRequests(requests, report) ==> !Closes(report, q)
  {
    var r := CloseRequests(requests, report);
    forall q | q in r ensures !Closes(report, q) {
      var i :| 0 <= i < |r| && r[i] == q;
    }
  }

  /** The outcome of a save: the guard, then the write. */
  function SaveOutcome(reports: seq<EvaluationReport>, lastId: nat, report: EvaluationReport, force: bool, now: int): (r: Result<Written>)
    ensures SaveGuard(reports, report, force).Err? ==> r.Err?
    ensures r.Ok? ==> r == Write(reports, lastId, report, now)
  {
    var guard := SaveGuard(reports, report, force);
    if guard.Err? then Err(guard.error) else Write(reports, lastId, report, now)
  }

  /** The reports and requests tables, with the save operation that guards them. */
  class EvaluationStore {
    var reports: seq<EvaluationReport>
    var requests: seq<EvaluationRequest>
    var lastId: nat

    ghost predicate Valid()
      reads this
    {
      StoreInvariant(reports, lastId)
    }

    constructor(requests: seq<EvaluationRequest>)
      ensures Valid()
      ensures this.reports == [] && this.requests == requests && this.lastId == 0
    {
      this.reports := [];
      this.requests := requests;
      this.lastId := 0;
    }

    /**
     * Saves a report: on success the table holds the written row and the
     * requests it covers are closed; on failure nothing changes.
     */
    method Save(report: EvaluationReport, force: bool, now: int) returns (r: Result<EvaluationReport>)
      requires Valid()
      modifies this
      ensures Valid()
      ensures r.Ok? <==> SaveOutcome(old(reports), old(lastId), report, force, now).Ok?
      ensures r.Ok? ==>
        var w := SaveOutcome(old(reports), old(lastId), report, force, now).value;
        r.value == w.report && reports == w.reports && lastId == w.lastId &&
        requests == CloseRequests(old(requests), w.report)
      ensures r.Err? ==> r.error == SaveOutcome(old(reports), old(lastId), report, force, now).error
      ensures r.Err? ==> reports == old(reports) && requests == old(requests) && lastId == old(lastId)
    {
      var outcome := SaveOutcome(reports, lastId, report, force, now);
      if outcome.Err? {
        return Err(outcome.error);
      }
      WriteKeepsInvariant(reports, lastId, report, now);
      reports := outcome.value.reports;
      lastId := outcome.value.lastId;
      requests := CloseRequests(requests, outcome.value.report);
      r := Ok(outcome.value.report);
    }

    /**
     * Deletes the report with the given id, if stored; the requests it closed
     * lose their link to it (the link is set to null) and stay done.
     */
    method Delete(id: nat)
      requires Valid()
      modifies this
      ensures Valid()
      ensures reports == WithoutReport(old(reports), id)
      ensures requests == ReleaseRequests(old(requests), id) && lastId == old(lastId)
    {
      var kept := WithoutReport(reports, id);
      KeptKeepsInvariant(reports, lastId, kept, id);
      reports := kept;
      requests := ReleaseRequests(requests, id);
    }
  }

  /** The table with the report of the given id deleted. */
  function WithoutReport(reports: seq<EvaluationReport>, id: nat): (r: seq<EvaluationReport>)
    ensures forall x :: x in r <==> x in reports && x.id != id
  {
    var p := (s: EvaluationReport) => s.id != id;
    FilterMembers(reports, p);
    Filter(reports, p)
  }

  lemma KeptKeepsInvariant(reports: seq<EvaluationReport>, lastId: nat, kept: seq<EvaluationReport>, id: nat)
    requires StoreInvariant(reports, lastId)
    requires kept == WithoutReport(reports, id)
    ensures StoreInvariant(kept, lastId)
  {
    FilterKeepsUniqueIds(reports, (s: EvaluationReport) => s.id != id);
    forall i | 0 <= i < |kept| ensures 1 <= kept[i].id <= lastId && TimesOrdered(kept[i]) {
      assert kept[i] in reports;
    }
  }

  /**
   * What deleting a report does to the requests: a request the report closed
   * loses its link to it and stays done; every other request is left as it was.
   */
  function ReleaseRequests(requests: seq<EvaluationRequest>, id: nat): (r: seq<EvaluationRequest>)
    ensures |r| == |requests|
    ensures forall i :: 0 <= i < |requests| && requests[i].closingReport == Some(id) ==>
      r[i] == requests[i].(closingReport := None)
    ensures forall i :: 0 <= i < |requests| && requests[i].closingReport != Some(id) ==> r[i] == requests[i]
  {
    MapSeq(requests, (q: EvaluationRequest) => if q.closingReport == Some(id) then q.(closingReport := None) else q)
  }

  /** Every request linked to a closing report is linked to a stored report. */
  ghost predicate LinksStored(reports: seq<EvaluationReport>, requests: seq<EvaluationRequest>) {
    forall q :: q in requests && q.closingReport.Some? ==> exists s :: s in reports && s.id == q.closingReport.value
  }

  /** A deletion keeps every request's link pointing at a stored report, and none at the deleted one. */
  lemma DeleteKeepsLinks(reports: seq<EvaluationReport>, requests: seq<EvaluationRequest>, id: nat)
    requires LinksStored(reports, requests)
    ensures LinksStored(WithoutReport(reports, id), ReleaseRequests(requests, id))
    ensures forall q :: q in ReleaseRequests(requests, id) ==> q.closingReport != Some(id)
  {
    var r := ReleaseRequests(requests, id);
    forall q | q in r ensures q.closingReport != Some(id) &&
      (q.closingReport.Some? ==> exists s :: s in WithoutReport(reports, id) && s.id == q.closingReport.value)
    {
      var i :| 0 <= i < |r| && r[i] == q;
      if requests[i].closingReport != Some(id) && q.closingReport.Some? {
        assert requests[i] in requests;
        var s :| s in reports && s.id == q.closingReport.value;
        assert s in WithoutReport(reports, id);
      }
    }
  }

  /** A save keeps every request's link pointing at a stored report, including the links it adds. */
  lemma WriteKeepsLinks(reports: seq<EvaluationReport>, lastId: nat, requests: seq<EvaluationRequest>, report: EvaluationReport, now: int)
    requires LinksStored(reports, requests)
    requires Write(reports, lastId, report, now).Ok?
    ensures var w := Write(reports, lastId, report, now).value;
      LinksStored(w.reports, CloseRequests(requests, w.report))
  {
    var w := Write(reports, lastId, report, now).value;
    var r := CloseRequests(requests, w.report);
    forall s | s in reports ensures exists s' :: s' in w.reports && s'.id == s.id {
      StoredIdKept(reports, lastId, report, now, s);
    }
    forall q | q in r && q.closingReport.Some? ensures exists s :: s in w.reports && s.id == q.closingReport.value {
      var i :| 0 <= i < |r| && r[i] == q;
      if !Closes(w.report, requests[i]) {
        assert requests[i] in requests;
      }
    }
  }

  /** A save leaves a row with the id of every row stored before. */
  lemma StoredIdKept(reports: seq<EvaluationReport>, lastId: nat, report: EvaluationReport, now: int, s: EvaluationReport)
    requires s in reports
    requires Write(reports, lastId, report, now).Ok?
    ensures exists s' :: s' in Write(reports, lastId, report, now).value.reports && s'.id == s.id
  {
    var w := Write(reports, lastId, report, now).value;
    var j :| 0 <= j < |reports| && reports[j] == s;
    if report.id != 0 && (exists x :: x in reports && x.id == report.id) {
      var k := FirstIndex(reports, (x: EvaluationReport) => x.id == report.id);
      assert w.reports == reports[k := report.(lastUpdateTime := now)];
      assert w.reports[j].id == s.id;
    } else {
      assert w.reports[j] == s;
    }
  }

  lemma {:induction false} FilterKeepsUniqueIds(reports: seq<EvaluationReport>, p: EvaluationReport -> bool)
    requires forall i, j :: 0 <= i < j < |reports| ==> reports[i].id != reports[j].id
    ensures forall i, j :: 0 <= i < j < |Filter(reports, p)| ==> Filter(reports, p)[i].id != Filter(reports, p)[j].id
  {
    if reports != [] {
      FilterKeepsUniqueIds(reports[1..], p);
      var rest := Filter(reports[1..], p);
      FilterMembers(reports[1..], p);
      var kept := Filter(reports, p);
      forall x | x in rest ensures x.id != reports[0].id {
        var k :| 0 <= k < |reports[1..]| && reports[1..][k] == x;
        assert reports[k + 1] == x;
      }
      if p(reports[0]) {
        assert kept == [reports[0]] + rest;
        forall i, j | 0 <= i < j < |kept| ensures kept[i].id != kept[j].id {
          assert kept[j] == rest[j - 1];
          if i > 0 {
            assert kept[i] == rest[i - 1];
          } else {
            assert kept[j] in rest;
          }
        }
      } else {
        assert kept == rest;
      }
    }
  }

  const DisabledDescription: string := "This Item disabled for this project."

  /**
   * The report created when a toggle approval is saved: only a newly created,
   * approved approval creates one, a failing report whose current value says
   * the item is disabled.
   */
  function OnToggleApprovalSaved(created: bool, approval: ToggleApproval, request: ToggleRequest, item: MaturityModelItem): (r: Option<EvaluationReport>)
    requires item.id == request.item
    ensures r.Some? <==> created && approval.approved
    ensures r.Some? ==>
      r.value.id == 0 && r.value.status == Fail && r.value.item == request.item &&
      r.value.project == request.project && r.value.currentValue == PyStr("Disabled") &&
      r.value.description == DisabledDescription
  {
    if !created then None
    else if !approval.approved then None
    else Some(CreateNew(item, request.project, Fail, DisabledDescription, PyStr("Disabled"), None, None))
  }
}
