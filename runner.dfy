/**
 * The evaluator runner: for every project and every maturity model item it
 * runs the evaluator registered for the item's kind (skipping disabled items
 * and kinds without an evaluator) and stores the report it returns, merging it
 * into the latest report of the item when that one is still valid and says
 * the same thing.
 *
 * An evaluator is a function parameter: given its class, the stored reports,
 * the project and the item, it raises, returns nothing, or returns a report.
 */
module EvaluatorRunner {
  import opened Common
  import opened MaturityModels
  import opened Evaluations
  import opened EvaluatorRegistry

  /** The stored reports and requests and the last id handed out. */
  datatype Db = Db(reports: seq<EvaluationReport>, requests: seq<EvaluationRequest>, lastId: nat)

  ghost predicate DbValid(db: Db) {
    StoreInvariant(db.reports, db.lastId)
  }

  /** The previous report can absorb the new one: it is still valid at `now` and says the same. */
  predicate Mergeable(previous: EvaluationReport, newReport: EvaluationReport, item: MaturityModelItem, now: int) {
    IsInValidityPeriod(previous, item, now) && LogicallyEquals(previous, newReport)
  }

  /** The latest report of the new report's item for its project. */
  function LatestOf(db: Db, report: EvaluationReport): Option<EvaluationReport> {
    GetLatest(db.reports, report.project, report.item, None, 0)
  }

  /** The report the runner saves: the re-evaluated latest one when mergeable, else the new one. */
  function ReportToSave(db: Db, report: EvaluationReport, item: MaturityModelItem, now: int): EvaluationReport {
    var latest := LatestOf(db, report);
    if latest.Some? && Mergeable(latest.value, report, item, now) then latest.value.(latestEvaluationTime := now)
    else report
  }

  /** Re-saving the latest report with a new evaluation time within its validity passes the guard and the constraints. */
  lemma MergedSaveSucceeds(db: Db, report: EvaluationReport, item: MaturityModelItem, now: int)
    requires DbValid(db)
    requires LatestOf(db, report).Some? && Mergeable(LatestOf(db, report).value, report, item, now)
    ensures SaveOutcome(db.reports, db.lastId, ReportToSave(db, report, item, now), false, now).Ok?
  {
    var latest := LatestOf(db, report).value;
    var toSave := latest.(latestEvaluationTime := now);
    assert GetLatest(db.reports, toSave.project, toSave.item, None, 0) == Some(latest);
    var k :| 0 <= k < |db.reports| && db.reports[k] == latest;
    var stored := FindFirst(db.reports, (s: EvaluationReport) => s.id == toSave.id);
    assert stored.Some?;
    var existing := FirstIndex(db.reports, (s: EvaluationReport) => s.id == toSave.id);
    assert existing >= 0;
  }

  /**
   * What adding or updating a new, unsaved report does to the store: when
   * the item's latest report is mergeable with it, that report is re-saved
   * with `now` as its latest evaluation time; otherwise the new report is
   * saved as a new row. Either save closes the requests the saved report covers.
   */
  function AddOrUpdate(db: Db, report: EvaluationReport, item: MaturityModelItem, now: int): (r: Db)
    requires DbValid(db)
    requires report.id == 0 && report.item == item.id
    ensures DbValid(r)
  {
    var toSave := ReportToSave(db, report, item, now);
    if toSave != report then
      MergedSaveSucceeds(db, report, item, now);
      WriteKeepsInvariant(db.reports, db.lastId, toSave, now);
      var w := SaveOutcome(db.reports, db.lastId, toSave, false, now).value;
      Db(w.reports, CloseRequests(db.requests, w.report), w.lastId)
    else
      WriteKeepsInvariant(db.reports, db.lastId, toSave, now);
      var w := SaveOutcome(db.reports, db.lastId, toSave, false, now).value;
      Db(w.reports, CloseRequests(db.requests, w.report), w.lastId)
  }

  /** The number of stored reports of the item for the project. */
  function ReportsOfItem(reports: seq<EvaluationReport>, project: nat, item: nat): nat {
    if reports == [] then 0
    else (if reports[0].project == project && reports[0].item == item then 1 else 0) + ReportsOfItem(reports[1..], project, item)
  }

  lemma {:induction false} ReportsOfItemSnoc(reports: seq<EvaluationReport>, x: EvaluationReport, project: nat, item: nat)
    ensures ReportsOfItem(reports + [x], project, item) ==
      ReportsOfItem(reports, project, item) + (if x.project == project && x.item == item then 1 else 0)
  {
    if reports == [] {
      assert [x][1..] == [];
    } else {
      assert (reports + [x])[1..] == reports[1..] + [x];
      ReportsOfItemSnoc(reports[1..], x, project, item);
    }
  }

  lemma {:induction false} ReportsOfItemUpdate(reports: seq<EvaluationReport>, k: nat, x: EvaluationReport, project: nat, item: nat)
    requires k < |reports|
    requires x.project == reports[k].project && x.item == reports[k].item
    ensures ReportsOfItem(reports[k := x], project, item) == ReportsOfItem(reports, project, item)
  {
    if k > 0 {
      assert reports[k := x][1..] == reports[1..][k - 1 := x];
      ReportsOfItemUpdate(reports[1..], k - 1, x, project, item);
    }
  }

  /** No stored report of the item for the project. */
  lemma {:induction false} NoReportsOfItem(reports: seq<EvaluationReport>, project: nat, item: nat)
    requires forall x :: x in reports ==> !(x.project == project && x.item == item)
    ensures ReportsOfItem(reports, project, item) == 0
  {
    if reports != [] {
      assert reports[0] in reports;
      assert forall x :: x in reports[1..] ==> x in reports;
      NoReportsOfItem(reports[1..], project, item);
    }
  }

  /**
   * A merge rewrites the latest report in place, so the number of reports of
   * the item stays the same; otherwise exactly one report is added.
   */
  lemma AddOrUpdateCount(db: Db, report: EvaluationReport, item: MaturityModelItem, now: int)
    requires DbValid(db)
    requires report.id == 0 && report.item == item.id
    ensures var latest := LatestOf(db, report);
      ReportsOfItem(AddOrUpdate(db, report, item, now).reports, report.project, report.item) ==
      ReportsOfItem(db.reports, report.project, report.item) +
      (if latest.Some? && Mergeable(latest.value, report, item, now) then 0 else 1)
  {
    var latest := LatestOf(db, report);
    var toSave := ReportToSave(db, report, item, now);
    if latest.Some? && Mergeable(latest.value, report, item, now) {
      MergedSaveSucceeds(db, report, item, now);
      var existing := FirstIndex(db.reports, (s: EvaluationReport) => s.id == toSave.id);
      var k :| 0 <= k < |db.reports| && db.reports[k] == latest.value;
      assert existing >= 0;
      assert db.reports[existing].id == latest.value.id;
      assert db.reports[existing] == latest.value;
      var saved := SaveOutcome(db.reports, db.lastId, toSave, false, now);
      assert saved.Ok? && saved == Write(db.reports, db.lastId, toSave, now);
      assert AddOrUpdate(db, report, item, now).reports == db.reports[existing := toSave.(lastUpdateTime := now)];
      ReportsOfItemUpdate(db.reports, existing, toSave.(lastUpdateTime := now), report.project, report.item);
    } else {
      assert toSave == report;
      var saved := SaveOutcome(db.reports, db.lastId, report, false, now);
      assert saved.Ok? && saved == Write(db.reports, db.lastId, report, now);
      var w := saved.value;
      assert AddOrUpdate(db, report, item, now).reports == db.reports + [w.report];
      ReportsOfItemSnoc(db.reports, w.report, report.project, report.item);
    }
  }

  /**
   * The store after adding or updating: when the latest report is mergeable,
   * its row is rewritten in place with `now` as its latest evaluation and
   * last update and no id is handed out; otherwise the new report is appended
   * with the next id and `now` as all three of its times. Either way the
   * requests the saved row covers are closed.
   */
  lemma AddOrUpdateStores(db: Db, report: EvaluationReport, item: MaturityModelItem, now: int)
    requires DbValid(db)
    requires report.id == 0 && report.item == item.id
    ensures var latest := LatestOf(db, report);
      var r := AddOrUpdate(db, report, item, now);
      latest.Some? && Mergeable(latest.value, report, item, now) ==>
        var row := latest.value.(latestEvaluationTime := now, lastUpdateTime := now);
        (exists k :: 0 <= k < |db.reports| && db.reports[k] == latest.value && r.reports == db.reports[k := row]) &&
        r.lastId == db.lastId && r.requests == CloseRequests(db.requests, row)
    ensures var latest := LatestOf(db, report);
      var r := AddOrUpdate(db, report, item, now);
      !(latest.Some? && Mergeable(latest.value, report, item, now)) ==>
        var row := report.(id := db.lastId + 1, creationTime := now, lastUpdateTime := now, latestEvaluationTime := now);
        r.reports == db.reports + [row] && r.lastId == db.lastId + 1 && r.requests == CloseRequests(db.requests, row)
  {
    var latest := LatestOf(db, report);
    var toSave := ReportToSave(db, report, item, now);
    if latest.Some? && Mergeable(latest.value, report, item, now) {
      MergedSaveSucceeds(db, report, item, now);
      var existing := FirstIndex(db.reports, (s: EvaluationReport) => s.id == toSave.id);
      var k :| 0 <= k < |db.reports| && db.reports[k] == latest.value;
      assert existing >= 0;
      assert db.reports[existing].id == latest.value.id;
      assert db.reports[existing] == latest.value;
      var saved := SaveOutcome(db.reports, db.lastId, toSave, false, now);
      assert saved.Ok? && saved == Write(db.reports, db.lastId, toSave, now);
      assert toSave.(lastUpdateTime := now) == latest.value.(latestEvaluationTime := now, lastUpdateTime := now);
      assert AddOrUpdate(db, report, item, now).reports == db.reports[existing := toSave.(lastUpdateTime := now)];
    } else {
      assert toSave == report;
      var saved := SaveOutcome(db.reports, db.lastId, report, false, now);
      assert saved.Ok? && saved == Write(db.reports, db.lastId, report, now);
      var row := report.(id := db.lastId + 1, creationTime := now, lastUpdateTime := now, latestEvaluationTime := now);
      assert saved.value.report == row;
    }
  }

  /**
   * Two runs within the validity period that produce reports saying the same
   * thing leave one report of the item; the first run's report carries the
   * second run's time as its latest evaluation.
   */
  lemma TwoRunsWithinValidityLeaveOneReport(
    db: Db, r1: EvaluationReport, r2: EvaluationReport, item: MaturityModelItem, now1: int, now2: int
  )
    requires DbValid(db)
    requires r1.id == 0 && r2.id == 0 && r1.item == item.id && r2.item == item.id && r1.project == r2.project
    requires forall x :: x in db.reports ==> !(x.project == r1.project && x.item == r1.item)
    requires LogicallyEquals(r1, r2)
    requires now1 <= now2 <= now1 + item.evaluationType.validityPeriodDays * Day
    ensures ReportsOfItem(AddOrUpdate(AddOrUpdate(db, r1, item, now1), r2, item, now2).reports, r1.project, r1.item) == 1
    ensures AddOrUpdate(AddOrUpdate(db, r1, item, now1), r2, item, now2).reports ==
      db.reports + [r1.(id := db.lastId + 1, creationTime := now1, lastUpdateTime := now2, latestEvaluationTime := now2)]
  {
    var db1 := AddOrUpdate(db, r1, item, now1);
    FirstRunCount(db, r1, item, now1);
    SecondRunMerges(db, r1, r2, item, now1, now2);
    AddOrUpdateCount(db1, r2, item, now2);
    SecondRunRewritesFirstRow(db, r1, r2, item, now1, now2);
  }

  /** Within the validity period, the second run's report is mergeable with the first run's row. */
  lemma SecondRunMerges(
    db: Db, r1: EvaluationReport, r2: EvaluationReport, item: MaturityModelItem, now1: int, now2: int
  )
    requires DbValid(db)
    requires r1.id == 0 && r2.id == 0 && r1.item == item.id && r2.item == item.id && r1.project == r2.project
    requires forall x :: x in db.reports ==> !(x.project == r1.project && x.item == r1.item)
    requires LogicallyEquals(r1, r2)
    requires now1 <= now2 <= now1 + item.evaluationType.validityPeriodDays * Day
    ensures var db1 := AddOrUpdate(db, r1, item, now1);
      LatestOf(db1, r2).Some? && Mergeable(LatestOf(db1, r2).value, r2, item, now2)
  {
    var db1 := AddOrUpdate(db, r1, item, now1);
    SecondRunSeesFirst(db, r1, r2, item, now1);
    var row := LatestOf(db1, r2).value;
    LogicallyEqualsIsEquivalence(r1, r2, r2);
    LogicallyEqualsIsEquivalence(r1, r1, r1);
    assert LogicallyEquals(row, r1);
  }

  /** The merging second run rewrites the first run's row, the last one of the table. */
  lemma SecondRunRewritesFirstRow(
    db: Db, r1: EvaluationReport, r2: EvaluationReport, item: MaturityModelItem, now1: int, now2: int
  )
    requires DbValid(db)
    requires r1.id == 0 && r2.id == 0 && r1.item == item.id && r2.item == item.id && r1.project == r2.project
    requires forall x :: x in db.reports ==> !(x.project == r1.project && x.item == r1.item)
    requires LogicallyEquals(r1, r2)
    requires now1 <= now2 <= now1 + item.evaluationType.validityPeriodDays * Day
    ensures AddOrUpdate(AddOrUpdate(db, r1, item, now1), r2, item, now2).reports ==
      db.reports + [r1.(id := db.lastId + 1, creationTime := now1, lastUpdateTime := now2, latestEvaluationTime := now2)]
  {
    var db1 := AddOrUpdate(db, r1, item, now1);
    var row := r1.(id := db.lastId + 1, creationTime := now1, lastUpdateTime := now1, latestEvaluationTime := now1);
    FirstRunAddsOne(db, r1, item, now1);
    SecondRunSeesFirst(db, r1, r2, item, now1);
    SecondRunMerges(db, r1, r2, item, now1, now2);
    AddOrUpdateStores(db1, r2, item, now2);
    var merged := row.(latestEvaluationTime := now2, lastUpdateTime := now2);
    var k :| 0 <= k < |db1.reports| && db1.reports[k] == row &&
      AddOrUpdate(db1, r2, item, now2).reports == db1.reports[k := merged];
    assert k == |db.reports|;
    assert db1.reports[k := merged] == db.reports + [merged];
  }

  /**
   * A second run after the validity period of the first run's report has
   * passed adds a second report, whatever the reports say.
   */
  lemma RunAfterExpiryAddsReport(
    db: Db, r1: EvaluationReport, r2: EvaluationReport, item: MaturityModelItem, now1: int, now2: int
  )
    requires DbValid(db)
    requires r1.id == 0 && r2.id == 0 && r1.item == item.id && r2.item == item.id && r1.project == r2.project
    requires forall x :: x in db.reports ==> !(x.project == r1.project && x.item == r1.item)
    requires now2 > now1 + item.evaluationType.validityPeriodDays * Day
    ensures ReportsOfItem(AddOrUpdate(AddOrUpdate(db, r1, item, now1), r2, item, now2).reports, r1.project, r1.item) == 2
  {
    var db1 := AddOrUpdate(db, r1, item, now1);
    FirstRunCount(db, r1, item, now1);
    SecondRunSeesFirst(db, r1, r2, item, now1);
    var row := LatestOf(db1, r2).value;
    assert !IsInValidityPeriod(row, item, now2);
    AddOrUpdateCount(db1, r2, item, now2);
  }

  /** After the first run the item has exactly one report. */
  lemma FirstRunCount(db: Db, r1: EvaluationReport, item: MaturityModelItem, now1: int)
    requires DbValid(db)
    requires r1.id == 0 && r1.item == item.id
    requires forall x :: x in db.reports ==> !(x.project == r1.project && x.item == r1.item)
    ensures ReportsOfItem(AddOrUpdate(db, r1, item, now1).reports, r1.project, r1.item) == 1
  {
    NoReportsOfItem(db.reports, r1.project, r1.item);
    FirstRunAddsOne(db, r1, item, now1);
    var row := r1.(id := db.lastId + 1, creationTime := now1, lastUpdateTime := now1, latestEvaluationTime := now1);
    ReportsOfItemSnoc(db.reports, row, r1.project, r1.item);
  }

  /** The first report of an item is added as a new row with all its times at `now`. */
  lemma FirstRunAddsOne(db: Db, r1: EvaluationReport, item: MaturityModelItem, now1: int)
    requires DbValid(db)
    requires r1.id == 0 && r1.item == item.id
    requires forall x :: x in db.reports ==> !(x.project == r1.project && x.item == r1.item)
    ensures LatestOf(db, r1).None?
    ensures AddOrUpdate(db, r1, item, now1).reports ==
      db.reports + [r1.(id := db.lastId + 1, creationTime := now1, lastUpdateTime := now1, latestEvaluationTime := now1)]
  {
    assert LatestOf(db, r1).None?;
    assert ReportToSave(db, r1, item, now1) == r1;
    WriteKeepsInvariant(db.reports, db.lastId, r1, now1);
    var w := SaveOutcome(db.reports, db.lastId, r1, false, now1);
    assert w.Ok? && w == Write(db.reports, db.lastId, r1, now1);
    assert w.value.reports == db.reports +
      [r1.(id := db.lastId + 1, creationTime := now1, lastUpdateTime := now1, latestEvaluationTime := now1)];
  }

  /**
   * After the first run, the second run finds the first run's report as the
   * latest, with the first run's time as its creation and latest evaluation.
   */
  lemma SecondRunSeesFirst(db: Db, r1: EvaluationReport, r2: EvaluationReport, item: MaturityModelItem, now1: int)
    requires DbValid(db)
    requires r1.id == 0 && r1.item == item.id && r2.item == r1.item && r2.project == r1.project
    requires forall x :: x in db.reports ==> !(x.project == r1.project && x.item == r1.item)
    ensures var row := r1.(id := db.lastId + 1, creationTime := now1, lastUpdateTime := now1, latestEvaluationTime := now1);
      LatestOf(AddOrUpdate(db, r1, item, now1), r2) == Some(row)
  {
    var row := r1.(id := db.lastId + 1, creationTime := now1, lastUpdateTime := now1, latestEvaluationTime := now1);
    FirstRunAddsOne(db, r1, item, now1);
    var db1 := AddOrUpdate(db, r1, item, now1);
    var latest := LatestOf(db1, r2);
    assert row in db1.reports;
    assert latest.Some?;
    assert latest.value in db.reports + [row];
  }

  /** What an evaluator does when called. */
  datatype Outcome = Raised | NoReport | Returned(report: EvaluationReport)

  /** Every evaluator builds its unsaved reports for the item it was asked about. */
  ghost predicate ReportsForTheirItem(evaluate: (EvaluatorClass, seq<EvaluationReport>, nat, MaturityModelItem) -> Outcome) {
    forall klass, reports, project, item ::
      evaluate(klass, reports, project, item).Returned? && evaluate(klass, reports, project, item).report.id == 0 ==>
      evaluate(klass, reports, project, item).report.item == item.id
  }

  /**
   * Evaluating one item and saving the result: an exception or no report
   * saves nothing; a report that is already stored is deleted (and the error
   * that follows is swallowed); an unsaved report is added or merged.
   */
  function EvaluateAndSave(
    db: Db, klass: EvaluatorClass, evaluate: (EvaluatorClass, seq<EvaluationReport>, nat, MaturityModelItem) -> Outcome,
    project: nat, item: MaturityModelItem, now: int
  ): (r: Db)
    requires DbValid(db) && ReportsForTheirItem(evaluate)
    ensures DbValid(r)
    ensures evaluate(klass, db.reports, project, item).Raised? || evaluate(klass, db.reports, project, item).NoReport? ==> r == db
    ensures evaluate(klass, db.reports, project, item).Returned? && evaluate(klass, db.reports, project, item).report.id != 0 ==>
      r == db.(reports := WithoutReport(db.reports, evaluate(klass, db.reports, project, item).report.id),
              requests := ReleaseRequests(db.requests, evaluate(klass, db.reports, project, item).report.id))
  {
    match evaluate(klass, db.reports, project, item)
    case Raised => db
    case NoReport => db
    case Returned(report) =>
      if report.id != 0 then
        KeptKeepsInvariant(db.reports, db.lastId, WithoutReport(db.reports, report.id), report.id);
        db.(reports := WithoutReport(db.reports, report.id), requests := ReleaseRequests(db.requests, report.id))
      else AddOrUpdate(db, report, item, now)
  }

  /** One (project, item) step of a run: skipped when disabled or when no evaluator handles the kind. */
  function RunStep(
    db: Db, entries: map<Kind, EvaluatorClass>, toggles: seq<ToggleRequest>,
    evaluate: (EvaluatorClass, seq<EvaluationReport>, nat, MaturityModelItem) -> Outcome,
    project: nat, item: MaturityModelItem, now: int
  ): (r: Db)
    requires DbValid(db) && ReportsForTheirItem(evaluate)
    ensures DbValid(r)
    ensures IsDisabled(toggles, item.id, project, None) ==> r == db
    ensures item.evaluationType.kind !in entries ==> r == db
  {
    if IsDisabled(toggles, item.id, project, None) then db
    else if item.evaluationType.kind !in entries then db
    else EvaluateAndSave(db, entries[item.evaluationType.kind], evaluate, project, item, now)
  }

  /** The steps of one project over the items, in order. */
  function RunItems(
    db: Db, entries: map<Kind, EvaluatorClass>, toggles: seq<ToggleRequest>,
    evaluate: (EvaluatorClass, seq<EvaluationReport>, nat, MaturityModelItem) -> Outcome,
    project: nat, items: seq<MaturityModelItem>, now: int
  ): (r: Db)
    requires DbValid(db) && ReportsForTheirItem(evaluate)
    ensures DbValid(r)
  {
    if items == [] then db
    else
      var before := RunItems(db, entries, toggles, evaluate, project, items[..|items| - 1], now);
      RunStep(before, entries, toggles, evaluate, project, items[|items| - 1], now)
  }

  /** A whole run: every project over every item, in order. */
  function RunProjects(
    db: Db, entries: map<Kind, EvaluatorClass>, toggles: seq<ToggleRequest>,
    evaluate: (EvaluatorClass, seq<EvaluationReport>, nat, MaturityModelItem) -> Outcome,
    projects: seq<nat>, items: seq<MaturityModelItem>, now: int
  ): (r: Db)
    requires DbValid(db) && ReportsForTheirItem(evaluate)
    ensures DbValid(r)
  {
    if projects == [] then db
    else
      var before := RunProjects(db, entries, toggles, evaluate, projects[..|projects| - 1], items, now);
      RunItems(before, entries, toggles, evaluate, projects[|projects| - 1], items, now)
  }

  /** A run in which every item is disabled for every project changes nothing. */
  lemma {:induction false} DisabledItemsAreSkipped(
    db: Db, entries: map<Kind, EvaluatorClass>, toggles: seq<ToggleRequest>,
    evaluate: (EvaluatorClass, seq<EvaluationReport>, nat, MaturityModelItem) -> Outcome,
    project: nat, items: seq<MaturityModelItem>, now: int
  )
    requires DbValid(db) && ReportsForTheirItem(evaluate)
    requires forall x :: x in items ==> IsDisabled(toggles, x.id, project, None) || x.evaluationType.kind !in entries
    ensures RunItems(db, entries, toggles, evaluate, project, items, now) == db
  {
    if items != [] {
      assert forall x :: x in items[..|items| - 1] ==> x in items;
      DisabledItemsAreSkipped(db, entries, toggles, evaluate, project, items[..|items| - 1], now);
      assert items[|items| - 1] in items;
    }
  }

  /** The runner: the projects and items to evaluate, and the registry of evaluators. */
  class Runner {
    const projects: seq<nat>
    const items: seq<MaturityModelItem>
    const registry: Registry

    constructor(projects: seq<nat>, items: seq<MaturityModelItem>, registry: Registry)
      ensures this.projects == projects && this.items == items && this.registry == registry
    {
      this.projects := projects;
      this.items := items;
      this.registry := registry;
    }

    /** Adds or merges an unsaved report into the store. */
    method AddOrUpdateEvaluationReport(store: EvaluationStore, report: EvaluationReport, item: MaturityModelItem, now: int)
      requires store.Valid()
      requires report.id == 0 && report.item == item.id
      modifies store
      ensures store.Valid()
      ensures Db(store.reports, store.requests, store.lastId) ==
        AddOrUpdate(Db(old(store.reports), old(store.requests), old(store.lastId)), report, item, now)
    {
      ghost var db := Db(store.reports, store.requests, store.lastId);
      var latest := GetLatest(store.reports, report.project, report.item, None, 0);
      var toSave := report;
      if latest.Some? && Mergeable(latest.value, report, item, now) {
        toSave := latest.value.(latestEvaluationTime := now);
        MergedSaveSucceeds(db, report, item, now);
      }
      assert toSave == ReportToSave(db, report, item, now);
      var saved := store.Save(toSave, false, now);
    }

    /** Evaluates one item for one project with the given evaluator class and saves the outcome. */
    method EvaluateAndSaveReport(
      store: EvaluationStore, klass: EvaluatorClass,
      evaluate: (EvaluatorClass, seq<EvaluationReport>, nat, MaturityModelItem) -> Outcome,
      project: nat, item: MaturityModelItem, now: int
    )
      requires store.Valid() && ReportsForTheirItem(evaluate)
      modifies store
      ensures store.Valid()
      ensures Db(store.reports, store.requests, store.lastId) ==
        EvaluateAndSave(Db(old(store.reports), old(store.requests), old(store.lastId)), klass, evaluate, project, item, now)
    {
      var outcome := evaluate(klass, store.reports, project, item);
      if outcome.Returned? {
        if outcome.report.id != 0 {
          store.Delete(outcome.report.id);
        } else {
          AddOrUpdateEvaluationReport(store, outcome.report, item, now);
        }
      }
    }

    /** Runs every registered evaluator on every enabled item of every project. */
    method Run(store: EvaluationStore, toggles: seq<ToggleRequest>,
               evaluate: (EvaluatorClass, seq<EvaluationReport>, nat, MaturityModelItem) -> Outcome, now: int)
      requires store.Valid() && ReportsForTheirItem(evaluate)
      modifies store
      ensures store.Valid()
      ensures Db(store.reports, store.requests, store.lastId) ==
        RunProjects(Db(old(store.reports), old(store.requests), old(store.lastId)), registry.entries, toggles, evaluate, projects, items, now)
    {
      ghost var db0 := Db(store.reports, store.requests, store.lastId);
      for i := 0 to |projects|
        invariant store.Valid()
        invariant Db(store.reports, store.requests, store.lastId) ==
          RunProjects(db0, registry.entries, toggles, evaluate, projects[..i], items, now)
      {
        ghost var before := Db(store.reports, store.requests, store.lastId);
        var project := projects[i];
        for j := 0 to |items|
          invariant store.Valid()
          invariant Db(store.reports, store.requests, store.lastId) ==
            RunItems(before, registry.entries, toggles, evaluate, project, items[..j], now)
        {
          var item := items[j];
          assert items[..j + 1][..j] == items[..j];
          if IsDisabled(toggles, item.id, project, None) {
            continue;
          }
          var klass := registry.Get(item.evaluationType.kind);
          if klass.None? {
            continue;
          }
          EvaluateAndSaveReport(store, klass.value, evaluate, project, item, now);
        }
        assert items[..|items|] == items;
        assert projects[..i + 1][..i] == projects[..i];
      }
      assert projects[..|projects|] == projects;
    }
  }
}
