/**
 * Assembling a project's maturity state: the status rule of an item, the
 * queries the assembly runs once per project (latest approved toggle requests
 * per item, closest goal per item, pending requests, latest evaluation report
 * per item) and the lookups that pick an item's entry out of them.
 *
 * A query's result is a sequence in the order the database returns it; the
 * "distinct per item" queries keep one row per item, the one their ordering
 * puts first.
 */
module ProjectRetrieve {
  import opened Common
  import opened MaturityModels
  import opened Evaluations
  import opened Goals
  import opened ProjectMaturityStates

  const FailStatus: string := "Fail"
  const PassStatus: string := "Pass"

  const NoEvaluationReportFound: string := "Not evaluated yet"
  const OutOfValidityPeriod: string := "Latest passed evaluation is expired, due to the validity period"
  const LastEvaluationFailed: string := "Latest evaluation has marked the item as failed"

  /**
   * The status of an item and, when it fails, why: no report, a failing latest
   * report (whether or not it has also expired), or an expired passing one.
   */
  function GetMaturityModelItemStatus(item: MaturityModelItem, latest: Option<EvaluationReport>, now: int): (r: (string, Option<string>))
    ensures r.0 == PassStatus <==> r.1.None?
    ensures r.0 == PassStatus <==> latest.Some? && latest.value.status == Pass && IsInValidityPeriod(latest.value, item, now)
    ensures r.0 != PassStatus ==> r.0 == FailStatus
    ensures latest.None? ==> r.1 == Some(NoEvaluationReportFound)
    ensures latest.Some? && latest.value.status != Pass ==> r.1 == Some(LastEvaluationFailed)
    ensures latest.Some? && latest.value.status == Pass && !IsInValidityPeriod(latest.value, item, now) ==>
      r.1 == Some(OutOfValidityPeriod)
  {
    if latest.None? then (FailStatus, Some(NoEvaluationReportFound))
    else if latest.value.status != Pass then (FailStatus, Some(LastEvaluationFailed))
    else if !IsInValidityPeriod(latest.value, item, now) then (FailStatus, Some(OutOfValidityPeriod))
    else (PassStatus, None)
  }

  // ---------------------------------------------------------------------------
  // Toggle requests
  // ---------------------------------------------------------------------------

  /** The request is the latest approved one of its own item at `now`. */
  predicate LatestApprovedOfItsItem(toggles: seq<ToggleRequest>, project: nat, now: int, t: ToggleRequest) {
    ApprovedFor(t, t.item, project, Some(now)) &&
    LatestApprovedToggleRequest(toggles, t.item, project, Some(now)) == Some(t)
  }

  /**
   * The approved requests of the project created by `now`, one per item: the
   * one created last.
   */
  function LatestApprovedToggleRequests(toggles: seq<ToggleRequest>, project: nat, now: int): (q: seq<ToggleRequest>)
    ensures forall t :: t in q <==> t in toggles && LatestApprovedOfItsItem(toggles, project, now, t)
  {
    var p := (t: ToggleRequest) => LatestApprovedOfItsItem(toggles, project, now, t);
    FilterMembers(toggles, p);
    Filter(toggles, p)
  }

  /** The `disable` flag of the first request of the item in the query, false when there is none. */
  function IsItemDisabled(item: nat, q: seq<ToggleRequest>): (r: bool)
    ensures (forall t :: t in q ==> t.item != item) ==> !r
    ensures r ==> exists t :: t in q && t.item == item && t.disable
  {
    var first := FindFirst(q, (t: ToggleRequest) => t.item == item);
    first.Some? && first.value.disable
  }

  /**
   * Looking an item up in the query of latest approved requests gives what the
   * item's own `is_disabled` at `now` gives.
   */
  lemma IsItemDisabledAgreesWithIsDisabled(toggles: seq<ToggleRequest>, project: nat, now: int, item: nat)
    ensures IsItemDisabled(item, LatestApprovedToggleRequests(toggles, project, now)) ==
            IsDisabled(toggles, item, project, Some(now))
  {
    var q := LatestApprovedToggleRequests(toggles, project, now);
    var latest := LatestApprovedToggleRequest(toggles, item, project, Some(now));
    var first := FindFirst(q, (t: ToggleRequest) => t.item == item);
    if latest.Some? {
      assert latest.value in q;
    }
    if first.Some? {
      assert first.value in q;
    }
  }

  /** Every coverage item of the model (those of the given kind) is disabled; true when there is none. */
  function CoverageItemsDisabled(itemIds: seq<nat>, q: seq<ToggleRequest>): (r: bool)
    ensures r <==> forall i :: 0 <= i < |itemIds| ==> IsItemDisabled(itemIds[i], q)
  {
    if itemIds == [] then true
    else if !IsItemDisabled(itemIds[0], q) then false
    else
      var rest := CoverageItemsDisabled(itemIds[1..], q);
      assert forall i :: 1 <= i < |itemIds| ==> itemIds[i] == itemIds[1..][i - 1];
      rest
  }

  function LevelIdsOfKind(items: seq<MaturityModelItem>, kind: Kind): seq<nat> {
    MapSeq(Filter(items, (x: MaturityModelItem) => x.evaluationType.kind == kind), (x: MaturityModelItem) => x.id)
  }

  lemma LevelIdsOfKindMembers(items: seq<MaturityModelItem>, kind: Kind)
    ensures forall i :: i in LevelIdsOfKind(items, kind) ==> exists x :: x in items && x.id == i && x.evaluationType.kind == kind
  {
    var ofKind := (x: MaturityModelItem) => x.evaluationType.kind == kind;
    var kept := Filter(items, ofKind);
    var here := LevelIdsOfKind(items, kind);
    FilterMembers(items, ofKind);
    forall i | i in here
      ensures exists x :: x in items && x.id == i && x.evaluationType.kind == kind
    {
      var k :| 0 <= k < |here| && here[k] == i;
      assert kept[k] in kept;
    }
  }

  /** The ids of the model's items of the given kind, in order. */
  function ItemIdsOfKind(levels: seq<MaturityModelLevel>, kind: Kind): (ids: seq<nat>)
    ensures forall i :: i in ids ==> exists l, x :: l in levels && x in l.items && x.id == i && x.evaluationType.kind == kind
  {
    if levels == [] then []
    else
      var level := levels[0];
      var here := LevelIdsOfKind(level.items, kind);
      var rest := ItemIdsOfKind(levels[1..], kind);
      LevelIdsOfKindMembers(level.items, kind);
      here + rest
  }

  /** Whether every overall-coverage item of the project is disabled at `now`. */
  function OverallCoverageItemsDisabled(model: MaturityModel, toggles: seq<ToggleRequest>, project: nat, now: int): (r: bool)
    ensures r <==> forall i :: i in ItemIdsOfKind(model.levels, TestCoverage) ==> IsDisabled(toggles, i, project, Some(now))
  {
    var ids := ItemIdsOfKind(model.levels, TestCoverage);
    var q := LatestApprovedToggleRequests(toggles, project, now);
    forall i | i in ids
      ensures IsItemDisabled(i, q) == IsDisabled(toggles, i, project, Some(now))
    {
      IsItemDisabledAgreesWithIsDisabled(toggles, project, now, i);
    }
    CoverageItemsDisabled(ids, q)
  }

  /** Whether every incremental-coverage item of the project is disabled at `now`. */
  function IncrementalCoverageItemsDisabled(model: MaturityModel, toggles: seq<ToggleRequest>, project: nat, now: int): (r: bool)
    ensures r <==> forall i :: i in ItemIdsOfKind(model.levels, IncrementalTestCoverage) ==> IsDisabled(toggles, i, project, Some(now))
  {
    var ids := ItemIdsOfKind(model.levels, IncrementalTestCoverage);
    var q := LatestApprovedToggleRequests(toggles, project, now);
    forall i | i in ids
      ensures IsItemDisabled(i, q) == IsDisabled(toggles, i, project, Some(now))
    {
      IsItemDisabledAgreesWithIsDisabled(toggles, project, now, i);
    }
    CoverageItemsDisabled(ids, q)
  }

  // ---------------------------------------------------------------------------
  // Goals
  // ---------------------------------------------------------------------------

  /** A goal annotated with one of its items: one row per (goal, item) pair. */
  datatype GoalRow = GoalRow(item: nat, goal: Goal)

  function RowsOfGoal(g: Goal): (rows: seq<GoalRow>)
    ensures forall r :: r in rows <==> r.goal == g && r.item in g.items
  {
    var rows := MapSeq(g.items, (i: nat) => GoalRow(i, g));
    assert forall i :: i in g.items ==> GoalRow(i, g) in rows by {
      forall i | i in g.items
        ensures GoalRow(i, g) in rows
      {
        var k :| 0 <= k < |g.items| && g.items[k] == i;
        assert rows[k] == GoalRow(i, g);
      }
    }
    rows
  }

  function GoalRows(goals: seq<Goal>): (rows: seq<GoalRow>)
    ensures forall r :: r in rows <==> r.goal in goals && r.item in r.goal.items
  {
    if goals == [] then []
    else
      var rest := GoalRows(goals[1..]);
      assert forall g :: g in goals <==> g == goals[0] || g in goals[1..];
      RowsOfGoal(goals[0]) + rest
  }

  /** The row belongs to a goal of the project that is still ahead of `today`. */
  predicate Upcoming(r: GoalRow, project: nat, today: int) {
    r.goal.project == project && r.goal.dueDate.Some? && r.goal.dueDate.value > today
  }

  /** The upcoming rows of the item, closest due date last when negated. */
  function UpcomingRowsOf(goals: seq<Goal>, project: nat, today: int, item: nat): seq<GoalRow> {
    Filter(GoalRows(goals), (r: GoalRow) => r.item == item && Upcoming(r, project, today))
  }

  /** The upcoming row of the item with the earliest due date. */
  function ClosestRowOf(goals: seq<Goal>, project: nat, today: int, item: nat): (r: Option<GoalRow>)
    ensures r.None? <==> forall g :: g in goals && g.project == project && item in g.items ==>
      g.dueDate.None? || g.dueDate.value <= today
    ensures r.Some? ==> (
      r.value.item == item && r.value.goal in goals && item in r.value.goal.items &&
      Upcoming(r.value, project, today) &&
      forall g :: g in goals && item in g.items && Upcoming(GoalRow(item, g), project, today) ==>
        r.value.goal.dueDate.value <= g.dueDate.value)
  {
    var rows := UpcomingRowsOf(goals, project, today, item);
    FilterMembers(GoalRows(goals), (r: GoalRow) => r.item == item && Upcoming(r, project, today));
    var found := LatestBy(rows, (x: GoalRow) => if x.goal.dueDate.Some? then -x.goal.dueDate.value else 0);
    assert forall g :: g in goals && item in g.items && Upcoming(GoalRow(item, g), project, today) ==> GoalRow(item, g) in rows;
    found
  }

  /**
   * The closest-goals query: the upcoming goals of the project, one row per
   * item, the one with the earliest due date.
   */
  function ClosestGoals(goals: seq<Goal>, project: nat, today: int): (q: seq<GoalRow>)
    ensures forall r :: r in q <==> r in GoalRows(goals) && Upcoming(r, project, today) && ClosestRowOf(goals, project, today, r.item) == Some(r)
  {
    var p := (r: GoalRow) => Upcoming(r, project, today) && ClosestRowOf(goals, project, today, r.item) == Some(r);
    FilterMembers(GoalRows(goals), p);
    Filter(GoalRows(goals), p)
  }

  /** The goal of the first row of the item, if any. */
  function GetClosestGoalOfItem(item: nat, q: seq<GoalRow>): (g: Option<Goal>)
    ensures g.None? <==> forall r :: r in q ==> r.item != item
    ensures g.Some? ==> GoalRow(item, g.value) in q
  {
    var first := FindFirst(q, (r: GoalRow) => r.item == item);
    if first.None? then None else Some(first.value.goal)
  }

  /**
   * The goal an item's state shows: one of the project's goals holding the item
   * with a due date after `today`, and the earliest such; none when there is none.
   */
  lemma ClosestGoalIsEarliestUpcoming(goals: seq<Goal>, project: nat, today: int, item: nat)
    ensures GetClosestGoalOfItem(item, ClosestGoals(goals, project, today)).None? <==>
      forall g :: g in goals && g.project == project && item in g.items ==> g.dueDate.None? || g.dueDate.value <= today
    ensures GetClosestGoalOfItem(item, ClosestGoals(goals, project, today)).Some? ==>
      var g := GetClosestGoalOfItem(item, ClosestGoals(goals, project, today)).value;
      g in goals && g.project == project && item in g.items && g.dueDate.Some? && g.dueDate.value > today &&
      forall h :: h in goals && h.project == project && item in h.items && h.dueDate.Some? && h.dueDate.value > today ==>
        g.dueDate.value <= h.dueDate.value
  {
    var q := ClosestGoals(goals, project, today);
    var closest := ClosestRowOf(goals, project, today, item);
    var found := GetClosestGoalOfItem(item, q);
    if closest.Some? {
      assert closest.value in GoalRows(goals);
      assert closest.value in q;
    }
    if found.Some? {
      assert GoalRow(item, found.value) in q;
    }
  }

  // ---------------------------------------------------------------------------
  // Pending requests
  // ---------------------------------------------------------------------------

  /** The pending evaluation requests of the project. */
  function PendingEvaluationRequests(requests: seq<EvaluationRequest>, project: nat): (q: seq<EvaluationRequest>)
    ensures forall x :: x in q <==> x in requests && x.project == project && x.status == Pending
  {
    var p := (x: EvaluationRequest) => x.project == project && x.status == Pending;
    FilterMembers(requests, p);
    Filter(requests, p)
  }

  /** The pending toggle requests of the project. */
  function PendingToggleRequests(toggles: seq<ToggleRequest>, project: nat): (q: seq<ToggleRequest>)
    ensures forall t :: t in q <==> t in toggles && t.project == project && t.approval.None?
  {
    var p := (t: ToggleRequest) => t.project == project && t.approval.None?;
    FilterMembers(toggles, p);
    Filter(toggles, p)
  }

  /** The id of the first request of the item in the query, if any. */
  function GetLatestPendingEvaluationRequestIdForItem(item: nat, q: seq<EvaluationRequest>): (id: Option<nat>)
    ensures id.None? <==> forall x :: x in q ==> x.item != item
    ensures id.Some? ==> exists k :: (0 <= k < |q| && q[k].item == item && q[k].id == id.value &&
      forall j :: 0 <= j < k ==> q[j].item != item)
  {
    var first := FindFirst(q, (x: EvaluationRequest) => x.item == item);
    if first.None? then None else Some(first.value.id)
  }

  /** The id of the first toggle request of the item in the query, if any. */
  function GetLatestPendingToggleRequestIdForItem(item: nat, q: seq<ToggleRequest>): (id: Option<nat>)
    ensures id.None? <==> forall t :: t in q ==> t.item != item
    ensures id.Some? ==> exists k :: (0 <= k < |q| && q[k].item == item && q[k].id == id.value &&
      forall j :: 0 <= j < k ==> q[j].item != item)
  {
    var first := FindFirst(q, (t: ToggleRequest) => t.item == item);
    if first.None? then None else Some(first.value.id)
  }

  /** A pending request of the project is found for its item; a request of another project never is. */
  lemma PendingEvaluationRequestIsFound(requests: seq<EvaluationRequest>, project: nat, x: EvaluationRequest)
    requires x in requests && x.project == project && x.status == Pending
    ensures GetLatestPendingEvaluationRequestIdForItem(x.item, PendingEvaluationRequests(requests, project)).Some?
  {
    assert x in PendingEvaluationRequests(requests, project);
  }

  // ---------------------------------------------------------------------------
  // Latest evaluation reports
  // ---------------------------------------------------------------------------

  /** `a` comes no later than `b` in the order (latest evaluation time, then creation time). */
  predicate NotAfter(a: EvaluationReport, b: EvaluationReport) {
    a.latestEvaluationTime < b.latestEvaluationTime ||
    (a.latestEvaluationTime == b.latestEvaluationTime && a.creationTime <= b.creationTime)
  }

  /** A report that comes last in that order. */
  function MostRecent(s: seq<EvaluationReport>): (r: Option<EvaluationReport>)
    ensures r.None? <==> s == []
    ensures r.Some? ==> r.value in s && forall x :: x in s ==> NotAfter(x, r.value)
  {
    if s == [] then None
    else
      var rest := MostRecent(s[1..]);
      assert forall x :: x in s <==> x == s[0] || x in s[1..];
      if rest.None? || !NotAfter(s[0], rest.value) then Some(s[0]) else rest
  }

  predicate ReportCandidate(x: EvaluationReport, project: nat, now: int, item: nat) {
    x.project == project && x.creationTime <= now && x.item == item
  }

  /**
   * The latest evaluation report of the item for the project among those
   * created by `now`: the one with the latest evaluation time, then the latest
   * creation time.
   */
  function LatestEvaluationReportOf(reports: seq<EvaluationReport>, project: nat, now: int, item: nat): (r: Option<EvaluationReport>)
    ensures r.None? <==> forall x :: x in reports ==> !ReportCandidate(x, project, now, item)
    ensures r.Some? ==> r.value in reports && ReportCandidate(r.value, project, now, item)
    ensures r.Some? ==> forall x :: x in reports && ReportCandidate(x, project, now, item) ==> NotAfter(x, r.value)
  {
    var p := (x: EvaluationReport) => ReportCandidate(x, project, now, item);
    FilterMembers(reports, p);
    var candidates := Filter(reports, p);
    assert forall x :: x in reports && ReportCandidate(x, project, now, item) ==> x in candidates;
    MostRecent(candidates)
  }

  /** The prefetch query: the latest report of every listed item that has one. */
  function LatestEvaluationReports(reports: seq<EvaluationReport>, project: nat, now: int, ids: seq<nat>): (m: map<nat, EvaluationReport>)
    ensures forall i :: i in m <==> i in ids && LatestEvaluationReportOf(reports, project, now, i).Some?
    ensures forall i :: i in m ==> m[i] == LatestEvaluationReportOf(reports, project, now, i).value
  {
    map i | i in ids && LatestEvaluationReportOf(reports, project, now, i).Some? :: LatestEvaluationReportOf(reports, project, now, i).value
  }

  const NotPrefetched: string := "The given item id is not specified in the prefetched items."

  /**
   * The latest-report finder of a project at a given time, over the stored
   * reports. Once prefetched, it answers only for the prefetched items, from
   * the prefetched map; before, it queries for the one item asked about.
   */
  class LatestEvaluationReportFinder {
    const project: nat
    const now: int
    const reports: seq<EvaluationReport>
    var isPrefetched: bool
    var prefetchIds: seq<nat>
    var prefetched: map<nat, EvaluationReport>

    ghost predicate Valid()
      reads this
    {
      isPrefetched ==> prefetched == LatestEvaluationReports(reports, project, now, prefetchIds)
    }

    constructor(project: nat, now: int, reports: seq<EvaluationReport>)
      ensures Valid()
      ensures this.project == project && this.now == now && this.reports == reports
      ensures !isPrefetched && prefetchIds == [] && prefetched == map[]
    {
      this.project := project;
      this.now := now;
      this.reports := reports;
      isPrefetched := false;
      prefetchIds := [];
      prefetched := map[];
    }

    method Prefetch(ids: seq<nat>)
      modifies this
      ensures Valid()
      ensures isPrefetched && prefetchIds == ids
      ensures prefetched == LatestEvaluationReports(reports, project, now, ids)
    {
      prefetched := LatestEvaluationReports(reports, project, now, ids);
      prefetchIds := ids;
      isPrefetched := true;
    }

    /**
     * The latest report of the item. After a prefetch that did not list the
     * item it fails; otherwise the answer does not depend on whether the
     * reports were prefetched.
     */
    method Get(item: nat) returns (r: Result<Option<EvaluationReport>>)
      requires Valid()
      ensures r.Err? <==> isPrefetched && item !in prefetchIds
      ensures r.Ok? ==> r.value == LatestEvaluationReportOf(reports, project, now, item)
    {
      if isPrefetched && item !in prefetchIds {
        return Err(NotPrefetched);
      }
      if isPrefetched {
        if item in prefetched {
          r := Ok(Some(prefetched[item]));
        } else {
          r := Ok(None);
        }
      } else {
        r := Ok(LatestEvaluationReportOf(reports, project, now, item));
      }
    }
  }

  // ---------------------------------------------------------------------------
  // The maturity state
  // ---------------------------------------------------------------------------

  /** The stored rows the maturity state is read from, and the time it is read at. */
  datatype Snapshot = Snapshot(
    project: nat, now: int, offset: int,
    reports: seq<EvaluationReport>, toggles: seq<ToggleRequest>,
    requests: seq<EvaluationRequest>, goals: seq<Goal>)

  /** The ids of all items of the model, level by level. */
  function AllItemIds(levels: seq<MaturityModelLevel>): (ids: seq<nat>)
    ensures forall l, x :: l in levels && x in l.items ==> x.id in ids
  {
    if levels == [] then []
    else
      var here := MapSeq(levels[0].items, (x: MaturityModelItem) => x.id);
      var rest := AllItemIds(levels[1..]);
      assert forall x :: x in levels[0].items ==> x.id in here by {
        forall x | x in levels[0].items
          ensures x.id in here
        {
          var k :| 0 <= k < |levels[0].items| && levels[0].items[k] == x;
          assert here[k] == x.id;
        }
      }
      assert forall l :: l in levels ==> l == levels[0] || l in levels[1..];
      here + rest
  }

  /** The results of the queries the assembly runs once for the project. */
  datatype Queries = Queries(
    approved: seq<ToggleRequest>, pendingEvaluations: seq<EvaluationRequest>,
    pendingToggles: seq<ToggleRequest>, closestGoals: seq<GoalRow>)

  function QueriesOf(db: Snapshot): Queries {
    Queries(
      LatestApprovedToggleRequests(db.toggles, db.project, db.now),
      PendingEvaluationRequests(db.requests, db.project),
      PendingToggleRequests(db.toggles, db.project),
      ClosestGoals(db.goals, db.project, LocalDate(db.now, db.offset)))
  }

  /** The state of one item, read from the query results and the item's latest report. */
  function ItemStateFrom(q: Queries, latest: Option<EvaluationReport>, now: int, item: MaturityModelItem): (s: ItemState)
    ensures s.item == item && s.latestEvaluationReport.None? && s.failureReason.None?
  {
    var disabled := IsItemDisabled(item.id, q.approved);
    var base := ItemState(
      item, disabled, None, None, None, None,
      GetLatestPendingEvaluationRequestIdForItem(item.id, q.pendingEvaluations),
      GetLatestPendingToggleRequestIdForItem(item.id, q.pendingToggles));
    if disabled then base
    else
      var status := GetMaturityModelItemStatus(item, latest, now);
      base.(isPassed := Some(status.0 == PassStatus),
            closestGoal := GetClosestGoalOfItem(item.id, q.closestGoals))
  }

  /** The state of one item of the project. */
  function ItemStateOf(db: Snapshot, item: MaturityModelItem): (s: ItemState)
    ensures s.item == item && s.latestEvaluationReport.None? && s.failureReason.None?
  {
    ItemStateFrom(QueriesOf(db), LatestEvaluationReportOf(db.reports, db.project, db.now, item.id), db.now, item)
  }

  /** The states of the items, in order. */
  function ItemStates(db: Snapshot, items: seq<MaturityModelItem>): (s: seq<ItemState>)
    ensures |s| == |items|
  {
    if items == [] then [] else ItemStates(db, items[..|items| - 1]) + [ItemStateOf(db, items[|items| - 1])]
  }

  lemma ItemStatesAt(db: Snapshot, items: seq<MaturityModelItem>, k: nat)
    requires k < |items|
    ensures ItemStates(db, items)[k] == ItemStateOf(db, items[k])
  {
    if k < |items| - 1 {
      ItemStatesAt(db, items[..|items| - 1], k);
    }
  }

  function LevelStateOf(db: Snapshot, level: MaturityModelLevel): (s: LevelState)
    ensures s.level == level && |s.itemStates| == |level.items|
  {
    LevelState(level, ItemStates(db, level.items))
  }

  /** The states of the levels, in order. */
  function LevelStates(db: Snapshot, levels: seq<MaturityModelLevel>): (s: seq<LevelState>)
    ensures |s| == |levels|
  {
    if levels == [] then [] else LevelStates(db, levels[..|levels| - 1]) + [LevelStateOf(db, levels[|levels| - 1])]
  }

  lemma LevelStatesAt(db: Snapshot, levels: seq<MaturityModelLevel>, k: nat)
    requires k < |levels|
    ensures LevelStates(db, levels)[k] == LevelStateOf(db, levels[k])
  {
    if k < |levels| - 1 {
      LevelStatesAt(db, levels[..|levels| - 1], k);
    }
  }

  /** The state of the project: one level state per level and one item state per item, in order. */
  function ProjectStateOf(db: Snapshot, model: MaturityModel): (s: ProjectMaturityState)
    ensures s.project == db.project && |s.levelStates| == |model.levels|
  {
    ProjectMaturityState(db.project, LevelStates(db, model.levels))
  }

  /** The state has one entry per level and per item, in the model's order. */
  lemma StateFollowsModel(db: Snapshot, model: MaturityModel, k: nat, j: nat)
    requires k < |model.levels| && j < |model.levels[k].items|
    ensures ProjectStateOf(db, model).levelStates[k].level == model.levels[k]
    ensures |ProjectStateOf(db, model).levelStates[k].itemStates| == |model.levels[k].items|
    ensures ProjectStateOf(db, model).levelStates[k].itemStates[j] == ItemStateOf(db, model.levels[k].items[j])
  {
    LevelStatesAt(db, model.levels, k);
    ItemStatesAt(db, model.levels[k].items, j);
  }

  /**
   * What an item's state says: disabled exactly when its latest approved toggle
   * request at `now` disables it; a disabled item has no verdict and no goal;
   * an enabled item passes exactly when its latest report passes and is still
   * valid, and shows its earliest upcoming goal.
   */
  lemma ItemStateMeaning(db: Snapshot, item: MaturityModelItem)
    ensures ItemStateOf(db, item).isDisabled == IsDisabled(db.toggles, item.id, db.project, Some(db.now))
    ensures ItemStateOf(db, item).isDisabled ==> ItemStateOf(db, item).isPassed.None? && ItemStateOf(db, item).closestGoal.None?
    ensures !ItemStateOf(db, item).isDisabled ==>
      var latest := LatestEvaluationReportOf(db.reports, db.project, db.now, item.id);
      ItemStateOf(db, item).isPassed ==
        Some(latest.Some? && latest.value.status == Pass && IsInValidityPeriod(latest.value, item, db.now))
  {
    IsItemDisabledAgreesWithIsDisabled(db.toggles, db.project, db.now, item.id);
  }

  /** The state of one item, read from the queries run once for the project. */
  method ComputeItemState(db: Snapshot, finder: LatestEvaluationReportFinder, item: MaturityModelItem, queries: Queries)
    returns (itemState: ItemState)
    requires finder.Valid() && finder.isPrefetched && item.id in finder.prefetchIds
    requires finder.project == db.project && finder.now == db.now && finder.reports == db.reports
    requires queries == QueriesOf(db)
    ensures itemState == ItemStateOf(db, item)
  {
    var disabled := IsItemDisabled(item.id, queries.approved);
    itemState := ItemState(
      item, disabled, None, None, None, None,
      GetLatestPendingEvaluationRequestIdForItem(item.id, queries.pendingEvaluations),
      GetLatestPendingToggleRequestIdForItem(item.id, queries.pendingToggles));
    if !disabled {
      var latest := finder.Get(item.id);
      var status := GetMaturityModelItemStatus(item, latest.value, db.now);
      itemState := itemState.(isPassed := Some(status.0 == PassStatus),
                              closestGoal := GetClosestGoalOfItem(item.id, queries.closestGoals));
    }
  }

  /** The state of one level, item by item. */
  method ComputeLevelState(db: Snapshot, finder: LatestEvaluationReportFinder, level: MaturityModelLevel, queries: Queries)
    returns (levelState: LevelState)
    requires finder.Valid() && finder.isPrefetched
    requires forall x :: x in level.items ==> x.id in finder.prefetchIds
    requires finder.project == db.project && finder.now == db.now && finder.reports == db.reports
    requires queries == QueriesOf(db)
    ensures levelState == LevelStateOf(db, level)
  {
    var itemStates: seq<ItemState> := [];
    for j := 0 to |level.items|
      invariant itemStates == ItemStates(db, level.items[..j])
    {
      assert level.items[j] in level.items;
      var itemState := ComputeItemState(db, finder, level.items[j], queries);
      assert level.items[..j + 1][..j] == level.items[..j];
      itemStates := itemStates + [itemState];
    }
    assert level.items[..|level.items|] == level.items;
    levelState := LevelState(level, itemStates);
  }

  /**
   * The maturity state of the project, assembled level by level and item by
   * item, with the latest reports of all the model's items prefetched once.
   */
  method GetProjectMaturityState(db: Snapshot, model: MaturityModel) returns (state: ProjectMaturityState)
    ensures state == ProjectStateOf(db, model)
  {
    var finder := new LatestEvaluationReportFinder(db.project, db.now, db.reports);
    var allIds := AllItemIds(model.levels);
    finder.Prefetch(allIds);
    var queries := Queries(
      LatestApprovedToggleRequests(db.toggles, db.project, db.now),
      PendingEvaluationRequests(db.requests, db.project),
      PendingToggleRequests(db.toggles, db.project),
      ClosestGoals(db.goals, db.project, LocalDate(db.now, db.offset)));

    var levelStates: seq<LevelState> := [];
    for i := 0 to |model.levels|
      invariant finder.Valid() && finder.isPrefetched && finder.prefetchIds == allIds
      invariant levelStates == LevelStates(db, model.levels[..i])
    {
      assert model.levels[i] in model.levels;
      var levelState := ComputeLevelState(db, finder, model.levels[i], queries);
      assert model.levels[..i + 1][..i] == model.levels[..i];
      levelStates := levelStates + [levelState];
    }
    assert model.levels[..|model.levels|] == model.levels;
    state := ProjectMaturityState(db.project, levelStates);
  }
}
