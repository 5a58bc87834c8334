/**
 * Goals: a set of maturity model items a project aims to pass by a due date.
 * A goal is on the road until its due date, and afterwards achieved exactly
 * when every one of its items has a passing latest report created on or
 * before that date.
 *
 * Dates are day numbers, times whole seconds; `offset` is the local zone's
 * offset from UTC in seconds.
 */
module Goals {
  import opened Common
  import opened Evaluations

  datatype GoalStatus = NotAchieved | Achieved | OnTheRoad

  function GoalStatusText(s: GoalStatus): string {
    match s
    case NotAchieved => "Not Achieved"
    case Achieved => "Achieved"
    case OnTheRoad => "On The Road"
  }

  /**
   * A goal of a project; `items` are the ids of its items, in query order.
   * The many-to-many relation holds each item at most once, so the sequence
   * has no repeats (`ItemsDistinct`).
   */
  datatype Goal = Goal(id: nat, project: nat, items: seq<nat>, dueDate: Option<int>, creationTime: int)

  /** A goal's items are listed once each, as the many-to-many relation stores them. */
  predicate ItemsDistinct(goal: Goal) {
    forall i, j :: 0 <= i < j < |goal.items| ==> goal.items[i] != goal.items[j]
  }

  /** The latest report of the item created on or before the due date, if any. */
  function LatestBeforeDueDate(goal: Goal, reports: seq<EvaluationReport>, offset: int, item: nat): Option<EvaluationReport> {
    GetLatest(reports, goal.project, item, goal.dueDate, offset)
  }

  /** The latest report before the due date of each item that has one, in item order. */
  function LatestReportsBeforeDueDate(goal: Goal, reports: seq<EvaluationReport>, offset: int, items: seq<nat>): (r: seq<EvaluationReport>)
    ensures |r| <= |items|
    ensures forall x :: x in r ==> exists i :: i in items && LatestBeforeDueDate(goal, reports, offset, i) == Some(x)
  {
    if items == [] then []
    else
      var latest := LatestBeforeDueDate(goal, reports, offset, items[0]);
      var rest := LatestReportsBeforeDueDate(goal, reports, offset, items[1..]);
      if latest.Some? then [latest.value] + rest else rest
  }

  /** The list of latest reports, built by appending in a loop over the goal's items. */
  method GetLatestEvaluationReportsBeforeDueDate(goal: Goal, reports: seq<EvaluationReport>, offset: int)
    returns (r: seq<EvaluationReport>)
    ensures r == LatestReportsBeforeDueDate(goal, reports, offset, goal.items)
  {
    r := [];
    var i := 0;
    while i < |goal.items|
      invariant 0 <= i <= |goal.items|
      invariant r + LatestReportsBeforeDueDate(goal, reports, offset, goal.items[i..]) ==
                LatestReportsBeforeDueDate(goal, reports, offset, goal.items)
    {
      var latest := LatestBeforeDueDate(goal, reports, offset, goal.items[i]);
      LatestReportsStep(goal, reports, offset, goal.items, i, r);
      if latest.Some? {
        r := r + [latest.value];
      }
      i := i + 1;
    }
    assert goal.items[i..] == [];
  }

  /** Dropping one more item from the front moves its latest report, if it has one, to the end of the prefix. */
  lemma LatestReportsStep(goal: Goal, reports: seq<EvaluationReport>, offset: int, items: seq<nat>, i: nat, r: seq<EvaluationReport>)
    requires i < |items|
    requires r + LatestReportsBeforeDueDate(goal, reports, offset, items[i..]) == LatestReportsBeforeDueDate(goal, reports, offset, items)
    ensures (var latest := LatestBeforeDueDate(goal, reports, offset, items[i]);
             (if latest.Some? then r + [latest.value] else r) + LatestReportsBeforeDueDate(goal, reports, offset, items[i + 1..])
             == LatestReportsBeforeDueDate(goal, reports, offset, items))
  {
    var latest := LatestBeforeDueDate(goal, reports, offset, items[i]);
    var tail := LatestReportsBeforeDueDate(goal, reports, offset, items[i + 1..]);
    LatestReportsUnfold(goal, reports, offset, items, i);
    if latest.Some? {
      AppendAssoc(r, [latest.value], tail);
    }
  }

  lemma LatestReportsUnfold(goal: Goal, reports: seq<EvaluationReport>, offset: int, items: seq<nat>, i: nat)
    requires i < |items|
    ensures LatestReportsBeforeDueDate(goal, reports, offset, items[i..]) ==
      (var latest := LatestBeforeDueDate(goal, reports, offset, items[i]);
       (if latest.Some? then [latest.value] else []) + LatestReportsBeforeDueDate(goal, reports, offset, items[i + 1..]))
  {
    assert items[i..][0] == items[i];
    assert items[i..][1..] == items[i + 1..];
  }

  /** How many items of the goal have a passing latest report before the due date. */
  function PassedCount(goal: Goal, reports: seq<EvaluationReport>, offset: int, items: seq<nat>): (n: nat)
    ensures n <= |items|
  {
    if items == [] then 0
    else
      var latest := LatestBeforeDueDate(goal, reports, offset, items[0]);
      (if latest.Some? && latest.value.status == Pass then 1 else 0) + PassedCount(goal, reports, offset, items[1..])
  }

  /** The passing reports among the latest ones are exactly the items counted as passed. */
  lemma {:induction false} PassedCountCountsPassingLatest(goal: Goal, reports: seq<EvaluationReport>, offset: int, items: seq<nat>)
    ensures PassedCount(goal, reports, offset, items) ==
      PassingCount(LatestReportsBeforeDueDate(goal, reports, offset, items))
  {
    if items != [] {
      PassedCountCountsPassingLatest(goal, reports, offset, items[1..]);
    }
  }

  /** The passed count of the goal, computed with a counter over the latest reports. */
  method PassedMaturityModelItemsCount(goal: Goal, reports: seq<EvaluationReport>, offset: int) returns (count: nat)
    ensures count == PassedCount(goal, reports, offset, goal.items)
    ensures count <= |goal.items|
  {
    var latest := GetLatestEvaluationReportsBeforeDueDate(goal, reports, offset);
    count := CountPassing(latest);
    PassedCountCountsPassingLatest(goal, reports, offset, goal.items);
  }

  /** The counter loop over the latest reports: one more for each passing report. */
  method CountPassing(latest: seq<EvaluationReport>) returns (count: nat)
    ensures count == PassingCount(latest)
  {
    count := 0;
    for i := 0 to |latest|
      invariant count == PassingCount(latest[..i])
    {
      assert latest[..i + 1] == latest[..i] + [latest[i]];
      PassingCountSnoc(latest[..i], latest[i]);
      if latest[i].status == Pass {
        count := count + 1;
      }
    }
    assert latest[..|latest|] == latest;
  }

  /** How many of the reports pass. */
  function PassingCount(s: seq<EvaluationReport>): (n: nat)
    ensures n <= |s|
  {
    if s == [] then 0 else (if s[0].status == Pass then 1 else 0) + PassingCount(s[1..])
  }

  /** Counting over one more report adds that report's count. */
  lemma {:induction false} PassingCountSnoc(s: seq<EvaluationReport>, x: EvaluationReport)
    ensures PassingCount(s + [x]) == PassingCount(s) + (if x.status == Pass then 1 else 0)
  {
    if s == [] {
      assert [x][1..] == [];
    } else {
      assert (s + [x])[1..] == s[1..] + [x];
      PassingCountSnoc(s[1..], x);
    }
  }

  /**
   * The goal's status on `today`: on the road before the due date (or without
   * one), then achieved exactly when every item passed.
   */
  function Status(goal: Goal, reports: seq<EvaluationReport>, offset: int, today: int): (s: GoalStatus)
    ensures s == OnTheRoad <==> goal.dueDate.None? || today < goal.dueDate.value
    ensures s == Achieved <==>
      goal.dueDate.Some? && today >= goal.dueDate.value && PassedCount(goal, reports, offset, goal.items) == |goal.items|
  {
    if goal.dueDate.None? || today < goal.dueDate.value then OnTheRoad
    else if PassedCount(goal, reports, offset, goal.items) == |goal.items| then Achieved
    else NotAchieved
  }

  /** An item without a report before the due date keeps a due goal from being achieved. */
  lemma {:induction false} MissingReportBlocksAchievement(goal: Goal, reports: seq<EvaluationReport>, offset: int, k: nat)
    requires k < |goal.items|
    requires LatestBeforeDueDate(goal, reports, offset, goal.items[k]).None?
    ensures PassedCount(goal, reports, offset, goal.items) < |goal.items|
  {
    PassedCountBelowWithGap(goal, reports, offset, goal.items, k);
  }

  lemma {:induction false} PassedCountBelowWithGap(goal: Goal, reports: seq<EvaluationReport>, offset: int, items: seq<nat>, k: nat)
    requires k < |items|
    requires LatestBeforeDueDate(goal, reports, offset, items[k]).None?
    ensures PassedCount(goal, reports, offset, items) < |items|
  {
    var first := LatestBeforeDueDate(goal, reports, offset, items[0]);
    var rest := items[1..];
    var c := if first.Some? && first.value.status == Pass then 1 else 0;
    assert PassedCount(goal, reports, offset, items) == c + PassedCount(goal, reports, offset, rest);
    assert |rest| + 1 == |items|;
    if k == 0 {
      assert c == 0;
    } else {
      assert rest[k - 1] == items[k];
      PassedCountBelowWithGap(goal, reports, offset, rest, k - 1);
    }
  }
}
