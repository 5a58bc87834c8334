/**
 * The maturity state of a project: for every level of its maturity model, in
 * order, the state of every item of that level (disabled, passed, closest goal,
 * pending requests), and the two summaries drawn from it: the index of the
 * highest level reached without a gap, and the number of enabled items that
 * passed.
 */
module ProjectMaturityStates {
  import opened Common
  import opened MaturityModels
  import opened Evaluations
  import opened Goals

  /**
   * The state of one item. `isPassed` and `closestGoal` stay unset for a
   * disabled item.
   */
  datatype ItemState = ItemState(
    item: MaturityModelItem, isDisabled: bool, isPassed: Option<bool>,
    latestEvaluationReport: Option<EvaluationReport>, failureReason: Option<string>,
    closestGoal: Option<Goal>, latestPendingEvaluationRequestId: Option<nat>,
    latestPendingToggleRequestId: Option<nat>)

  datatype LevelState = LevelState(level: MaturityModelLevel, itemStates: seq<ItemState>)

  datatype ProjectMaturityState = ProjectMaturityState(project: nat, levelStates: seq<LevelState>)

  /** The item counts as passed: an unset `isPassed` is as false as `false`. */
  predicate Passed(s: ItemState) {
    s.isPassed == Some(true)
  }

  /** Every item of the list passed or is disabled. */
  predicate AllPassedOrDisabled(items: seq<ItemState>) {
    forall i :: 0 <= i < |items| ==> Passed(items[i]) || items[i].isDisabled
  }

  /** Every item of the level passed or is disabled. */
  predicate LevelAchieved(l: LevelState) {
    AllPassedOrDisabled(l.itemStates)
  }

  /** The number of leading levels that are all achieved. */
  function AchievedPrefix(levels: seq<LevelState>): (n: nat)
    ensures n <= |levels|
  {
    if levels == [] || !LevelAchieved(levels[0]) then 0 else 1 + AchievedPrefix(levels[1..])
  }

  /** The achieved prefix is exactly the run of achieved levels from the first. */
  lemma {:induction false} AchievedPrefixIsMaximalRun(levels: seq<LevelState>)
    ensures forall k :: 0 <= k < AchievedPrefix(levels) ==> LevelAchieved(levels[k])
    ensures AchievedPrefix(levels) < |levels| ==> !LevelAchieved(levels[AchievedPrefix(levels)])
  {
    if levels != [] && LevelAchieved(levels[0]) {
      AchievedPrefixIsMaximalRun(levels[1..]);
      forall k | 0 < k < AchievedPrefix(levels)
        ensures LevelAchieved(levels[k])
      {
        assert levels[k] == levels[1..][k - 1];
      }
    }
  }

  /**
   * The index of the last level of the unbroken run of achieved levels from
   * the first, or nothing when the first level is not achieved; the scan stops
   * at the first level that is not achieved, whatever follows it.
   */
  method AchievedLevelIndex(state: ProjectMaturityState) returns (r: Option<nat>)
    ensures r.None? <==> state.levelStates == [] || !LevelAchieved(state.levelStates[0])
    ensures r.Some? ==> (
      r.value < |state.levelStates| &&
      (forall k :: 0 <= k <= r.value ==> LevelAchieved(state.levelStates[k])) &&
      (r.value + 1 < |state.levelStates| ==> !LevelAchieved(state.levelStates[r.value + 1])))
    ensures r == if AchievedPrefix(state.levelStates) == 0 then None else Some(AchievedPrefix(state.levelStates) - 1)
  {
    var levels := state.levelStates;
    AchievedPrefixIsMaximalRun(levels);
    r := None;
    var index := 0;
    while index < |levels|
      invariant 0 <= index <= |levels|
      invariant forall k :: 0 <= k < index ==> LevelAchieved(levels[k])
      invariant r == if index == 0 then None else Some(index - 1)
    {
      if LevelAchieved(levels[index]) {
        r := Some(index);
      } else {
        break;
      }
      index := index + 1;
    }
  }

  /** Enabled items of the list that passed. */
  function PassedEnabledIn(items: seq<ItemState>): (n: nat)
    ensures n <= EnabledIn(items)
  {
    if items == [] then 0
    else (if !items[0].isDisabled && Passed(items[0]) then 1 else 0) + PassedEnabledIn(items[1..])
  }

  /** Enabled items of the list. */
  function EnabledIn(items: seq<ItemState>): nat {
    if items == [] then 0 else (if !items[0].isDisabled then 1 else 0) + EnabledIn(items[1..])
  }

  /** The number of enabled items, over all levels, that passed. */
  function PassedEnabledItemsCount(levels: seq<LevelState>): (n: nat)
    ensures n <= EnabledItemsCount(levels)
  {
    if levels == [] then 0 else PassedEnabledIn(levels[0].itemStates) + PassedEnabledItemsCount(levels[1..])
  }

  /** The number of enabled items over all levels. */
  function EnabledItemsCount(levels: seq<LevelState>): nat {
    if levels == [] then 0 else EnabledIn(levels[0].itemStates) + EnabledItemsCount(levels[1..])
  }

  /** Within a level: every enabled item counted as passed exactly when the level is achieved. */
  lemma {:induction false} PassedEnabledInIsFullIff(items: seq<ItemState>)
    ensures PassedEnabledIn(items) == EnabledIn(items) <==> AllPassedOrDisabled(items)
  {
    if items != [] {
      PassedEnabledInIsFullIff(items[1..]);
      if AllPassedOrDisabled(items) {
        forall i | 0 <= i < |items[1..]|
          ensures Passed(items[1..][i]) || items[1..][i].isDisabled
        {
          assert items[1..][i] == items[i + 1];
        }
        assert AllPassedOrDisabled(items[1..]);
      }
      if PassedEnabledIn(items) == EnabledIn(items) {
        assert PassedEnabledIn(items[1..]) <= EnabledIn(items[1..]);
        forall i | 0 <= i < |items|
          ensures Passed(items[i]) || items[i].isDisabled
        {
          if i > 0 {
            assert items[i] == items[1..][i - 1];
          }
        }
      }
    }
  }

  /**
   * The passed count reaches the number of enabled items exactly when every
   * level is achieved, that is when the achieved index is the last level.
   */
  lemma {:induction false} AllLevelsAchievedIff(levels: seq<LevelState>)
    ensures PassedEnabledItemsCount(levels) == EnabledItemsCount(levels) <==>
      forall k :: 0 <= k < |levels| ==> LevelAchieved(levels[k])
  {
    if levels != [] {
      AllLevelsAchievedIff(levels[1..]);
      PassedEnabledInIsFullIff(levels[0].itemStates);
      if forall k :: 0 <= k < |levels| ==> LevelAchieved(levels[k]) {
        forall k | 0 <= k < |levels[1..]|
          ensures LevelAchieved(levels[1..][k])
        {
          assert levels[1..][k] == levels[k + 1];
        }
      }
      if PassedEnabledItemsCount(levels) == EnabledItemsCount(levels) {
        assert PassedEnabledIn(levels[0].itemStates) <= EnabledIn(levels[0].itemStates);
        forall k | 0 <= k < |levels|
          ensures LevelAchieved(levels[k])
        {
          if k > 0 {
            assert levels[k] == levels[1..][k - 1];
          }
        }
      }
    }
  }
}
