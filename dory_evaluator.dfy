/**
 * The Dory evaluator. An item without an acceptable value is judged by the
 * latest Dory evaluation completed in the checking period; an item with one
 * (a percentage) by the share of passing results over all the evaluations
 * completed in the period that have a result for the item.
 */
module DoryEvaluator {
  import opened Common
  import opened Numbers
  import opened MaturityModels
  import opened Evaluations
  import opened DoryModels

  const NotANumber: string := "could not convert string to float"
  const PercentageTypeRequired: string :=
    "Maturity items that are evaluated by Dory and has an 'acceptable_value', must have 'acceptable_value_type' of percentage. "

  function StatusWord(passed: bool): string {
    if passed then "Passed" else "Failed"
  }

  // ---------------------------------------------------------------------------
  // Latest evaluation strategy
  // ---------------------------------------------------------------------------

  function LatestDescription(evaluationId: nat, passed: bool): string {
    "Evaluated by latest dory evaluation in checking period\n\tDory evaluation ID: " + NatToString(evaluationId) +
    "\n\tStatus: " + StatusWord(passed) + "\n        "
  }

  /**
   * Judging by the latest completed evaluation of the period: nothing when
   * there is none or it has no result for the item; otherwise a report that
   * passes exactly when that result passed.
   */
  function EvaluateLatest(evaluations: seq<DoryEvaluation>, project: nat, item: MaturityModelItem, now: int): (r: Option<EvaluationReport>)
    ensures var completed := GetCompletedEvaluationsInCheckingPeriod(evaluations, project, item.evaluationType.checkingPeriodDays, now);
      && (r.None? <==> completed == [] || GetMaturityItemDoryResult(completed[|completed| - 1], item.code).None?)
      && (r.Some? ==>
        && r.value.id == 0 && r.value.item == item.id && r.value.project == project
        && (r.value.status == Pass <==> GetMaturityItemDoryResult(completed[|completed| - 1], item.code).value.passed))
  {
    var completed := GetCompletedEvaluationsInCheckingPeriod(evaluations, project, item.evaluationType.checkingPeriodDays, now);
    if completed == [] then None
    else
      var latest := completed[|completed| - 1];
      var result := GetMaturityItemDoryResult(latest, item.code);
      if result.None? then None
      else
        Some(CreateNew(item, project, if result.value.passed then Pass else Fail,
          LatestDescription(latest.id, result.value.passed), PyNone, None, None))
  }

  /** The evaluation the latest strategy reads was submitted no earlier than any other completed in the period. */
  lemma LatestIsLastSubmitted(evaluations: seq<DoryEvaluation>, project: nat, checkingPeriodDays: int, now: int)
    requires GetCompletedEvaluationsInCheckingPeriod(evaluations, project, checkingPeriodDays, now) != []
    ensures var completed := GetCompletedEvaluationsInCheckingPeriod(evaluations, project, checkingPeriodDays, now);
      forall e :: e in evaluations && CompletedInPeriod(e, project, checkingPeriodDays, now) ==>
        e.submissionTime <= completed[|completed| - 1].submissionTime
  {
    var completed := GetCompletedEvaluationsInCheckingPeriod(evaluations, project, checkingPeriodDays, now);
    forall e | e in evaluations && CompletedInPeriod(e, project, checkingPeriodDays, now)
      ensures e.submissionTime <= completed[|completed| - 1].submissionTime
    {
      var i :| 0 <= i < |completed| && completed[i] == e;
      if i < |completed| - 1 {
        assert completed[i].submissionTime <= completed[|completed| - 1].submissionTime;
      }
    }
  }

  // ---------------------------------------------------------------------------
  // All evaluations strategy
  // ---------------------------------------------------------------------------

  /** The counters of the all-evaluations scan and the (evaluation id, result) pairs it collected. */
  datatype Tally = Tally(passed: nat, failed: nat, pairs: seq<(nat, MaturityItemDoryResult)>)

  /** The scan over the evaluations, first to last: evaluations without a result for the item are skipped. */
  function TallyOf(evaluations: seq<DoryEvaluation>, code: string): (t: Tally)
    ensures t.passed + t.failed == |t.pairs|
  {
    if evaluations == [] then Tally(0, 0, [])
    else
      var before := TallyOf(evaluations[..|evaluations| - 1], code);
      var e := evaluations[|evaluations| - 1];
      var result := GetMaturityItemDoryResult(e, code);
      if result.None? then before
      else if result.value.passed then Tally(before.passed + 1, before.failed, before.pairs + [(e.id, result.value)])
      else Tally(before.passed, before.failed + 1, before.pairs + [(e.id, result.value)])
  }

  /**
   * The scan's pairs are exactly the evaluations that have a result for the
   * item, each with that result; every collected result is for the item.
   */
  lemma {:induction false} TallyPairsAreCountedEvaluations(evaluations: seq<DoryEvaluation>, code: string)
    ensures forall p :: p in TallyOf(evaluations, code).pairs ==>
      p.1.code == code && exists e :: e in evaluations && e.id == p.0 && GetMaturityItemDoryResult(e, code) == Some(p.1)
    ensures forall e :: e in evaluations && GetMaturityItemDoryResult(e, code).Some? ==>
      (e.id, GetMaturityItemDoryResult(e, code).value) in TallyOf(evaluations, code).pairs
  {
    if evaluations != [] {
      var init := evaluations[..|evaluations| - 1];
      TallyPairsAreCountedEvaluations(init, code);
      assert evaluations == init + [evaluations[|evaluations| - 1]];
      assert forall e :: e in init ==> e in evaluations;
    }
  }

  /** Nothing is counted exactly when no evaluation has a result for the item. */
  lemma NothingCountedIff(evaluations: seq<DoryEvaluation>, code: string)
    ensures TallyOf(evaluations, code).passed + TallyOf(evaluations, code).failed == 0 <==>
      forall e :: e in evaluations ==> GetMaturityItemDoryResult(e, code).None?
  {
    TallyPairsAreCountedEvaluations(evaluations, code);
    var t := TallyOf(evaluations, code);
    if t.pairs != [] {
      assert t.pairs[0] in t.pairs;
    }
  }

  /** The scan as the evaluator runs it: a loop with two counters and a list of pairs. */
  method CountDoryResults(evaluations: seq<DoryEvaluation>, code: string)
    returns (passed: nat, failed: nat, pairs: seq<(nat, MaturityItemDoryResult)>)
    ensures Tally(passed, failed, pairs) == TallyOf(evaluations, code)
  {
    passed, failed, pairs := 0, 0, [];
    var i := 0;
    while i < |evaluations|
      invariant 0 <= i <= |evaluations|
      invariant Tally(passed, failed, pairs) == TallyOf(evaluations[..i], code)
    {
      assert evaluations[..i + 1][..i] == evaluations[..i];
      var result := GetMaturityItemDoryResult(evaluations[i], code);
      if result.Some? {
        if result.value.passed {
          passed := passed + 1;
        } else {
          failed := failed + 1;
        }
        pairs := pairs + [(evaluations[i].id, result.value)];
      }
      i := i + 1;
    }
    assert evaluations[..i] == evaluations;
  }

  /** The share of passing results, in percent. */
  function PassedPercentage(passed: nat, failed: nat): (p: real)
    requires passed + failed > 0
    ensures 0.0 <= p <= 100.0
    ensures failed == 0 ==> p == 100.0
    ensures passed == 0 ==> p == 0.0
  {
    (passed as real / (passed + failed) as real) * 100.0
  }

  function PairLine(pair: (nat, MaturityItemDoryResult)): string {
    "\tID: " + NatToString(pair.0) + ", Status: " + StatusWord(pair.1.passed)
  }

  function PairLines(pairs: seq<(nat, MaturityItemDoryResult)>): (lines: seq<string>)
    ensures |lines| == |pairs|
    ensures forall k :: 0 <= k < |pairs| ==> lines[k] == PairLine(pairs[k])
  {
    if pairs == [] then [] else [PairLine(pairs[0])] + PairLines(pairs[1..])
  }

  /** The summary lines: a header, one line per counted evaluation, a rule and the totals. */
  function DescriptionLines(pairs: seq<(nat, MaturityItemDoryResult)>, passed: nat, failed: nat): (lines: seq<string>)
    ensures |lines| == |pairs| + 3
    ensures lines[0] == "Dory evaluations summary:"
    ensures forall k :: 0 <= k < |pairs| ==> lines[k + 1] == PairLine(pairs[k])
    ensures lines[|pairs| + 1] == "--------------------"
    ensures lines[|pairs| + 2] ==
      "Passed evaluations: " + NatToString(passed) + ", Failed evaluations: " + NatToString(failed)
  {
    ["Dory evaluations summary:"] + PairLines(pairs) +
    ["--------------------", "Passed evaluations: " + NatToString(passed) + ", Failed evaluations: " + NatToString(failed)]
  }

  function Description(pairs: seq<(nat, MaturityItemDoryResult)>, passed: nat, failed: nat): string {
    Join(DescriptionLines(pairs, passed, failed), "\n")
  }

  /**
   * Judging by all evaluations of the period: nothing when none has a result
   * for the item; otherwise a report that passes exactly when the share of
   * passing results reaches the acceptable percentage, with that share as its
   * current value. An acceptable value that is not a number raises.
   */
  function EvaluateAll(
    evaluations: seq<DoryEvaluation>, project: nat, item: MaturityModelItem, now: int, floatText: real -> string
  ): (r: Result<Option<EvaluationReport>>)
    requires item.acceptableValue.Some?
    ensures var completed := GetCompletedEvaluationsInCheckingPeriod(evaluations, project, item.evaluationType.checkingPeriodDays, now);
      var t := TallyOf(completed, item.code);
      && (r == Ok(None) <==> t.passed + t.failed == 0)
      && (r.Err? <==> t.passed + t.failed > 0 && ParseFloat(item.acceptableValue.value).None?)
      && (r.Ok? && r.value.Some? ==>
        && t.passed + t.failed > 0
        && r.value.value.id == 0 && r.value.value.item == item.id && r.value.value.project == project
        && r.value.value.currentValue == PyStr(floatText(PassedPercentage(t.passed, t.failed)))
        && r.value.value.description == Description(t.pairs, t.passed, t.failed)
        && (r.value.value.status == Pass <==>
          PassedPercentage(t.passed, t.failed) >= ParseFloat(item.acceptableValue.value).value))
  {
    var completed := GetCompletedEvaluationsInCheckingPeriod(evaluations, project, item.evaluationType.checkingPeriodDays, now);
    var t := TallyOf(completed, item.code);
    if t.passed + t.failed == 0 then Ok(None)
    else
      var percentage := PassedPercentage(t.passed, t.failed);
      var acceptable := ParseFloat(item.acceptableValue.value);
      if acceptable.None? then Err(NotANumber)
      else
        Ok(Some(CreateNew(item, project, if percentage >= acceptable.value then Pass else Fail,
          Description(t.pairs, t.passed, t.failed), PyStr(floatText(percentage)), None, None)))
  }

  /** One passing result out of four is 25 percent, which fails against 50. */
  lemma OneOfFourFailsAgainstFifty()
    ensures PassedPercentage(1, 3) == 25.0
    ensures !(PassedPercentage(1, 3) >= 50.0)
  {
  }

  /**
   * The dispatch: no acceptable value means the latest-evaluation strategy;
   * an acceptable value requires the percentage value type (an assertion
   * error otherwise) and means the all-evaluations strategy.
   */
  function Evaluate(
    evaluations: seq<DoryEvaluation>, project: nat, item: MaturityModelItem, now: int, floatText: real -> string
  ): (r: Result<Option<EvaluationReport>>)
    ensures item.acceptableValue.None? ==> r == Ok(EvaluateLatest(evaluations, project, item, now))
    ensures item.acceptableValue.Some? && item.acceptableValueType != Some(Percentage) ==> r.Err?
    ensures item.acceptableValue.Some? && item.acceptableValueType == Some(Percentage) ==>
      r == EvaluateAll(evaluations, project, item, now, floatText)
    ensures r.Ok? && r.value.Some? ==> r.value.value.id == 0 && r.value.value.item == item.id
  {
    if item.acceptableValue.None? then Ok(EvaluateLatest(evaluations, project, item, now))
    else if item.acceptableValueType != Some(Percentage) then Err(PercentageTypeRequired)
    else EvaluateAll(evaluations, project, item, now, floatText)
  }
}
