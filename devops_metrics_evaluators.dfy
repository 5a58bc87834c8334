/**
 * The DevOps metric evaluators (lead time, time to restore, deployment
 * frequency, change failure rate): each computes its metric at `now` over the
 * item's checking period for the project's default environment, and passes
 * when the whole part of the value is strictly below the whole part of the
 * item's acceptable value.
 */
module DevopsMetricsEvaluators {
  import opened Common
  import opened Numbers
  import opened MaturityModels
  import opened Evaluations
  import DevopsModels
  import TimeToRestore
  import ComputationBase

  const ExpectedValueIsNone: string := "expected_value argument could not be None"
  const NotANumber: string := "could not convert string to float"

  /** The kinds these evaluators are registered for. */
  predicate IsDevopsKind(kind: Kind) {
    kind.LeadTime? || kind.TimeToRestore? || kind.DeploymentFrequency? || kind.ChangeFailureRate?
  }

  /** The computer of the kind, over the project's default environment and the item's checking period. */
  function ComputerOf(kind: Kind, environment: DevopsModels.Environment, item: MaturityModelItem): (c: ComputationBase.Computer)
    requires IsDevopsKind(kind)
    ensures !c.OverallCoverageComputer? && !c.IncrementalCoverageComputer? &&
      c.environment == environment && c.period == item.evaluationType.checkingPeriodDays * Day
    ensures kind.LeadTime? <==> c.LeadTimeComputer?
    ensures kind.TimeToRestore? <==> c.TimeToRestoreComputer?
    ensures kind.DeploymentFrequency? <==> c.DeploymentFrequencyComputer?
    ensures kind.ChangeFailureRate? <==> c.ChangeFailureRateComputer?
  {
    var period := item.evaluationType.checkingPeriodDays * Day;
    match kind
    case LeadTime => ComputationBase.LeadTimeComputer(environment, period)
    case TimeToRestore => ComputationBase.TimeToRestoreComputer(environment, period)
    case DeploymentFrequency => ComputationBase.DeploymentFrequencyComputer(environment, period)
    case ChangeFailureRate => ComputationBase.ChangeFailureRateComputer(environment, period)
  }

  /** `int(float(v))` of a metric value that is present. */
  function WholePart(v: ComputationBase.MetricValue): int
    requires !v.NoValue?
  {
    if v.IntValue? then v.i else TruncReal(v.r)
  }

  /**
   * The status rule: no acceptable value raises; a missing metric value
   * fails; otherwise the item passes exactly when the whole part of the value
   * is strictly below the whole part of the acceptable value, which must read
   * as a number.
   */
  function StatusFromCurrentValue(current: ComputationBase.MetricValue, expected: Option<string>): (r: Result<ReportStatus>)
    ensures expected.None? ==> r == Err(ExpectedValueIsNone)
    ensures expected.Some? && current.NoValue? ==> r == Ok(Fail)
    ensures r.Err? <==> expected.None? || (!current.NoValue? && ParseFloat(expected.value).None?)
    ensures r == Ok(Pass) <==>
      expected.Some? && !current.NoValue? && ParseFloat(expected.value).Some? &&
      WholePart(current) < TruncReal(ParseFloat(expected.value).value)
  {
    if expected.None? then Err(ExpectedValueIsNone)
    else if current.NoValue? then Ok(Fail)
    else
      var e := ParseFloat(expected.value);
      if e.None? then Err(NotANumber)
      else if WholePart(current) < TruncReal(e.value) then Ok(Pass)
      else Ok(Fail)
  }

  /** A whole-number value passes against a whole-number threshold exactly when it is below it; equal fails. */
  lemma WholeNumbersPassIffBelow(value: int, expected: string, threshold: nat)
    requires ParseFloat(expected) == Some(threshold as real)
    ensures StatusFromCurrentValue(ComputationBase.IntValue(value), Some(expected)) ==
      Ok(if value < threshold then Pass else Fail)
  {
    TruncWhole(threshold);
  }

  lemma TruncWhole(n: nat)
    ensures TruncReal(n as real) == n
  {
  }

  /** A value read back from a report of the item, as the report stores it. */
  function StoredValue(v: ComputationBase.MetricValue, floatText: real -> string): PyValue {
    match v
    case NoValue => PyNone
    case IntValue(i) => PyInt(i)
    case RealValue(x) => PyStr(floatText(x))
  }

  /**
   * The evaluation: the metric at `now` as the single-timestamp computation
   * gives it, and an unsaved report of the item with the status the rule
   * gives and that value as its current value; the rule's error propagates.
   */
  function Evaluate(
    kind: Kind, environment: DevopsModels.Environment, project: nat, item: MaturityModelItem,
    db: ComputationBase.Database, now: int, floatText: real -> string
  ): (r: Result<EvaluationReport>)
    requires IsDevopsKind(kind)
    ensures var value := ComputationBase.WindowValue(ComputerOf(kind, environment, item), db, now);
      && (r.Err? <==> StatusFromCurrentValue(value, item.acceptableValue).Err?)
      && (r.Ok? ==>
        && r.value.id == 0 && r.value.item == item.id && r.value.project == project
        && r.value.currentValue == StoredValue(value, floatText)
        && r.value.expectedValue == OfOptionalString(item.acceptableValue)
        && (r.value.status == Pass <==> StatusFromCurrentValue(value, item.acceptableValue) == Ok(Pass)))
  {
    var value := ComputationBase.WindowValue(ComputerOf(kind, environment, item), db, now);
    var status := StatusFromCurrentValue(value, item.acceptableValue);
    if status.Err? then Err(status.error)
    else Ok(CreateNew(item, project, status.value, "", StoredValue(value, floatText), None, None))
  }

  /**
   * Time to restore reports 0 when no outage closed in the window, so with no
   * status report at all the item passes against any positive whole threshold.
   */
  lemma TimeToRestoreWithoutDataPasses(
    environment: DevopsModels.Environment, project: nat, item: MaturityModelItem,
    db: ComputationBase.Database, now: int, floatText: real -> string, threshold: nat
  )
    requires db.statusReports == []
    requires item.acceptableValue == Some(NatToString(threshold)) && threshold > 0
    ensures Evaluate(TimeToRestore, environment, project, item, db, now, floatText).Ok?
    ensures Evaluate(TimeToRestore, environment, project, item, db, now, floatText).value.status == Pass
    ensures Evaluate(TimeToRestore, environment, project, item, db, now, floatText).value.currentValue == PyInt(0)
  {
    var period := item.evaluationType.checkingPeriodDays * Day;
    var fetched := TimeToRestore.FetchReports([], environment.id, now - period, now);
    assert fetched == [];
    assert TimeToRestore.AvgTtr([], now, period) == None;
    assert ComputationBase.WindowValue(ComputerOf(TimeToRestore, environment, item), db, now) == ComputationBase.IntValue(0);
    ParseFloatOfNatToString(threshold);
    WholeNumbersPassIffBelow(0, NatToString(threshold), threshold);
  }

  /** A lead time of 4 against an acceptable value of 2 fails and records 4. */
  lemma LeadTimeAboveThresholdFails()
    ensures StatusFromCurrentValue(ComputationBase.IntValue(4), Some("2")) == Ok(Fail)
  {
    assert NatToString(2) == "2";
    ParseFloatOfNatToString(2);
    WholeNumbersPassIffBelow(4, "2", 2);
  }
}
