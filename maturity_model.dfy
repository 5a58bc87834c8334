/**
 * The maturity model: evaluation types (one per non-manual kind), levels
 * holding items in order, and the per-project toggle requests that disable or
 * re-enable an item once they are approved.
 */
module MaturityModels {
  import opened Common

  datatype Kind =
    | Manual | LeadTime | DeploymentFrequency | TimeToRestore | ChangeFailureRate
    | TestCoverage | IncrementalTestCoverage | IsTestCoverageCalculated | Dory

  /** The code stored in the kind column (at most five characters). */
  function KindCode(k: Kind): (code: string)
    ensures 2 <= |code| <= 5
  {
    match k
    case Manual => "MA"
    case LeadTime => "LT"
    case DeploymentFrequency => "DF"
    case TimeToRestore => "TR"
    case ChangeFailureRate => "CF"
    case TestCoverage => "TC"
    case IncrementalTestCoverage => "ITC"
    case IsTestCoverageCalculated => "ITCC"
    case Dory => "DORY"
  }

  /** Distinct kinds are stored under distinct codes. */
  lemma KindCodeInjective(a: Kind, b: Kind)
    requires KindCode(a) == KindCode(b)
    ensures a == b
  {
  }

  datatype ValueType = Seconds | Percentage

  function ValueTypeCode(v: ValueType): (code: string)
    ensures |code| == 3
  {
    if v.Seconds? then "SEC" else "PRC"
  }

  /** An evaluation type; the two periods are in days. */
  datatype EvaluationType = EvaluationType(id: nat, kind: Kind, validityPeriodDays: int, checkingPeriodDays: int)

  const EvaluationTypeDoesNotExist: string := "EvaluationType matching query does not exist."

  function DuplicateKindMessage(k: Kind): string {
    "There is already exists an evaluation type with kind " + KindCode(k)
  }

  /**
   * The kind check run before an evaluation type is saved: `oldPk` is the
   * primary key of the row being updated, 0 for a new row. A manual kind never
   * conflicts; another kind that is already stored is accepted only for an
   * update of a row that already has that kind.
   */
  function ValidateKindUniqueness(table: seq<EvaluationType>, newKind: Kind, oldPk: nat): (r: Result<()>)
    ensures r.Ok? <==>
      newKind == Manual ||
      (forall t :: t in table ==> t.kind != newKind) ||
      (oldPk != 0 && FindFirst(table, (t: EvaluationType) => t.id == oldPk).Some? &&
       FindFirst(table, (t: EvaluationType) => t.id == oldPk).value.kind == newKind)
    ensures r.Err? && newKind != Manual && oldPk == 0 ==> r.error == DuplicateKindMessage(newKind)
  {
    if newKind != Manual && exists t :: t in table && t.kind == newKind then
      if oldPk == 0 then Err(DuplicateKindMessage(newKind))
      else
        var stored := FindFirst(table, (t: EvaluationType) => t.id == oldPk);
        if stored.None? then Err(EvaluationTypeDoesNotExist)
        else if newKind != stored.value.kind then Err(DuplicateKindMessage(newKind))
        else Ok(())
    else Ok(())
  }

  /** No two evaluation types share a non-manual kind, and no two share an id. */
  ghost predicate KindsUnique(table: seq<EvaluationType>) {
    (forall i, j :: 0 <= i < j < |table| ==> table[i].id != table[j].id) &&
    (forall i, j :: 0 <= i < j < |table| && table[i].kind != Manual ==> table[i].kind != table[j].kind)
  }

  /** Adding a new evaluation type that passed the check keeps the kinds unique. */
  lemma CreateKeepsKindsUnique(table: seq<EvaluationType>, t: EvaluationType)
    requires KindsUnique(table)
    requires forall u :: u in table ==> u.id != t.id
    requires ValidateKindUniqueness(table, t.kind, 0).Ok?
    ensures KindsUnique(table + [t])
  {
    var s := table + [t];
    forall i, j | 0 <= i < j < |s| && s[i].kind != Manual
      ensures s[i].kind != s[j].kind
    {
      if j == |table| {
        assert s[i] in table;
      }
    }
    forall i, j | 0 <= i < j < |s|
      ensures s[i].id != s[j].id
    {
      if j == |table| {
        assert s[i] in table;
      }
    }
  }

  /** Replacing the stored type `prior` by `t` (same id) after the check keeps the kinds unique. */
  lemma UpdateKeepsKindsUnique(before: seq<EvaluationType>, prior: EvaluationType, after: seq<EvaluationType>, t: EvaluationType)
    requires KindsUnique(before + [prior] + after)
    requires t.id == prior.id
    requires ValidateKindUniqueness(before + [prior] + after, t.kind, prior.id).Ok?
    ensures KindsUnique(before + [t] + after)
  {
    var s0 := before + [prior] + after;
    var s := before + [t] + after;
    var k := |before|;
    assert s0[k] == prior;
    if t.kind != Manual && exists u :: u in s0 && u.kind == t.kind {
      var fi := FirstIndex(s0, (u: EvaluationType) => u.id == prior.id);
      assert 0 <= fi <= k;
      assert fi == k;
      assert prior.kind == t.kind;
    }
    forall i, j | 0 <= i < j < |s| && s[i].kind != Manual
      ensures s[i].kind != s[j].kind
    {
      assert s[i] == s0[i] || i == k;
      assert s[j] == s0[j] || j == k;
      if i == k {
        assert s0[j] in s0;
      } else if j == k {
        assert s0[i] in s0;
      }
    }
    forall i, j | 0 <= i < j < |s|
      ensures s[i].id != s[j].id
    {
      assert s[i].id == s0[i].id;
      assert s[j].id == s0[j].id;
    }
  }

  /**
   * A maturity model item. `level` and `maturityModel` are the ids of its
   * level and of the model the level belongs to.
   */
  datatype MaturityModelItem = MaturityModelItem(
    id: nat, level: nat, maturityModel: nat, code: string, name: string,
    acceptableValue: Option<string>, acceptableValueType: Option<ValueType>,
    evaluationType: EvaluationType)

  /** A level with its items in their order. */
  datatype MaturityModelLevel = MaturityModelLevel(id: nat, maturityModel: nat, name: string, items: seq<MaturityModelItem>)

  /** A maturity model with its levels in their order. */
  datatype MaturityModel = MaturityModel(id: nat, name: string, levels: seq<MaturityModelLevel>)

  /** An item agrees with its level on the maturity model. */
  predicate ItemInvariant(item: MaturityModelItem, level: MaturityModelLevel) {
    item.level == level.id ==> item.maturityModel == level.maturityModel
  }

  /** What saving an item stores: the item with its model taken from its level. */
  function ItemOnSave(item: MaturityModelItem, level: MaturityModelLevel): (r: MaturityModelItem)
    requires item.level == level.id
    ensures ItemInvariant(r, level)
    ensures r.id == item.id && r.level == item.level && r.code == item.code && r.name == item.name
    ensures r.acceptableValue == item.acceptableValue && r.acceptableValueType == item.acceptableValueType
    ensures r.evaluationType == item.evaluationType
    ensures ItemInvariant(item, level) ==> r == item
  {
    item.(maturityModel := level.maturityModel)
  }

  /** What saving a level does to its items: every item takes the level's model. */
  function UpdateModelInItems(level: MaturityModelLevel): (r: MaturityModelLevel)
    ensures r.id == level.id && r.maturityModel == level.maturityModel && r.name == level.name
    ensures |r.items| == |level.items|
    ensures forall k :: 0 <= k < |r.items| && level.items[k].level == level.id ==> r.items[k] == ItemOnSave(level.items[k], level)
    ensures forall k :: 0 <= k < |r.items| ==> ItemInvariant(r.items[k], r)
  {
    level.(items := seq(|level.items|, k requires 0 <= k < |level.items| =>
      level.items[k].(maturityModel := level.maturityModel)))
  }

  datatype ToggleApproval = ToggleApproval(approved: bool, creationTime: int)

  /** A request to disable (or re-enable) an item for a project; `approval` is absent while pending. */
  datatype ToggleRequest = ToggleRequest(
    id: nat, disable: bool, project: nat, item: nat, creationTime: int, approval: Option<ToggleApproval>)

  predicate ApprovedFor(r: ToggleRequest, item: nat, project: nat, timestamp: Option<int>) {
    r.item == item && r.project == project && r.approval.Some? && r.approval.value.approved &&
    (timestamp.None? || r.creationTime <= timestamp.value)
  }

  predicate PendingFor(r: ToggleRequest, item: nat, project: nat) {
    r.item == item && r.project == project && r.approval.None?
  }

  /** The approved request of the item created last (on or before `timestamp` when given). */
  function LatestApprovedToggleRequest(toggles: seq<ToggleRequest>, item: nat, project: nat, timestamp: Option<int>): (r: Option<ToggleRequest>)
    ensures r.None? <==> forall t :: t in toggles ==> !ApprovedFor(t, item, project, timestamp)
    ensures r.Some? ==> r.value in toggles && ApprovedFor(r.value, item, project, timestamp)
    ensures r.Some? ==> forall t :: t in toggles && ApprovedFor(t, item, project, timestamp) ==> t.creationTime <= r.value.creationTime
  {
    var p := (t: ToggleRequest) => ApprovedFor(t, item, project, timestamp);
    FilterMembers(toggles, p);
    var approved := Filter(toggles, p);
    assert forall t :: t in toggles && ApprovedFor(t, item, project, timestamp) ==> t in approved;
    LatestBy(approved, (t: ToggleRequest) => t.creationTime)
  }

  /**
   * Whether the item is disabled for the project (now, or at `timestamp`): the
   * flag of its latest approved toggle request, false when there is none.
   */
  function IsDisabled(toggles: seq<ToggleRequest>, item: nat, project: nat, timestamp: Option<int>): (r: bool)
    ensures (forall t :: t in toggles ==> !ApprovedFor(t, item, project, timestamp)) ==> !r
    ensures r ==> exists t :: (t in toggles && ApprovedFor(t, item, project, timestamp) && t.disable &&
      forall u :: u in toggles && ApprovedFor(u, item, project, timestamp) ==> u.creationTime <= t.creationTime)
    ensures !r && (exists t :: t in toggles && ApprovedFor(t, item, project, timestamp)) ==>
      exists t :: (t in toggles && ApprovedFor(t, item, project, timestamp) && !t.disable &&
      forall u :: u in toggles && ApprovedFor(u, item, project, timestamp) ==> u.creationTime <= t.creationTime)
  {
    var latest := LatestApprovedToggleRequest(toggles, item, project, timestamp);
    latest.Some? && latest.value.disable
  }

  /** With at most one approved request, that request alone decides. */
  lemma SingleApprovalDecides(t: ToggleRequest, item: nat, project: nat)
    requires ApprovedFor(t, item, project, None)
    ensures IsDisabled([t], item, project, None) == t.disable
  {
    assert t in [t];
  }

  /** The pending toggle request of the item created last. */
  function LatestPendingToggleRequest(toggles: seq<ToggleRequest>, item: nat, project: nat): (r: Option<ToggleRequest>)
    ensures r.None? <==> forall t :: t in toggles ==> !PendingFor(t, item, project)
    ensures r.Some? ==> r.value in toggles && PendingFor(r.value, item, project)
    ensures r.Some? ==> forall t :: t in toggles && PendingFor(t, item, project) ==> t.creationTime <= r.value.creationTime
  {
    var p := (t: ToggleRequest) => PendingFor(t, item, project);
    FilterMembers(toggles, p);
    var pending := Filter(toggles, p);
    assert forall t :: t in toggles && PendingFor(t, item, project) ==> t in pending;
    LatestBy(pending, (t: ToggleRequest) => t.creationTime)
  }

  /**
   * Whether the item has a pending toggle request: any, when no direction is
   * asked, otherwise whether the latest pending one asks for that direction.
   */
  function HasPendingToggleRequest(toggles: seq<ToggleRequest>, item: nat, project: nat, requestForDisable: Option<bool>): (r: bool)
    ensures (forall t :: t in toggles ==> !PendingFor(t, item, project)) ==> !r
    ensures requestForDisable.None? ==> (r <==> exists t :: t in toggles && PendingFor(t, item, project))
    ensures requestForDisable.Some? && r ==> exists t :: t in toggles && PendingFor(t, item, project) && t.disable == requestForDisable.value
    ensures requestForDisable.Some? ==>
      (r <==> LatestPendingToggleRequest(toggles, item, project).Some? &&
              LatestPendingToggleRequest(toggles, item, project).value.disable == requestForDisable.value)
  {
    var latest := LatestPendingToggleRequest(toggles, item, project);
    if latest.None? then false
    else if requestForDisable.None? then true
    else latest.value.disable == requestForDisable.value
  }

  /** The action a toggle request asks for. */
  function ActionType(r: ToggleRequest): (action: string)
    ensures action == "disable" <==> r.disable
    ensures action == "enable" <==> !r.disable
  {
    if r.disable then "disable" else "enable"
  }
}
