/**
 * The DevOps-metrics serializer logic that is not framework glue: the
 * parameters of a daily-graph request (defaults and range checks), the time
 * check of a deployment against its changelist, and the date/value shape of a
 * serialized metric data point.
 *
 * Dates are day numbers; times are whole seconds.
 */
module DevopsSerializers {
  import opened Common
  import opened DevopsModels

  const DefaultCheckingPeriodDays: int := 62
  const DefaultPeriodInDays: int := 186
  const MaxPeriodInDays: int := 186

  const CheckingPeriodTooSmall: string := "Ensure this value is greater than or equal to 1."
  const PeriodEndsBeforeStart: string := "Period ends before it starts."
  const PeriodTooLong: string := "Period should not be greater than 186 days."
  const PeriodEndInFuture: string := "Period end date must not be in the future."
  const ChangeListNotFound: string := "Changelist with this commit hash not found for this project."
  const DeploymentBeforeChangeList: string := "Deployment is before Changelist time!"

  /** The validated parameters of a daily-graph request. */
  datatype RequestParameters = RequestParameters(checkingPeriodDays: int, startDate: int, endDate: int)

  /**
   * The request-parameter validation: absent fields take their defaults (the
   * end date defaults to `today`, the start date to 186 days before the end),
   * then the checking period must be at least one day, the period must not end
   * before it starts, must span at most 186 days and must not end after today.
   */
  function ValidateRequestParameters(
    checkingPeriodDays: Option<int>, startDate: Option<int>, endDate: Option<int>, today: int
  ): (r: Result<RequestParameters>)
    ensures r.Ok? <==>
      var days := if checkingPeriodDays.None? then DefaultCheckingPeriodDays else checkingPeriodDays.value;
      var end := if endDate.None? then today else endDate.value;
      var start := if startDate.None? then end - DefaultPeriodInDays else startDate.value;
      days >= 1 && start <= end && end - start <= MaxPeriodInDays && end <= today
    ensures r.Ok? ==>
      (checkingPeriodDays.Some? ==> r.value.checkingPeriodDays == checkingPeriodDays.value) &&
      (checkingPeriodDays.None? ==> r.value.checkingPeriodDays == DefaultCheckingPeriodDays) &&
      (endDate.Some? ==> r.value.endDate == endDate.value) &&
      (endDate.None? ==> r.value.endDate == today) &&
      (startDate.Some? ==> r.value.startDate == startDate.value) &&
      (startDate.None? ==> r.value.startDate == r.value.endDate - DefaultPeriodInDays)
    ensures r.Ok? ==> 1 <= r.value.endDate - r.value.startDate + 1 <= MaxPeriodInDays + 1
  {
    var days := if checkingPeriodDays.None? then DefaultCheckingPeriodDays else checkingPeriodDays.value;
    var end := if endDate.None? then today else endDate.value;
    if days < 1 then Err(CheckingPeriodTooSmall)
    else
      var start := if startDate.None? then end - DefaultPeriodInDays else startDate.value;
      if start > end then Err(PeriodEndsBeforeStart)
      else if end - start > MaxPeriodInDays then Err(PeriodTooLong)
      else if end > today then Err(PeriodEndInFuture)
      else Ok(RequestParameters(days, start, end))
  }

  /** With every field absent the request covers the 186 days up to today, checked over 62 days. */
  lemma DefaultRequestIsAccepted(today: int)
    ensures ValidateRequestParameters(None, None, None, today) == Ok(RequestParameters(62, today - 186, today))
  {
  }

  /** The length bound is inclusive: exactly 186 days is accepted and 187 is rejected. */
  lemma PeriodLengthBoundIsInclusive(days: int, end: int, today: int)
    requires days >= 1 && end <= today
    ensures ValidateRequestParameters(Some(days), Some(end - 186), Some(end), today).Ok?
    ensures ValidateRequestParameters(Some(days), Some(end - 187), Some(end), today) == Err(PeriodTooLong)
  {
  }

  /** The changelist a deployment names: the project's changelist with that commit hash. */
  function FindChangeList(changeLists: seq<ChangeList>, project: nat, commitHash: string): (r: Result<ChangeList>)
    ensures r.Ok? <==> exists c :: c in changeLists && c.project == project && c.commitHash == commitHash
    ensures r.Ok? ==> r.value in changeLists && r.value.project == project && r.value.commitHash == commitHash
    ensures r.Err? ==> r.error == ChangeListNotFound
  {
    var found := FindFirst(changeLists, (c: ChangeList) => c.project == project && c.commitHash == commitHash);
    if found.None? then
      assert forall c :: c in changeLists ==> !(c.project == project && c.commitHash == commitHash);
      Err(ChangeListNotFound)
    else Ok(found.value)
  }

  /**
   * The deployment check: the commit hash must name a changelist of the
   * environment's project, and a given time must not precede that changelist's.
   */
  function ValidateDeployment(
    changeLists: seq<ChangeList>, environment: Environment, commitHash: string, time: Option<int>
  ): (r: Result<ChangeList>)
    ensures r.Ok? <==>
      FindChangeList(changeLists, environment.project, commitHash).Ok? &&
      (time.Some? ==> time.value >= FindChangeList(changeLists, environment.project, commitHash).value.time)
    ensures r.Ok? ==> r.value in changeLists && r.value.project == environment.project && r.value.commitHash == commitHash
    ensures r.Ok? && time.Some? ==> time.value >= r.value.time
  {
    var changeList := FindChangeList(changeLists, environment.project, commitHash);
    if changeList.Err? then Err(changeList.error)
    else if time.Some? && time.value < changeList.value.time then Err(DeploymentBeforeChangeList)
    else Ok(changeList.value)
  }

  /** No two changelists share a primary key. */
  ghost predicate UniqueIds(changeLists: seq<ChangeList>) {
    forall i, j :: 0 <= i < j < |changeLists| ==> changeLists[i].id != changeLists[j].id
  }

  /**
   * A deployment stored at a time that passed the check keeps every
   * deployment no earlier than its changelist: the property the lead-time
   * consistency law relies on.
   */
  lemma ValidatedDeploymentKeepsOrder(
    changeLists: seq<ChangeList>, deployments: seq<Deployment>, environment: Environment,
    commitHash: string, d: Deployment
  )
    requires UniqueIds(changeLists)
    requires DeploymentsNotBeforeChangeLists(changeLists, deployments)
    requires ValidateDeployment(changeLists, environment, commitHash, Some(d.time)).Ok?
    requires d.changeList == ValidateDeployment(changeLists, environment, commitHash, Some(d.time)).value.id
    ensures DeploymentsNotBeforeChangeLists(changeLists, deployments + [d])
  {
    var cl := ValidateDeployment(changeLists, environment, commitHash, Some(d.time)).value;
    forall x, c | x in deployments + [d] && c in changeLists && x.changeList == c.id
      ensures x.time >= c.time
    {
      if x !in deployments {
        var i :| 0 <= i < |changeLists| && changeLists[i] == c;
        var j :| 0 <= j < |changeLists| && changeLists[j] == cl;
        assert i == j;
      }
    }
  }

  /**
   * The deployment `create` stores once the check passed: the environment,
   * the named changelist and the status, at the time of the request (`now`,
   * the column's default). A time given in the request is checked but is not
   * what is stored.
   */
  function CreateDeployment(
    changeLists: seq<ChangeList>, environment: Environment, commitHash: string, time: Option<int>,
    status: DeploymentStatus, id: nat, now: int
  ): (r: Result<Deployment>)
    ensures r.Ok? <==> ValidateDeployment(changeLists, environment, commitHash, time).Ok?
    ensures r.Err? ==> r.error == ValidateDeployment(changeLists, environment, commitHash, time).error
    ensures r.Ok? ==> r.value.time == now && r.value.id == id && r.value.status == status
    ensures r.Ok? ==> r.value.environment == environment.id
    ensures r.Ok? ==> exists c :: (c in changeLists && c.id == r.value.changeList &&
                                   c.project == environment.project && c.commitHash == commitHash)
  {
    var changeList := ValidateDeployment(changeLists, environment, commitHash, time);
    if changeList.Err? then Err(changeList.error)
    else Ok(Deployment(id, environment.id, changeList.value.id, status, now))
  }

  /**
   * A created deployment keeps every deployment no earlier than its
   * changelist provided the changelist's time is not after the request's.
   */
  lemma CreatedDeploymentKeepsOrder(
    changeLists: seq<ChangeList>, deployments: seq<Deployment>, environment: Environment,
    commitHash: string, time: Option<int>, status: DeploymentStatus, id: nat, now: int
  )
    requires UniqueIds(changeLists)
    requires DeploymentsNotBeforeChangeLists(changeLists, deployments)
    requires CreateDeployment(changeLists, environment, commitHash, time, status, id, now).Ok?
    requires now >= FindChangeList(changeLists, environment.project, commitHash).value.time
    ensures DeploymentsNotBeforeChangeLists(changeLists,
      deployments + [CreateDeployment(changeLists, environment, commitHash, time, status, id, now).value])
  {
    var d := CreateDeployment(changeLists, environment, commitHash, time, status, id, now).value;
    assert ValidateDeployment(changeLists, environment, commitHash, Some(d.time)).Ok?;
    ValidatedDeploymentKeepsOrder(changeLists, deployments, environment, commitHash, d);
  }

  /**
   * The check passes on the given time while the stored time is `now`: a
   * changelist dated after the request yields a deployment before it.
   */
  lemma CreatedDeploymentCanPrecedeChangeList()
    ensures
      var cls := [ChangeList(1, 7, "c1", "h1", None, 500)];
      var r := CreateDeployment(cls, Environment(3, 7), "h1", Some(600), Pass, 9, 400);
      r.Ok? && !DeploymentsNotBeforeChangeLists(cls, [r.value])
  {
    var c := ChangeList(1, 7, "c1", "h1", None, 500);
    var cls := [c];
    assert FindChangeList(cls, 7, "h1") == Ok(c) by {
      assert FirstIndex(cls, (x: ChangeList) => x.project == 7 && x.commitHash == "h1") == 0;
    }
    var r := CreateDeployment(cls, Environment(3, 7), "h1", Some(600), Pass, 9, 400);
    assert r.value == Deployment(9, 3, 1, Pass, 400);
    assert r.value in [r.value] && c in cls;
  }

  /**
   * The create the check evidently guards: the stored time is the given time,
   * or `now` when none is given, and that stored time is what is checked.
   */
  function CreateCheckedDeployment(
    changeLists: seq<ChangeList>, environment: Environment, commitHash: string, time: Option<int>,
    status: DeploymentStatus, id: nat, now: int
  ): (r: Result<Deployment>)
    ensures var stored := if time.Some? then time.value else now;
      r.Ok? <==> ValidateDeployment(changeLists, environment, commitHash, Some(stored)).Ok?
    ensures var stored := if time.Some? then time.value else now;
      r.Ok? ==> r.value.time == stored && r.value.id == id && r.value.status == status
    ensures var stored := if time.Some? then time.value else now;
      r.Ok? ==> (r.value.environment == environment.id &&
                 r.value.changeList == ValidateDeployment(changeLists, environment, commitHash, Some(stored)).value.id)
  {
    var stored := if time.Some? then time.value else now;
    var changeList := ValidateDeployment(changeLists, environment, commitHash, Some(stored));
    if changeList.Err? then Err(changeList.error)
    else Ok(Deployment(id, environment.id, changeList.value.id, status, stored))
  }

  /** Every deployment the corrected create stores keeps every deployment no earlier than its changelist. */
  lemma CheckedDeploymentKeepsOrder(
    changeLists: seq<ChangeList>, deployments: seq<Deployment>, environment: Environment,
    commitHash: string, time: Option<int>, status: DeploymentStatus, id: nat, now: int
  )
    requires UniqueIds(changeLists)
    requires DeploymentsNotBeforeChangeLists(changeLists, deployments)
    requires CreateCheckedDeployment(changeLists, environment, commitHash, time, status, id, now).Ok?
    ensures DeploymentsNotBeforeChangeLists(changeLists,
      deployments + [CreateCheckedDeployment(changeLists, environment, commitHash, time, status, id, now).value])
  {
    var d := CreateCheckedDeployment(changeLists, environment, commitHash, time, status, id, now).value;
    ValidatedDeploymentKeepsOrder(changeLists, deployments, environment, commitHash, d);
  }

  /** A serialized data point: the pair's first component as the date, its second as the value. */
  datatype MetricDataPoint<V> = MetricDataPoint(date: int, value: V)

  /** The data-point serializer applied to a list of (date, value) pairs. */
  function SerializeDataPoints<V>(pairs: seq<(int, V)>): (r: seq<MetricDataPoint<V>>)
    ensures |r| == |pairs|
    ensures forall k :: 0 <= k < |pairs| ==> r[k].date == pairs[k].0 && r[k].value == pairs[k].1
  {
    MapSeq(pairs, (p: (int, V)) => MetricDataPoint(p.0, p.1))
  }

  /** The pairs a list of serialized data points was made from. */
  function DataPointPairs<V>(points: seq<MetricDataPoint<V>>): (r: seq<(int, V)>)
    ensures |r| == |points|
    ensures forall k :: 0 <= k < |points| ==> r[k] == (points[k].date, points[k].value)
  {
    MapSeq(points, (p: MetricDataPoint<V>) => (p.date, p.value))
  }

  /** Serialization loses nothing: the pairs are recovered from the data points. */
  lemma SerializeDataPointsRoundTrip<V>(pairs: seq<(int, V)>)
    ensures DataPointPairs(SerializeDataPoints(pairs)) == pairs
  {
    var back := DataPointPairs(SerializeDataPoints(pairs));
    assert |back| == |pairs|;
    forall k | 0 <= k < |pairs| ensures back[k] == pairs[k] {}
  }
}
