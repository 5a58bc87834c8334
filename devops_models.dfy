/**
 * The DevOps-metrics records: changelists, deployments of a changelist to an
 * environment, and service-status reports, together with the validators that
 * guard their tables (commit-hash length, per-project uniqueness of a
 * changelist's id and commit hash, and a deployment's project).
 *
 * Times are whole seconds; ids are the database primary keys.
 */
module DevopsModels {
  import opened Common

  const NonValidCommitHash: string := "Commit hash length must be 40"
  const CommitHashLength: nat := 40
  const ChangeListIdExists: string := "This id already exists in this project."
  const CommitHashExists: string := "This commit hash already exists in this project."
  const NotSameProject: string := "Change list does not belong to the same project as the environment."

  datatype DeploymentStatus = Pass | Fail
  datatype ServiceStatus = Up | Down

  /** The one-letter code stored in the status column. */
  function DeploymentStatusCode(s: DeploymentStatus): char { if s.Pass? then 'P' else 'F' }
  function ServiceStatusCode(s: ServiceStatus): char { if s.Up? then 'U' else 'D' }

  function DeploymentStatusFromCode(c: char): (r: Option<DeploymentStatus>)
    ensures r.Some? ==> DeploymentStatusCode(r.value) == c
    ensures forall s :: DeploymentStatusCode(s) == c ==> r == Some(s)
  {
    if c == 'P' then Some(Pass) else if c == 'F' then Some(Fail) else None
  }

  function ServiceStatusFromCode(c: char): (r: Option<ServiceStatus>)
    ensures r.Some? ==> ServiceStatusCode(r.value) == c
    ensures forall s :: ServiceStatusCode(s) == c ==> r == Some(s)
  {
    if c == 'U' then Some(Up) else if c == 'D' then Some(Down) else None
  }

  datatype Environment = Environment(id: nat, project: nat)

  datatype ChangeList = ChangeList(
    id: nat, project: nat, changeListId: string, commitHash: string, title: Option<string>, time: int)

  datatype Deployment = Deployment(
    id: nat, environment: nat, changeList: nat, status: DeploymentStatus, time: int)

  datatype ServiceStatusReport = ServiceStatusReport(
    id: nat, environment: nat, status: ServiceStatus, time: int)

  /** The commit-hash field validator. */
  function ValidateCommitHash(value: string): (r: Result<()>)
    ensures r.Ok? <==> |value| == CommitHashLength
    ensures r.Err? ==> r.error == NonValidCommitHash
  {
    if |value| != CommitHashLength then Err(NonValidCommitHash) else Ok(())
  }

  /** Within one project, no two changelists share an id or a commit hash. */
  ghost predicate UniqueKeys(table: seq<ChangeList>) {
    forall i, j :: 0 <= i < j < |table| && table[i].project == table[j].project ==>
      table[i].changeListId != table[j].changeListId && table[i].commitHash != table[j].commitHash
  }

  /**
   * The uniqueness check run before a changelist is saved: `prior` is the stored
   * row being updated, if any. The id key is checked before the hash key.
   */
  function ValidateUniqueFields(
    table: seq<ChangeList>, prior: Option<ChangeList>, newProject: nat, newChangeListId: string, newCommitHash: string
  ): (r: Result<()>)
    ensures r.Ok? <==>
      (forall c :: c in table && c.project == newProject && c.changeListId == newChangeListId ==>
         prior.Some? && prior.value.project == newProject && prior.value.changeListId == newChangeListId) &&
      (forall c :: c in table && c.project == newProject && c.commitHash == newCommitHash ==>
         prior.Some? && prior.value.project == newProject && prior.value.commitHash == newCommitHash)
    ensures r.Err? ==> r.error in {ChangeListIdExists, CommitHashExists}
  {
    var idTaken := exists c :: c in table && c.project == newProject && c.changeListId == newChangeListId;
    var hashTaken := exists c :: c in table && c.project == newProject && c.commitHash == newCommitHash;
    if idTaken && !(prior.Some? && prior.value.project == newProject && prior.value.changeListId == newChangeListId) then
      Err(ChangeListIdExists)
    else if hashTaken && !(prior.Some? && prior.value.project == newProject && prior.value.commitHash == newCommitHash) then
      Err(CommitHashExists)
    else Ok(())
  }

  /** Inserting a changelist that passed the check keeps the keys unique. */
  lemma InsertKeepsKeysUnique(table: seq<ChangeList>, c: ChangeList)
    requires UniqueKeys(table)
    requires ValidateUniqueFields(table, None, c.project, c.changeListId, c.commitHash).Ok?
    ensures UniqueKeys(table + [c])
  {
    var t := table + [c];
    forall i, j | 0 <= i < j < |t| && t[i].project == t[j].project
      ensures t[i].changeListId != t[j].changeListId && t[i].commitHash != t[j].commitHash
    {
      if j == |table| {
        assert t[i] in table;
      }
    }
  }

  /** Replacing a stored changelist by a version that passed the check keeps the keys unique. */
  lemma UpdateKeepsKeysUnique(before: seq<ChangeList>, prior: ChangeList, after: seq<ChangeList>, c: ChangeList)
    requires UniqueKeys(before + [prior] + after)
    requires ValidateUniqueFields(before + [prior] + after, Some(prior), c.project, c.changeListId, c.commitHash).Ok?
    ensures UniqueKeys(before + [c] + after)
  {
    var t0 := before + [prior] + after;
    var t := before + [c] + after;
    var k := |before|;
    forall i, j | 0 <= i < j < |t| && t[i].project == t[j].project
      ensures t[i].changeListId != t[j].changeListId && t[i].commitHash != t[j].commitHash
    {
      assert t[i] == t0[i] || i == k;
      assert t[j] == t0[j] || j == k;
      if i == k {
        assert t[j] == t0[j] && t0[j] in t0;
        assert t0[k] == prior;
      } else if j == k {
        assert t[i] == t0[i] && t0[i] in t0;
        assert t0[k] == prior;
      }
    }
  }

  /** The check in `Deployment.save`: the environment and the changelist belong to one project. */
  function ValidateDeploymentProject(environment: Environment, changeList: ChangeList): (r: Result<()>)
    ensures r.Ok? <==> environment.project == changeList.project
    ensures r.Err? ==> r.error == NotSameProject
  {
    if environment.project != changeList.project then Err(NotSameProject) else Ok(())
  }

  /**
   * Every deployment happens no earlier than its changelist: the table-wide
   * property the lead-time results rely on. The deployment serializer checks
   * the time given in the request, but its `create` stores the request time
   * instead, so the property is kept only when that changelist is not in the
   * future (`DevopsSerializers.CreatedDeploymentKeepsOrder`); the corrected
   * create keeps it always (`DevopsSerializers.CheckedDeploymentKeepsOrder`).
   */
  ghost predicate DeploymentsNotBeforeChangeLists(changeLists: seq<ChangeList>, deployments: seq<Deployment>) {
    forall d, c :: d in deployments && c in changeLists && d.changeList == c.id ==> d.time >= c.time
  }
}
