/**
 * The script that thins out a project's deployments: for every changelist of
 * the project whose time lies in the given period it keeps one deployment,
 * the latest passing one if there is one and else the latest failing one,
 * and deletes every other deployment of the project, including all
 * deployments of changelists outside the period.
 *
 * The tables are sequences in table order; the result is the deployments
 * table after the deletion.
 */
module DeploymentPruning {
  import opened Common
  import opened DevopsModels

  const ProjectDoesNotExist: string := "Project matching query does not exist."

  /** The changelist a deployment belongs to, looked up by id. */
  function ChangeListOf(changeLists: seq<ChangeList>, d: Deployment): Option<ChangeList> {
    FindFirst(changeLists, (c: ChangeList) => c.id == d.changeList)
  }

  /** The deployment belongs to a changelist of the project. */
  predicate OfProject(changeLists: seq<ChangeList>, d: Deployment, project: nat) {
    var c := ChangeListOf(changeLists, d);
    c.Some? && c.value.project == project
  }

  /** A time lies in the period: no earlier than its start and before its end, a missing bound being no bound. */
  predicate InPeriod(t: int, start: Option<int>, end: Option<int>) {
    (start.None? || start.value <= t) && (end.None? || t < end.value)
  }

  /** The deployment is one the keep-set query selects from: of a changelist of the project with a time in the period. */
  predicate Selectable(changeLists: seq<ChangeList>, d: Deployment, project: nat, start: Option<int>, end: Option<int>) {
    var c := ChangeListOf(changeLists, d);
    c.Some? && c.value.project == project && InPeriod(c.value.time, start, end)
  }

  /** `d` comes before `e` in the order `-status, -time`: a pass before a fail, then the later one first. */
  predicate Precedes(d: Deployment, e: Deployment) {
    (d.status.Pass? && e.status.Fail?) || (d.status == e.status && d.time > e.time)
  }

  /** Some of the deployments belongs to the changelist. */
  predicate HasDeployment(ds: seq<Deployment>, changeList: nat) {
    exists d :: d in ds && d.changeList == changeList
  }

  /** No deployment of the changelist comes before `best`. */
  predicate IsFirst(ds: seq<Deployment>, best: Deployment) {
    forall e :: e in ds && e.changeList == best.changeList ==> !Precedes(e, best)
  }

  /**
   * `distinct('change_list_id')` over the rows ordered by changelist, then
   * `-status, -time`: for each changelist the first of its deployments in that
   * order (on a tie the earlier row of the table).
   */
  function Chosen(ds: seq<Deployment>): (m: map<nat, Deployment>)
    decreases |ds|
  {
    if ds == [] then map[]
    else
      var m := Chosen(ds[..|ds| - 1]);
      var d := ds[|ds| - 1];
      if d.changeList in m && !Precedes(d, m[d.changeList]) then m else m[d.changeList := d]
  }

  /**
   * Each changelist with deployments has exactly one chosen: one of its own
   * deployments, which none of its others comes before; changelists without
   * deployments have none.
   */
  lemma {:induction false} ChosenIsFirst(ds: seq<Deployment>)
    ensures forall c :: c in Chosen(ds) <==> HasDeployment(ds, c)
    ensures forall c :: c in Chosen(ds) ==> Chosen(ds)[c] in ds && Chosen(ds)[c].changeList == c && IsFirst(ds, Chosen(ds)[c])
    decreases |ds|
  {
    if ds != [] {
      var init := ds[..|ds| - 1];
      var d := ds[|ds| - 1];
      ChosenIsFirst(init);
      assert ds == init + [d];
      var m := Chosen(init);
      forall c: nat ensures c in Chosen(ds) <==> HasDeployment(ds, c) {
        if HasDeployment(ds, c) && c != d.changeList {
          var e :| e in ds && e.changeList == c;
          assert e in init;
        }
        if c in m {
          assert m[c] in ds;
        }
      }
      forall c | c in Chosen(ds) ensures Chosen(ds)[c] in ds && Chosen(ds)[c].changeList == c && IsFirst(ds, Chosen(ds)[c]) {
        var best := Chosen(ds)[c];
        forall e | e in ds && e.changeList == c ensures !Precedes(e, best) {
          if e != d {
            assert e in init;
            if c == d.changeList && !(d.changeList in m && !Precedes(d, m[d.changeList])) && c in m {
              assert !Precedes(e, m[c]);
            }
          } else if c in m && best == m[c] {
            assert !Precedes(d, m[c]);
          }
        }
      }
    }
  }

  /** The deployments the keep-set query selects from, in table order. */
  function Selected(changeLists: seq<ChangeList>, deployments: seq<Deployment>, project: nat, start: Option<int>, end: Option<int>): seq<Deployment> {
    Filter(deployments, (d: Deployment) => Selectable(changeLists, d, project, start, end))
  }

  lemma SelectedMembers(changeLists: seq<ChangeList>, deployments: seq<Deployment>, project: nat, start: Option<int>, end: Option<int>)
    ensures forall d :: d in Selected(changeLists, deployments, project, start, end) <==>
      d in deployments && Selectable(changeLists, d, project, start, end)
  {
    FilterMembers(deployments, (d: Deployment) => Selectable(changeLists, d, project, start, end));
  }

  /** The ids of the deployments to keep: the chosen deployment of each selected changelist. */
  function KeptIds(changeLists: seq<ChangeList>, deployments: seq<Deployment>, project: nat, start: Option<int>, end: Option<int>): set<nat> {
    IdsOf(Chosen(Selected(changeLists, deployments, project, start, end)))
  }

  function IdsOf(m: map<nat, Deployment>): set<nat> {
    set c | c in m :: m[c].id
  }

  /** A deployment of the project survives only when its id is kept. */
  predicate Survives(changeLists: seq<ChangeList>, d: Deployment, project: nat, kept: set<nat>) {
    !OfProject(changeLists, d, project) || d.id in kept
  }

  /**
   * `remove_deployments_of_changelists_except_latest_ones`: the deployments
   * table after the deletion, or the error of a project that does not exist.
   */
  function RemoveDeploymentsExceptLatest(
    projects: seq<nat>, changeLists: seq<ChangeList>, deployments: seq<Deployment>,
    project: nat, start: Option<int>, end: Option<int>
  ): (r: Result<seq<Deployment>>)
    ensures r.Err? <==> project !in projects
    ensures r.Err? ==> r.error == ProjectDoesNotExist
  {
    if project !in projects then Err(ProjectDoesNotExist)
    else
      var kept := KeptIds(changeLists, deployments, project, start, end);
      Ok(Filter(deployments, (d: Deployment) => Survives(changeLists, d, project, kept)))
  }

  /** Deployment ids are unique in the table. */
  predicate UniqueIds(deployments: seq<Deployment>) {
    forall i, j :: 0 <= i < j < |deployments| ==> deployments[i].id != deployments[j].id
  }

  lemma SameId(deployments: seq<Deployment>, d: Deployment, e: Deployment)
    requires UniqueIds(deployments) && d in deployments && e in deployments && d.id == e.id
    ensures d == e
  {
    var i :| 0 <= i < |deployments| && deployments[i] == d;
    var j :| 0 <= j < |deployments| && deployments[j] == e;
    assert i == j;
  }

  lemma DistinctRows(deployments: seq<Deployment>, d: Deployment, e: Deployment)
    requires UniqueIds(deployments) && d in deployments && e in deployments && d != e
    ensures d.id != e.id
  {
    var i :| 0 <= i < |deployments| && deployments[i] == d;
    var j :| 0 <= j < |deployments| && deployments[j] == e;
    if i < j {
      assert deployments[i].id != deployments[j].id;
    } else {
      assert deployments[j].id != deployments[i].id;
    }
  }

  /**
   * The deletion never adds a deployment, and leaves the deployments of other
   * projects' changelists (and those without a changelist) as they were.
   */
  lemma OnlyTheProjectIsPruned(
    projects: seq<nat>, changeLists: seq<ChangeList>, deployments: seq<Deployment>,
    project: nat, start: Option<int>, end: Option<int>)
    requires project in projects
    ensures var r := RemoveDeploymentsExceptLatest(projects, changeLists, deployments, project, start, end).value;
      |r| <= |deployments| &&
      (forall d :: d in r ==> d in deployments) &&
      (forall d :: d in deployments && !OfProject(changeLists, d, project) ==> d in r)
  {
    SurvivorMembers(projects, changeLists, deployments, project, start, end);
  }

  lemma SurvivorMembers(
    projects: seq<nat>, changeLists: seq<ChangeList>, deployments: seq<Deployment>,
    project: nat, start: Option<int>, end: Option<int>)
    requires project in projects
    ensures var kept := KeptIds(changeLists, deployments, project, start, end);
      forall d :: d in RemoveDeploymentsExceptLatest(projects, changeLists, deployments, project, start, end).value <==>
        d in deployments && Survives(changeLists, d, project, kept)
  {
    var kept := KeptIds(changeLists, deployments, project, start, end);
    FilterMembers(deployments, (d: Deployment) => Survives(changeLists, d, project, kept));
  }

  /**
   * For each changelist of the project in the period that has deployments,
   * exactly one of them survives: one that no other deployment of that
   * changelist comes before in `-status, -time` order, so a passing one when
   * the changelist has one, and the latest of its status.
   */
  lemma OneSurvivorPerChangeList(
    projects: seq<nat>, changeLists: seq<ChangeList>, deployments: seq<Deployment>,
    project: nat, start: Option<int>, end: Option<int>, c: ChangeList)
    requires project in projects && UniqueIds(deployments)
    requires c in changeLists && c.project == project && InPeriod(c.time, start, end)
    requires forall c' :: c' in changeLists && c'.id == c.id ==> c' == c
    requires HasDeployment(deployments, c.id)
    ensures var r := RemoveDeploymentsExceptLatest(projects, changeLists, deployments, project, start, end).value;
      exists best :: best in r && best.changeList == c.id && IsFirst(deployments, best) &&
        forall d :: d in r && d.changeList == c.id ==> d == best
  {
    var r := RemoveDeploymentsExceptLatest(projects, changeLists, deployments, project, start, end).value;
    var p := (d: Deployment) => Selectable(changeLists, d, project, start, end);
    var sel := Selected(changeLists, deployments, project, start, end);
    var kept := KeptIds(changeLists, deployments, project, start, end);
    var m := Chosen(sel);
    ChosenIsFirst(sel);
    SelectedMembers(changeLists, deployments, project, start, end);
    SurvivorMembers(projects, changeLists, deployments, project, start, end);
    forall d: Deployment | d.changeList == c.id ensures ChangeListOf(changeLists, d) == Some(c) {
      var found := ChangeListOf(changeLists, d);
      assert c.id == d.changeList;
      assert found.Some?;
    }
    var e :| e in deployments && e.changeList == c.id;
    assert e in sel;
    assert c.id in m;
    var best := m[c.id];
    assert best in deployments && best.id in kept;
    assert best in r;
    assert IsFirst(deployments, best) by {
      forall x | x in deployments && x.changeList == best.changeList ensures !Precedes(x, best) {
        assert x in sel;
      }
    }
    forall d | d in r && d.changeList == c.id ensures d == best {
      assert d in deployments && OfProject(changeLists, d, project);
      assert d.id in kept;
      var c' :| c' in m && m[c'].id == d.id;
      SameId(deployments, d, m[c']);
    }
  }

  /** Every deployment of a changelist of the project outside the period is deleted. */
  lemma OutOfPeriodIsDeleted(
    projects: seq<nat>, changeLists: seq<ChangeList>, deployments: seq<Deployment>,
    project: nat, start: Option<int>, end: Option<int>, d: Deployment)
    requires project in projects && UniqueIds(deployments) && d in deployments
    requires OfProject(changeLists, d, project) && !InPeriod(ChangeListOf(changeLists, d).value.time, start, end)
    ensures d !in RemoveDeploymentsExceptLatest(projects, changeLists, deployments, project, start, end).value
  {
    var sel := Selected(changeLists, deployments, project, start, end);
    var m := Chosen(sel);
    ChosenIsFirst(sel);
    SelectedMembers(changeLists, deployments, project, start, end);
    SurvivorMembers(projects, changeLists, deployments, project, start, end);
    forall c | c in m ensures m[c].id != d.id {
      assert m[c] in sel;
      DistinctRows(deployments, m[c], d);
    }
  }

  // ---------------------------------------------------------------------------
  // Example
  // ---------------------------------------------------------------------------

  function ExampleChangeLists(): seq<ChangeList> {
    [ChangeList(1, 1, "1", "1", None, 0), ChangeList(2, 1, "2", "2", None, 0), ChangeList(3, 1, "3", "3", None, 0)]
  }

  /** Deployments one second apart: changelist 1 fail, pass, fail; 2 fail, fail; 3 pass, pass. */
  function ExampleDeployments(): seq<Deployment> {
    [Deployment(1, 1, 1, Fail, 1), Deployment(2, 1, 1, Pass, 2), Deployment(3, 1, 1, Fail, 3),
     Deployment(4, 1, 2, Fail, 4), Deployment(5, 1, 2, Fail, 5),
     Deployment(6, 1, 3, Pass, 6), Deployment(7, 1, 3, Pass, 7)]
  }

  lemma ExampleAllSelected(cls: seq<ChangeList>, ds: seq<Deployment>)
    requires cls == ExampleChangeLists() && ds == ExampleDeployments()
    ensures Selected(cls, ds, 1, None, None) == ds
  {
    forall d | d in ds ensures Selectable(cls, d, 1, None, None) {
      assert ChangeListOf(cls, d) == Some(cls[d.changeList - 1]);
    }
    FilterKeepsAll(ds, (d: Deployment) => Selectable(cls, d, 1, None, None));
  }

  lemma ExampleChosen(ds: seq<Deployment>)
    requires ds == ExampleDeployments()
    ensures Chosen(ds) == map[1 := ds[1], 2 := ds[4], 3 := ds[6]]
  {
    assert ds[..1][..0] == [];
    assert Chosen(ds[..1]) == map[1 := ds[0]];
    assert ds[..2][..1] == ds[..1];
    assert Chosen(ds[..2]) == map[1 := ds[1]];
    assert ds[..3][..2] == ds[..2];
    assert Chosen(ds[..3]) == map[1 := ds[1]];
    assert ds[..4][..3] == ds[..3];
    assert Chosen(ds[..4]) == map[1 := ds[1], 2 := ds[3]];
    assert ds[..5][..4] == ds[..4];
    assert Chosen(ds[..5]) == map[1 := ds[1], 2 := ds[4]];
    assert ds[..6][..5] == ds[..5];
    assert Chosen(ds[..6]) == map[1 := ds[1], 2 := ds[4], 3 := ds[5]];
    assert ds[..6] == ds[..|ds| - 1];
  }

  lemma ExampleKept(cls: seq<ChangeList>, ds: seq<Deployment>)
    requires cls == ExampleChangeLists() && ds == ExampleDeployments()
    ensures KeptIds(cls, ds, 1, None, None) == {2, 5, 7}
  {
    ExampleAllSelected(cls, ds);
    ExampleChosen(ds);
    SmallMapIds(Chosen(ds), ds[1], ds[4], ds[6]);
  }

  lemma SmallMapIds(m: map<nat, Deployment>, a: Deployment, b: Deployment, c: Deployment)
    requires m == map[1 := a, 2 := b, 3 := c]
    ensures IdsOf(m) == {a.id, b.id, c.id}
  {
    var ids := IdsOf(m);
    assert a.id in ids by { assert 1 in m; }
    assert b.id in ids by { assert 2 in m; }
    assert c.id in ids by { assert 3 in m; }
  }

  lemma ExampleAllOfProject(cls: seq<ChangeList>, ds: seq<Deployment>)
    requires cls == ExampleChangeLists() && ds == ExampleDeployments()
    ensures forall k :: 0 <= k < |ds| ==> OfProject(cls, ds[k], 1)
  {
    forall k | 0 <= k < |ds| ensures OfProject(cls, ds[k], 1) {
      assert ChangeListOf(cls, ds[k]) == Some(cls[ds[k].changeList - 1]);
    }
  }

  lemma FilterSecondFifthSeventh(ds: seq<Deployment>, p: Deployment -> bool)
    requires |ds| == 7 && !p(ds[0]) && p(ds[1]) && !p(ds[2]) && !p(ds[3]) && p(ds[4]) && !p(ds[5]) && p(ds[6])
    ensures Filter(ds, p) == [ds[1], ds[4], ds[6]]
  {
    FilterFromFourth(ds, p);
    assert Filter(ds[2..], p) == [ds[4], ds[6]] by {
      FilterAt(ds, 2, p, [ds[4], ds[6]]);
    }
    assert Filter(ds[1..], p) == [ds[1], ds[4], ds[6]] by {
      FilterAt(ds, 1, p, [ds[4], ds[6]]);
    }
    assert Filter(ds[0..], p) == [ds[1], ds[4], ds[6]] by {
      FilterAt(ds, 0, p, [ds[1], ds[4], ds[6]]);
    }
    assert ds[0..] == ds;
  }

  lemma FilterFromFourth(ds: seq<Deployment>, p: Deployment -> bool)
    requires |ds| == 7 && !p(ds[3]) && p(ds[4]) && !p(ds[5]) && p(ds[6])
    ensures Filter(ds[3..], p) == [ds[4], ds[6]]
  {
    assert Filter(ds[7..], p) == [] by {
      assert ds[7..] == [];
    }
    assert Filter(ds[6..], p) == [ds[6]] by {
      FilterAt(ds, 6, p, []);
    }
    assert Filter(ds[5..], p) == [ds[6]] by {
      FilterAt(ds, 5, p, [ds[6]]);
    }
    assert Filter(ds[4..], p) == [ds[4], ds[6]] by {
      FilterAt(ds, 4, p, [ds[6]]);
    }
    FilterAt(ds, 3, p, [ds[4], ds[6]]);
  }

  lemma ExampleSurvivors(cls: seq<ChangeList>, ds: seq<Deployment>, kept: set<nat>)
    requires cls == ExampleChangeLists() && ds == ExampleDeployments() && kept == {2, 5, 7}
    ensures Filter(ds, (d: Deployment) => Survives(cls, d, 1, kept)) == [ds[1], ds[4], ds[6]]
  {
    var p := (d: Deployment) => Survives(cls, d, 1, kept);
    assert forall k :: 0 <= k < |ds| ==> (p(ds[k]) <==> ds[k].id in kept) by {
      ExampleAllOfProject(cls, ds);
    }
    assert |ds| == 7 && ds[0].id == 1 && ds[1].id == 2 && ds[2].id == 3 && ds[3].id == 4 && ds[4].id == 5 && ds[5].id == 6 && ds[6].id == 7;
    FilterSecondFifthSeventh(ds, p);
  }

  /**
   * Three changelists deployed fail, pass, fail; fail, fail; and pass, pass:
   * without a period the only pass, the later fail and the later pass are kept.
   */
  lemma ExampleKeepsLatest()
    ensures var ds := ExampleDeployments();
      RemoveDeploymentsExceptLatest([1], ExampleChangeLists(), ds, 1, None, None) == Ok([ds[1], ds[4], ds[6]])
  {
    var cls, ds := ExampleChangeLists(), ExampleDeployments();
    ExampleKept(cls, ds);
    ExampleSurvivors(cls, ds, KeptIds(cls, ds, 1, None, None));
  }
}
