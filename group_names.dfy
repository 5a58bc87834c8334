/**
 * Names of the per-project permission groups (`<project> [<role>]` for the
 * three project roles), the project name read back from a group name, the
 * quality committee's group and the codename of a related add permission.
 */
module GroupAndPermissionUtils {
  import opened Common

  datatype Role = ProductManagers | Developers | TeamLeaders

  function RoleName(role: Role): string {
    match role
    case ProductManagers => "Product Managers"
    case Developers => "Developers"
    case TeamLeaders => "Team Leaders"
  }

  /** ` [<role>]`, the postfix of a role's group name. */
  function RolePostfix(role: Role): (r: string)
    ensures |r| >= 3 && r[..2] == " [" && r[|r| - 1] == ']'
  {
    " [" + RoleName(role) + "]"
  }

  /** The group of the project's members in the role: `<project> [<role>]`. */
  function GroupName(projectName: string, role: Role): (r: string)
    ensures EndsWith(r, RolePostfix(role)) && StartsWith(r, projectName)
    ensures |r| == |projectName| + |RolePostfix(role)|
  {
    var r := projectName + RolePostfix(role);
    assert r[..|projectName|] == projectName;
    assert r[|r| - |RolePostfix(role)|..] == RolePostfix(role);
    r
  }

  const QualityCommitteeGroupName: string := "Quality Committee"

  /**
   * The project of a group: the name without the postfix of the first role,
   * in the order product managers, developers, team leaders, whose postfix
   * ends it; `None` when no role's postfix ends it.
   */
  function ProjectNameFromGroupName(groupName: string): (r: Option<string>)
    ensures r.None? <==> forall role :: !EndsWith(groupName, RolePostfix(role))
    ensures r.Some? ==> exists role :: groupName == GroupName(r.value, role)
  {
    var pm, dev, tl := RolePostfix(ProductManagers), RolePostfix(Developers), RolePostfix(TeamLeaders);
    if EndsWith(groupName, pm) then
      var p := groupName[..|groupName| - |pm|];
      assert groupName == GroupName(p, ProductManagers);
      Some(p)
    else if EndsWith(groupName, dev) then
      var p := groupName[..|groupName| - |dev|];
      assert groupName == GroupName(p, Developers);
      Some(p)
    else if EndsWith(groupName, tl) then
      var p := groupName[..|groupName| - |tl|];
      assert groupName == GroupName(p, TeamLeaders);
      Some(p)
    else
      None
  }

  /** A string that differs from `suffix` at one position aligned to their ends does not end with it. */
  lemma MismatchAtEnd(s: string, suffix: string, k: nat)
    requires k < |suffix| && (|suffix| <= |s| ==> s[|s| - |suffix| + k] != suffix[k])
    ensures !EndsWith(s, suffix)
  {
    if |suffix| <= |s| {
      assert s[|s| - |suffix|..][k] == s[|s| - |suffix| + k];
    }
  }

  /** The fifth character from the end of each postfix, where the three first differ. */
  lemma PostfixFifthFromEnd(role: Role)
    ensures var p := RolePostfix(role);
      |p| >= 5 && p[|p| - 5] == (match role case ProductManagers => 'g' case Developers => 'p' case TeamLeaders => 'd')
  {
  }

  /** A role's postfix ends no other role's group name. */
  lemma PostfixesDoNotOverlap(projectName: string, role: Role, other: Role)
    requires other != role
    ensures !EndsWith(GroupName(projectName, role), RolePostfix(other))
  {
    var g := GroupName(projectName, role);
    var a, b := RolePostfix(role), RolePostfix(other);
    PostfixFifthFromEnd(role);
    PostfixFifthFromEnd(other);
    assert g[|g| - 5] == a[|a| - 5] by {
      assert g[|g| - |a|..] == a;
    }
    MismatchAtEnd(g, b, |b| - 5);
  }

  /** The project name is read back from each role's group name. */
  lemma ProjectNameRoundTrip(projectName: string, role: Role)
    ensures ProjectNameFromGroupName(GroupName(projectName, role)) == Some(projectName)
  {
    var g := GroupName(projectName, role);
    match role
    case ProductManagers =>
    case Developers =>
      PostfixesDoNotOverlap(projectName, role, ProductManagers);
    case TeamLeaders =>
      PostfixesDoNotOverlap(projectName, role, ProductManagers);
      PostfixesDoNotOverlap(projectName, role, Developers);
    assert g[..|g| - |RolePostfix(role)|] == projectName;
  }

  /** An unknown role and a name without a role postfix, and the quality committee, give no project. */
  lemma NoProjectForOtherNames()
    ensures ProjectNameFromGroupName("my-project [some-random-role]").None?
    ensures ProjectNameFromGroupName("my-project some custom group").None?
    ensures ProjectNameFromGroupName(QualityCommitteeGroupName).None?
  {
    forall role ensures
      && !EndsWith("my-project [some-random-role]", RolePostfix(role))
      && !EndsWith("my-project some custom group", RolePostfix(role))
      && !EndsWith(QualityCommitteeGroupName, RolePostfix(role))
    {
      var a, b, c := "my-project [some-random-role]", "my-project some custom group", QualityCommitteeGroupName;
      var p := RolePostfix(role);
      PostfixLastTwo(role);
      MismatchAtEnd(a, p, |p| - 2);
      MismatchAtEnd(b, p, |p| - 1);
      MismatchAtEnd(c, p, |p| - 1);
    }
  }

  /** Every postfix ends with `s]`. */
  lemma PostfixLastTwo(role: Role)
    ensures var p := RolePostfix(role); |p| >= 2 && p[|p| - 2] == 's' && p[|p| - 1] == ']'
  {
  }

  /** `add_<model>_for_<related model>_pk_<pk>`, the class names lower-cased. */
  function RelatedAddPermissionCodename(modelName: string, relatedModelName: string, relatedPk: nat): (r: string)
    ensures StartsWith(r, "add_")
    ensures forall i :: 0 <= i < |r| ==> !('A' <= r[i] <= 'Z')
    ensures EndsWith(r, "_pk_" + NatToString(relatedPk))
  {
    var pk := NatToString(relatedPk);
    var r := "add_" + Lower(modelName) + "_for_" + Lower(relatedModelName) + "_pk_" + pk;
    assert r[..4] == "add_";
    assert r[|r| - |"_pk_" + pk|..] == "_pk_" + pk;
    forall i | 0 <= i < |r| ensures !('A' <= r[i] <= 'Z') {
      var lm, lr := Lower(modelName), Lower(relatedModelName);
      if i >= |r| - |pk| {
        assert r[i] == pk[i - (|r| - |pk|)];
      } else if 4 <= i < 4 + |lm| {
        assert r[i] == lm[i - 4];
      } else if 4 + |lm| + 5 <= i < 4 + |lm| + 5 + |lr| {
        assert r[i] == lr[i - (4 + |lm| + 5)];
      }
    }
    r
  }
}
