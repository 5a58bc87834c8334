/**
 * The changelist report built from a GitLab merge request: its id is the
 * request's `iid` as text, its title is copied, its commit hash is the one
 * the request left on the target branch, and its merge time is parsed from
 * `merged_at`; the report itself is filled in later.
 */
module ChangelistReporter {
  import opened Common
  import opened Numbers
  import opened GeneralUtils

  /** The fields of the merge request JSON the report reads; an absent key reads as `None`. */
  datatype MergeRequest = MergeRequest(
    iid: Option<int>, title: Option<string>, sha: Option<string>,
    mergeCommitSha: Option<string>, squashCommitSha: Option<string>, mergedAt: Option<string>)

  datatype ChangeListReport = ChangeListReport(
    id: string, title: Option<string>, commitSha: Option<string>, mergeTime: int, report: Option<map<string, string>>)

  /**
   * `ChangeListReport.__init__`: the fields as given, the merge time parsed
   * by `parseTime` (the date parser, `None` where it raises; a missing
   * `merged_at` raises too), and no report yet.
   */
  function NewChangeListReport(
    id: string, title: Option<string>, commitSha: Option<string>, mergeTime: Option<string>,
    parseTime: string -> Option<int>): (r: Option<ChangeListReport>)
    ensures r.Some? <==> mergeTime.Some? && parseTime(mergeTime.value).Some?
    ensures r.Some? ==> r.value.id == id && r.value.title == title && r.value.commitSha == commitSha
    ensures r.Some? ==> r.value.mergeTime == parseTime(mergeTime.value).value && r.value.report.None?
  {
    if mergeTime.None? then None
    else
      var parsed := parseTime(mergeTime.value);
      if parsed.None? then None else Some(ChangeListReport(id, title, commitSha, parsed.value, None))
  }

  /**
   * The hash of the request's commit on the target branch: the squash
   * commit's if there is one, else the merge commit's, else the last commit
   * of the source branch.
   */
  function CommitHashInDefaultBranch(mr: MergeRequest): (r: Option<string>)
    ensures mr.squashCommitSha.Some? ==> r == mr.squashCommitSha
    ensures mr.squashCommitSha.None? && mr.mergeCommitSha.Some? ==> r == mr.mergeCommitSha
    ensures mr.squashCommitSha.None? && mr.mergeCommitSha.None? ==> r == mr.sha
  {
    var hash := mr.sha;
    if mr.squashCommitSha.Some? then mr.squashCommitSha
    else if mr.mergeCommitSha.Some? then mr.mergeCommitSha
    else hash
  }

  /** The choice is the first present value of squash, merge and source hash, in that order. */
  lemma CommitHashIsCoalesce(mr: MergeRequest)
    ensures CommitHashInDefaultBranch(mr) == Coalesce([mr.squashCommitSha, mr.mergeCommitSha, mr.sha])
  {
    var args := [mr.squashCommitSha, mr.mergeCommitSha, mr.sha];
    var r := Coalesce(args);
    if r.Some? {
      var k :| 0 <= k < |args| && args[k] == r && forall i :: 0 <= i < k ==> args[i].None?;
      if args[0].Some? {
        assert k == 0;
      } else if args[1].Some? {
        assert k == 1;
      } else {
        assert k == 2;
      }
    } else {
      assert args[0].None? && args[1].None? && args[2].None?;
    }
  }

  /** `str(iid)`: the decimal text of the number, `"None"` when the key is absent. */
  function IdText(iid: Option<int>): (r: string)
    ensures iid.Some? && iid.value >= 0 ==> AllDigits(r)
    ensures iid.None? ==> r == "None"
  {
    if iid.None? then "None" else IntToString(iid.value)
  }

  /** Different merge requests get different ids, and an absent iid shares its id with none of them. */
  lemma IdsAreDistinct(a: nat, b: nat)
    ensures a != b ==> IdText(Some(a)) != IdText(Some(b))
    ensures IdText(None) != IdText(Some(a))
  {
    if IdText(Some(a)) == IdText(Some(b)) {
      NatToStringInjective(a, b);
    }
    assert !IsDigit(IdText(None)[0]);
  }

  /** `from_gitlab_merge_request_json`. */
  function FromGitlabMergeRequest(mr: MergeRequest, parseTime: string -> Option<int>): (r: Option<ChangeListReport>)
    ensures r.Some? <==> mr.mergedAt.Some? && parseTime(mr.mergedAt.value).Some?
    ensures r.Some? ==> r.value.id == IdText(mr.iid) && r.value.title == mr.title && r.value.report.None?
    ensures r.Some? ==> r.value.commitSha == Coalesce([mr.squashCommitSha, mr.mergeCommitSha, mr.sha])
  {
    CommitHashIsCoalesce(mr);
    NewChangeListReport(IdText(mr.iid), mr.title, CommitHashInDefaultBranch(mr), mr.mergedAt, parseTime)
  }
}
