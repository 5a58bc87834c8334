/**
 * The Gerrit changelist collector: the commits of a repository newer than
 * the project's latest saved changelist, without merge commits, oldest
 * first, each turned into a changelist identified by the `Change-Id:`
 * trailer of its message; commits without the trailer are skipped.
 */
module GerritChangelist {
  import opened Common
  import opened GitMiner
  import DevopsModels

  const ChangeIdTitle: string := "Change-Id:"

  // ---------------------------------------------------------------------------
  // `_get_changelist_id`
  // ---------------------------------------------------------------------------

  /** No occurrence of the separator can start inside another: its first character appears only there. */
  predicate FirstCharUnique(sep: string) {
    |sep| > 0 && forall d :: 0 < d < |sep| ==> sep[d] != sep[0]
  }

  /** Python's `s.split(sep)[-1]`: the occurrences are cut left to right; the last piece is kept. */
  function SplitLast(s: string, sep: string): (r: string)
    requires |sep| > 0
    ensures |r| <= |s|
    decreases |s|
  {
    var k := IndexFrom(s, sep, 0);
    if k < 0 then s else SplitLast(s[k + |sep|..], sep)
  }

  predicate IsNewline(c: char) { c == '\n' }

  /** `s.partition('\n')[0]`: the text before the first newline, or all of it. */
  function BeforeNewline(s: string): (r: string)
    ensures |r| <= |s| && r == s[..|r|]
    ensures forall i :: 0 <= i < |r| ==> r[i] != '\n'
    ensures |r| < |s| ==> s[|r|] == '\n'
  {
    var k := FirstIndex(s, IsNewline);
    if k < 0 then s else s[..k]
  }

  /** `"Change-Id:" in body`. */
  predicate ContainsTitle(body: string) {
    exists j :: 0 <= j <= |body| && OccursAt(body, ChangeIdTitle, j)
  }

  /**
   * `_get_changelist_id`: the text after the last `Change-Id:` of the message
   * up to the end of its line, stripped; `None` stands for the exception
   * raised when the message has no `Change-Id:` at all.
   */
  function ChangelistId(body: string): (r: Option<string>)
    ensures r.None? <==> !ContainsTitle(body)
    ensures r.Some? ==> r.value == [] || (!IsWhitespace(r.value[0]) && !IsWhitespace(r.value[|r.value| - 1]))
  {
    if IndexFrom(body, ChangeIdTitle, 0) < 0 then None
    else Some(Strip(BeforeNewline(SplitLast(body, ChangeIdTitle))))
  }

  /** An occurrence in a suffix is an occurrence in the whole text, shifted. */
  lemma OccursInSuffix(s: string, sep: string, off: nat, j: nat)
    requires off <= |s|
    ensures OccursAt(s[off..], sep, j) <==> OccursAt(s, sep, off + j)
  {
    if off + j + |sep| <= |s| {
      assert s[off..][j..j + |sep|] == s[off + j..off + j + |sep|];
    }
  }

  /** An occurrence with none after it is the last one. */
  lemma LastOccurrenceIs(s: string, sep: string, k: int)
    requires k == -1 || OccursAt(s, sep, k)
    requires forall j :: k < j <= |s| ==> !OccursAt(s, sep, j)
    ensures LastOccurrence(s, sep) == k
  {
    var l := LastOccurrence(s, sep);
    assert !OccursAt(s, sep, l) || l <= k;
    assert !OccursAt(s, sep, k) || k <= l;
  }

  /**
   * For a separator whose occurrences cannot overlap, the last piece of the
   * split is the text after the last occurrence, as `rfind` finds it.
   */
  lemma {:induction false} SplitLastAfterLastOccurrence(s: string, sep: string)
    requires FirstCharUnique(sep)
    ensures var k := LastOccurrence(s, sep); SplitLast(s, sep) == if k < 0 then s else s[k + |sep|..]
    decreases |s|
  {
    var k0 := IndexFrom(s, sep, 0);
    if k0 < 0 {
      LastOccurrenceIs(s, sep, -1);
    } else {
      var t := s[k0 + |sep|..];
      SplitLastAfterLastOccurrence(t, sep);
      LastAfterFirst(s, sep, k0);
      var kt := LastOccurrence(t, sep);
      if kt >= 0 {
        assert s[k0 + |sep| + kt + |sep|..] == t[kt + |sep|..];
      }
    }
  }

  /** The last occurrence is the first one, or lies in the text after it. */
  lemma LastAfterFirst(s: string, sep: string, k0: nat)
    requires FirstCharUnique(sep) && OccursAt(s, sep, k0)
    ensures var kt := LastOccurrence(s[k0 + |sep|..], sep);
      LastOccurrence(s, sep) == if kt < 0 then k0 else k0 + |sep| + kt
  {
    var off := k0 + |sep|;
    var t := s[off..];
    var kt := LastOccurrence(t, sep);
    NoOverlap(s, sep, k0);
    forall j | off <= j <= |s| ensures OccursAt(s, sep, j) ==> OccursAt(t, sep, j - off) {
      OccursInSuffix(s, sep, off, j - off);
    }
    if kt < 0 {
      LastOccurrenceIs(s, sep, k0);
    } else {
      OccursInSuffix(s, sep, off, kt);
      LastOccurrenceIs(s, sep, off + kt);
    }
  }

  lemma NoOverlap(s: string, sep: string, k0: nat)
    requires FirstCharUnique(sep) && OccursAt(s, sep, k0)
    ensures forall j :: k0 < j < k0 + |sep| ==> !OccursAt(s, sep, j)
  {
    forall j | k0 < j < k0 + |sep| ensures !OccursAt(s, sep, j) {
      if j + |sep| <= |s| {
        assert s[j] == s[k0..k0 + |sep|][j - k0] == sep[j - k0];
        assert s[j..j + |sep|][0] == s[j];
      }
    }
  }

  /** A message ending with the trailer `Change-Id: <id>` gives that id. */
  lemma ChangeIdTrailer(message: string, id: string)
    requires forall i :: 0 <= i < |id| ==> id[i] != ':' && id[i] != '\n'
    requires Strip(id) == id
    ensures ChangelistId(message + "Change-Id: " + id + "\n") == Some(id)
  {
    var after := " " + id + "\n";
    var s := message + ChangeIdTitle + after;
    TrailerText(message, id);
    NoColonAfterTitle(id);
    TrailerIsLast(message, after);
    TitleFirstCharUnique();
    SplitLastAfterLastOccurrence(s, ChangeIdTitle);
    assert s[|message| + |ChangeIdTitle|..] == after;
    TrailerValue(id);
  }

  /** Occurrences of `Change-Id:` never overlap: its `C` appears only at its start. */
  lemma TitleFirstCharUnique()
    ensures FirstCharUnique(ChangeIdTitle)
  {
    forall d | 0 < d < |ChangeIdTitle| ensures ChangeIdTitle[d] != 'C' {
      assert ChangeIdTitle[d] in "hange-Id:";
    }
  }

  lemma TrailerText(message: string, id: string)
    ensures message + "Change-Id: " + id + "\n" == message + ChangeIdTitle + (" " + id + "\n")
  {
  }

  lemma NoColonAfterTitle(id: string)
    requires forall i :: 0 <= i < |id| ==> id[i] != ':'
    ensures forall i :: 0 <= i < |id| + 2 ==> (" " + id + "\n")[i] != ':'
  {
    var after := " " + id + "\n";
    forall i | 0 <= i < |id| + 2 ensures after[i] != ':' {
      if 0 < i <= |id| {
        assert after[i] == id[i - 1];
      }
    }
  }

  /** The text after the trailer's `Change-Id:` reads as the id. */
  lemma TrailerValue(id: string)
    requires forall i :: 0 <= i < |id| ==> id[i] != '\n'
    requires Strip(id) == id
    ensures Strip(BeforeNewline(" " + id + "\n")) == id
  {
    var after := " " + id + "\n";
    assert after[|id| + 1] == '\n';
    assert forall j :: 0 <= j < |id| + 1 ==> after[j] != '\n';
    assert FirstIndex(after, IsNewline) == |id| + 1;
    assert BeforeNewline(after) == " " + id;
    assert (" " + id)[1..] == id;
  }

  /** With no `:` after it, the trailer's `Change-Id:` is the last one of the message. */
  lemma TrailerIsLast(message: string, after: string)
    requires forall i :: 0 <= i < |after| ==> after[i] != ':'
    ensures var s := message + ChangeIdTitle + after;
      LastOccurrence(s, ChangeIdTitle) == |message| && IndexFrom(s, ChangeIdTitle, 0) >= 0
  {
    var s := message + ChangeIdTitle + after;
    var k := |message|;
    assert s[k..k + 10] == ChangeIdTitle;
    forall j | k < j <= |s| ensures !OccursAt(s, ChangeIdTitle, j) {
      if j + 10 <= |s| {
        assert s[j + 9] == after[j - 1 - k];
        assert s[j..j + 10][9] == s[j + 9];
      }
    }
    LastOccurrenceIs(s, ChangeIdTitle, k);
  }

  // ---------------------------------------------------------------------------
  // `_get_new_commits`
  // ---------------------------------------------------------------------------

  /**
   * `_get_new_commits`: the commits in log order up to, not including, the
   * first whose sha is the latest changelist's commit hash; all of them
   * when there is no latest changelist or no such commit.
   */
  function NewCommits(latestHash: Option<string>, commits: seq<Commit>): (r: seq<Commit>)
    ensures |r| <= |commits| && r == commits[..|r|]
    ensures latestHash.Some? ==> forall i :: 0 <= i < |r| ==> r[i].sha != latestHash.value
    ensures |r| < |commits| ==> latestHash.Some? && commits[|r|].sha == latestHash.value
  {
    if commits == [] || (latestHash.Some? && commits[0].sha == latestHash.value) then []
    else
      var rest := NewCommits(latestHash, commits[1..]);
      assert [commits[0]] + rest == commits[..|rest| + 1];
      [commits[0]] + rest
  }

  /** What pulling the commits from the log gives: the commits, or the error that stopped the log. */
  datatype Collected<T> = Collected(items: seq<T>) | LogFailed(error: LogError)

  /**
   * The generator pulls blocks only until the latest commit: a log that
   * fails after it is never read that far; one that fails before it (or
   * has none of it) stops the collection with its error.
   */
  function NewCommitsOfLog(latestHash: Option<string>, log: Log): (r: Collected<Commit>)
    ensures r.LogFailed? <==> log.failure.Some? && |NewCommits(latestHash, log.commits)| == |log.commits|
    ensures r.LogFailed? ==> r.error == log.failure.value
    ensures r.Collected? ==> r.items == NewCommits(latestHash, log.commits)
  {
    var found := NewCommits(latestHash, log.commits);
    if |found| == |log.commits| && log.failure.Some? then LogFailed(log.failure.value) else Collected(found)
  }

  /** The commit of the latest saved changelist and everything older is left out. */
  lemma SavedCommitsNotDetectedAgain(latestHash: string, commits: seq<Commit>, k: nat)
    requires k < |commits| && commits[k].sha == latestHash
    requires forall i :: 0 <= i < k ==> commits[i].sha != latestHash
    ensures NewCommits(Some(latestHash), commits) == commits[..k]
  {
    var r := NewCommits(Some(latestHash), commits);
    assert |r| < |commits| ==> commits[|r|].sha == latestHash;
    assert !(|r| < k) && !(k < |r|);
  }

  // ---------------------------------------------------------------------------
  // `get_new_changelists`
  // ---------------------------------------------------------------------------

  /** The project's changelist with the highest id (`order_by('id').last()`), not the latest in time. */
  function LatestChangelist(project: nat, table: seq<DevopsModels.ChangeList>): (r: Option<DevopsModels.ChangeList>)
    ensures r.None? <==> forall cl :: cl in table ==> cl.project != project
    ensures r.Some? ==> r.value in table && r.value.project == project
    ensures r.Some? ==> forall cl :: cl in table && cl.project == project ==> cl.id <= r.value.id
  {
    var p := (cl: DevopsModels.ChangeList) => cl.project == project;
    FilterMembers(table, p);
    var rows := Filter(table, p);
    LatestBy(rows, (cl: DevopsModels.ChangeList) => cl.id)
  }

  function LatestHash(project: nat, table: seq<DevopsModels.ChangeList>): Option<string> {
    var latest := LatestChangelist(project, table);
    if latest.Some? then Some(latest.value.commitHash) else None
  }

  predicate IsNotMerge(c: Commit) { !c.isMerge }

  function Reverse<T>(s: seq<T>): (r: seq<T>)
    ensures |r| == |s| && forall i :: 0 <= i < |s| ==> r[i] == s[|s| - 1 - i]
  {
    if s == [] then [] else Reverse(s[1..]) + [s[0]]
  }

  /**
   * The body of the loop's `try`: the unsaved changelist of a commit, with
   * its Change-Id, sha, title and commit time; `None` when the Change-Id is
   * missing and the commit is skipped.
   */
  function NewChangelist(project: nat, c: Commit, commitTime: string -> int): Option<DevopsModels.ChangeList> {
    var id := ChangelistId(c.body);
    if id.None? then None
    else Some(DevopsModels.ChangeList(0, project, id.value, c.sha, Some(c.title), commitTime(c.commitDate)))
  }

  /** The changelists of the commits, in the commits' order, skipping those without a Change-Id. */
  function Changelists(project: nat, commits: seq<Commit>, commitTime: string -> int): seq<DevopsModels.ChangeList> {
    if commits == [] then []
    else
      var last := NewChangelist(project, commits[|commits| - 1], commitTime);
      Changelists(project, commits[..|commits| - 1], commitTime) + (if last.Some? then [last.value] else [])
  }

  /** The new non-merge commits, oldest first. */
  function NewNonMergeCommits(found: seq<Commit>): seq<Commit> {
    Reverse(Filter(found, IsNotMerge))
  }

  function NewChangelists(project: nat, table: seq<DevopsModels.ChangeList>, log: Log, commitTime: string -> int): Collected<DevopsModels.ChangeList> {
    var found := NewCommitsOfLog(LatestHash(project, table), log);
    if found.LogFailed? then LogFailed(found.error)
    else Collected(Changelists(project, NewNonMergeCommits(found.items), commitTime))
  }

  /**
   * `get_new_changelists`: the new commits without merge commits, reversed
   * in place to oldest first, then a loop appending the changelist of each
   * commit that has a Change-Id. `commitTime` reads the commit date.
   */
  method GetNewChangelists(project: nat, table: seq<DevopsModels.ChangeList>, log: Log, commitTime: string -> int)
    returns (r: Collected<DevopsModels.ChangeList>)
    ensures r == NewChangelists(project, table, log, commitTime)
  {
    var latest := LatestChangelist(project, table);
    var hash := if latest.Some? then Some(latest.value.commitHash) else None;
    var found := NewCommitsOfLog(hash, log);
    if found.LogFailed? {
      return LogFailed(found.error);
    }
    var newCommits := Filter(found.items, IsNotMerge);
    newCommits := Reverse(newCommits);
    var result: seq<DevopsModels.ChangeList> := [];
    for i := 0 to |newCommits|
      invariant result == Changelists(project, newCommits[..i], commitTime)
    {
      var changelist := NewChangelist(project, newCommits[i], commitTime);
      ChangelistsStep(project, newCommits, i, commitTime);
      if changelist.Some? {
        result := result + [changelist.value];
      }
    }
    assert newCommits[..|newCommits|] == newCommits;
    r := Collected(result);
  }

  lemma ChangelistsStep(project: nat, commits: seq<Commit>, i: nat, commitTime: string -> int)
    requires i < |commits|
    ensures var c := NewChangelist(project, commits[i], commitTime);
      Changelists(project, commits[..i + 1], commitTime) ==
      Changelists(project, commits[..i], commitTime) + (if c.Some? then [c.value] else [])
  {
    assert commits[..i + 1][..i] == commits[..i];
  }

  predicate HasChangeId(c: Commit) { ChangelistId(c.body).Some? }

  /** One changelist per commit with a Change-Id, none for the others. */
  lemma {:induction false} ChangelistsCount(project: nat, commits: seq<Commit>, commitTime: string -> int)
    ensures |Changelists(project, commits, commitTime)| == Count(commits, HasChangeId)
  {
    if commits != [] {
      var init, last := commits[..|commits| - 1], commits[|commits| - 1];
      assert commits == init + [last];
      ChangelistsCount(project, init, commitTime);
      CountSnoc(init, last, HasChangeId);
    }
  }

  lemma {:induction false} CountSnoc<T(!new)>(s: seq<T>, x: T, p: T -> bool)
    ensures Count(s + [x], p) == Count(s, p) + (if p(x) then 1 else 0)
  {
    if s != [] {
      assert (s + [x])[1..] == s[1..] + [x];
      CountSnoc(s[1..], x, p);
    }
  }

  /** When every commit has a Change-Id, the changelists follow the commits one for one, in order. */
  lemma {:induction false} ChangelistsFollowCommits(project: nat, commits: seq<Commit>, commitTime: string -> int)
    requires forall i :: 0 <= i < |commits| ==> HasChangeId(commits[i])
    ensures var r := Changelists(project, commits, commitTime);
      |r| == |commits| && forall i :: 0 <= i < |commits| ==> Some(r[i]) == NewChangelist(project, commits[i], commitTime)
  {
    if commits != [] {
      var init := commits[..|commits| - 1];
      ChangelistsFollowCommits(project, init, commitTime);
      assert HasChangeId(commits[|commits| - 1]);
    }
  }

  /**
   * The changelists come out oldest first: the i-th is made from the i-th
   * new non-merge commit counted from the oldest, that is from the end of
   * the log order.
   */
  lemma OldestFirst(project: nat, found: seq<Commit>, commitTime: string -> int)
    requires forall c :: c in found ==> HasChangeId(c)
    ensures var kept := Filter(found, IsNotMerge);
      var r := Changelists(project, NewNonMergeCommits(found), commitTime);
      |r| == |kept| && forall i :: 0 <= i < |kept| ==> r[i].commitHash == kept[|kept| - 1 - i].sha
  {
    var kept := Filter(found, IsNotMerge);
    FilterMembers(found, IsNotMerge);
    var nc := NewNonMergeCommits(found);
    forall i | 0 <= i < |nc| ensures HasChangeId(nc[i]) {
      assert nc[i] == kept[|kept| - 1 - i];
      assert nc[i] in kept;
    }
    ChangelistsFollowCommits(project, nc, commitTime);
  }

  /** A log whose newest commit is the latest saved changelist's gives no new changelist. */
  lemma NothingNewAfterSave(project: nat, table: seq<DevopsModels.ChangeList>, log: Log, commitTime: string -> int)
    requires log.commits != [] && LatestHash(project, table) == Some(log.commits[0].sha)
    ensures NewChangelists(project, table, log, commitTime) == Collected([])
  {
    assert Filter([], IsNotMerge) == [];
  }
}
