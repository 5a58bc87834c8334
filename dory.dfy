/**
 * Dory evaluations: a submission of a project to the Dory scanner, completed
 * once a poll finds its results, which are per-item pass/fail records kept in
 * a results file.
 */
module DoryModels {
  import opened Common
  import opened Numbers

  /** The result of one maturity model item in a Dory evaluation. */
  datatype MaturityItemDoryResult = MaturityItemDoryResult(code: string, passed: bool, description: string)

  /** A Dory evaluation; `results` is `None` while it has no results file. Times are in seconds. */
  datatype DoryEvaluation = DoryEvaluation(
    id: nat, project: nat, submissionTime: int, firstCompletedPollTime: Option<int>,
    submissionId: string, results: Option<seq<MaturityItemDoryResult>>)

  const MaxLengthSubmissionId: nat := 36
  /** Two days: a submission older than this is no longer polled. */
  const DoryPollingTimeoutSeconds: int := 2 * 24 * 60 * 60

  /** The table constraint: the first completed poll is never before the submission. */
  predicate PollNotBeforeSubmission(e: DoryEvaluation) {
    e.firstCompletedPollTime.Some? ==> e.firstCompletedPollTime.value >= e.submissionTime
  }

  // ---------------------------------------------------------------------------
  // Results file
  // ---------------------------------------------------------------------------

  /**
   * The results file name: `report-<pk>.json` once the evaluation is saved,
   * else `report-U<hex>.json` for a random hex string. The results directory
   * the file is stored in is not part of the name.
   */
  function ResultsFileName(pk: Option<nat>, hex: string): string {
    if pk.Some? then "report-" + NatToString(pk.value) + ".json" else "report-U" + hex + ".json"
  }

  /** A saved evaluation's file name never collides with an unsaved one's, and distinct pks give distinct names. */
  lemma ResultsFileNamesDistinct(pk: nat, other: Option<nat>, hex: string)
    requires other != Some(pk)
    ensures ResultsFileName(Some(pk), hex) != ResultsFileName(other, hex)
  {
    var a := ResultsFileName(Some(pk), hex);
    var b := ResultsFileName(other, hex);
    assert a[7] == NatToString(pk)[0];
    if other.None? {
      assert b[7] == 'U';
      assert IsDigit(a[7]);
    } else {
      if a == b {
        var s, t := NatToString(pk), NatToString(other.value);
        assert |s| == |t|;
        assert s == a[7..7 + |s|] == t;
        NatToStringInjective(pk, other.value);
      }
    }
  }

  /**
   * The result of the item with the given code: nothing without a results
   * file, else the first result with that code, or nothing.
   */
  function GetMaturityItemDoryResult(e: DoryEvaluation, code: string): (r: Option<MaturityItemDoryResult>)
    ensures e.results.None? ==> r.None?
    ensures r.None? ==> e.results.None? || forall x :: x in e.results.value ==> x.code != code
    ensures r.Some? ==> (
      e.results.Some? && r.value.code == code &&
      exists k :: 0 <= k < |e.results.value| && e.results.value[k] == r.value &&
        (forall j :: 0 <= j < k ==> e.results.value[j].code != code))
  {
    if e.results.None? then None
    else
      var k := FirstIndex(e.results.value, (x: MaturityItemDoryResult) => x.code == code);
      if k < 0 then None else Some(e.results.value[k])
  }

  // ---------------------------------------------------------------------------
  // Ordering by submission time
  // ---------------------------------------------------------------------------

  /** The ordering key of `order_by('submission_time')`. */
  function SubmissionTime(e: DoryEvaluation): int { e.submissionTime }

  // ---------------------------------------------------------------------------
  // Queries
  // ---------------------------------------------------------------------------

  /** Completed in the checking period: polled, submitted within the period, polled before `now`. */
  predicate CompletedInPeriod(e: DoryEvaluation, project: nat, checkingPeriodDays: int, now: int) {
    e.project == project && e.firstCompletedPollTime.Some? &&
    e.submissionTime >= now - checkingPeriodDays * Day && e.firstCompletedPollTime.value < now
  }

  /** The project's evaluations completed in the checking period, ordered by submission time. */
  function GetCompletedEvaluationsInCheckingPeriod(
    evaluations: seq<DoryEvaluation>, project: nat, checkingPeriodDays: int, now: int
  ): (r: seq<DoryEvaluation>)
    ensures SortedBy(r, SubmissionTime)
    ensures forall e :: e in r <==> e in evaluations && CompletedInPeriod(e, project, checkingPeriodDays, now)
  {
    var p := (e: DoryEvaluation) => CompletedInPeriod(e, project, checkingPeriodDays, now);
    FilterMembers(evaluations, p);
    OrderByMembers(Filter(evaluations, p), SubmissionTime);
    OrderBySorted(Filter(evaluations, p), SubmissionTime);
    OrderBy(Filter(evaluations, p), SubmissionTime)
  }

  /** Still being polled: no completed poll yet or one within the last polling interval, and submitted within two days. */
  predicate NotCompleted(e: DoryEvaluation, project: nat, now: int, intervalMinutes: int) {
    e.project == project &&
    (e.firstCompletedPollTime.None? || e.firstCompletedPollTime.value >= now - intervalMinutes * 60) &&
    e.submissionTime > now - DoryPollingTimeoutSeconds
  }

  /** The last, by submission time, of the project's evaluations still being polled. */
  function GetLatestNonCompletedEvaluation(
    evaluations: seq<DoryEvaluation>, project: nat, now: int, intervalMinutes: int
  ): (r: Option<DoryEvaluation>)
    ensures r.None? <==> forall e :: e in evaluations ==> !NotCompleted(e, project, now, intervalMinutes)
    ensures r.Some? ==> r.value in evaluations && NotCompleted(r.value, project, now, intervalMinutes)
    ensures r.Some? ==> forall e :: e in evaluations && NotCompleted(e, project, now, intervalMinutes) ==>
      e.submissionTime <= r.value.submissionTime
  {
    var ordered := OrderBy(evaluations, SubmissionTime);
    var p := (e: DoryEvaluation) => NotCompleted(e, project, now, intervalMinutes);
    var candidates := Filter(ordered, p);
    OrderByMembers(evaluations, SubmissionTime);
    CandidatesOfOrdered(evaluations, ordered, p, candidates);
    if candidates == [] then None
    else
      var last := candidates[|candidates| - 1];
      assert last in candidates && NotCompleted(last, project, now, intervalMinutes);
      OrderBySorted(evaluations, SubmissionTime);
      FilterKeepsSortedBy(ordered, SubmissionTime, p);
      LastOfSortedIsLatest(candidates);
      Some(last)
  }

  lemma CandidatesOfOrdered(
    evaluations: seq<DoryEvaluation>, ordered: seq<DoryEvaluation>, p: DoryEvaluation -> bool, candidates: seq<DoryEvaluation>
  )
    requires forall x :: x in ordered <==> x in evaluations
    requires candidates == Filter(ordered, p)
    ensures forall e :: e in candidates <==> e in evaluations && p(e)
  {
    FilterMembers(ordered, p);
  }

  lemma LastOfSortedIsLatest(s: seq<DoryEvaluation>)
    requires s != [] && SortedBy(s, SubmissionTime)
    ensures forall e :: e in s ==> e.submissionTime <= s[|s| - 1].submissionTime
  {
    forall e | e in s
      ensures e.submissionTime <= s[|s| - 1].submissionTime
    {
      var i :| 0 <= i < |s| && s[i] == e;
      if i < |s| - 1 {
        assert s[i].submissionTime <= s[|s| - 1].submissionTime;
      }
    }
  }

}
