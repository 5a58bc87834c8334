/**
 * The script that compacts bursts of evaluation reports. For every project
 * and every item it walks the item's reports in creation order (reports of
 * manually evaluated items are skipped), keeping a "previous" report: a
 * report mergeable with the previous one (checked at its own creation time)
 * is deleted after the previous report takes over its latest evaluation time
 * in a forced save; any other report becomes the new previous one.
 *
 * The walk follows the query's order by creation time; reports created at
 * the same time keep their table order.
 */
module EvaluationReportPruning {
  import opened Common
  import opened MaturityModels
  import opened Evaluations
  import opened EvaluatorRunner

  /** The reports the script walks for an item of a project: none when the item is evaluated manually. */
  predicate InRun(r: EvaluationReport, project: nat, item: MaturityModelItem) {
    r.project == project && r.item == item.id && !item.evaluationType.kind.Manual?
  }

  function CreationTime(r: EvaluationReport): int { r.creationTime }

  /**
   * The query of one item's reports, ordered by creation time (reports
   * created at the same time in table order).
   */
  function ItemRun(reports: seq<EvaluationReport>, project: nat, item: MaturityModelItem): (run: seq<EvaluationReport>)
    ensures forall r :: r in run <==> r in reports && InRun(r, project, item)
    ensures SortedBy(run, CreationTime)
    ensures item.evaluationType.kind.Manual? ==> run == []
  {
    var p := (r: EvaluationReport) => InRun(r, project, item);
    FilterMembers(reports, p);
    OrderByMembers(Filter(reports, p), CreationTime);
    OrderBySorted(Filter(reports, p), CreationTime);
    if item.evaluationType.kind.Manual? then FilterKeepsNone(reports, p); OrderBy(Filter(reports, p), CreationTime)
    else OrderBy(Filter(reports, p), CreationTime)
  }

  function Last(kept: seq<EvaluationReport>): EvaluationReport
    requires kept != []
  {
    kept[|kept| - 1]
  }

  /** The previous report after absorbing a later one: it now also covers the later one's latest evaluation. */
  function Merged(previous: EvaluationReport, report: EvaluationReport, now: int): EvaluationReport {
    previous.(latestEvaluationTime := report.latestEvaluationTime, lastUpdateTime := now)
  }

  /** `a` is the report `b`, save for its latest-evaluation and last-update times. */
  predicate SameReport(a: EvaluationReport, b: EvaluationReport) {
    a == b.(latestEvaluationTime := a.latestEvaluationTime, lastUpdateTime := a.lastUpdateTime)
  }

  // ---------------------------------------------------------------------------
  // What survives: the collapse of a run of reports
  // ---------------------------------------------------------------------------

  /**
   * The reports kept so far when `report` comes next; the last kept one is the
   * previous report. A mergeable report is folded into it, any other is kept.
   */
  function Absorb(kept: seq<EvaluationReport>, report: EvaluationReport, item: MaturityModelItem, now: int): seq<EvaluationReport> {
    if kept != [] && Mergeable(Last(kept), report, item, report.creationTime) then
      kept[..|kept| - 1] + [Merged(Last(kept), report, now)]
    else kept + [report]
  }

  /** The reports kept after the rest of the run, in order. */
  function CollapseFrom(kept: seq<EvaluationReport>, run: seq<EvaluationReport>, item: MaturityModelItem, now: int): seq<EvaluationReport>
    decreases |run|
  {
    if run == [] then kept else CollapseFrom(Absorb(kept, run[0], item, now), run[1..], item, now)
  }

  /** The reports of a run that survive the script, each burst merged into its first report. */
  function Collapse(run: seq<EvaluationReport>, item: MaturityModelItem, now: int): seq<EvaluationReport> {
    CollapseFrom([], run, item, now)
  }

  /** No report could be merged into the one before it. */
  predicate Settled(s: seq<EvaluationReport>, item: MaturityModelItem) {
    forall i :: 0 < i < |s| ==> !Mergeable(s[i - 1], s[i], item, s[i].creationTime)
  }

  /**
   * The kept reports grow by at most one per report, never shrink below what
   * was kept, keep their earlier members, and the last kept one is the same
   * report as before with new times only.
   */
  lemma {:induction false} CollapseFromShape(kept: seq<EvaluationReport>, run: seq<EvaluationReport>, item: MaturityModelItem, now: int)
    requires kept != []
    ensures var c := CollapseFrom(kept, run, item, now);
      |kept| <= |c| <= |kept| + |run| && c[..|kept| - 1] == kept[..|kept| - 1] && SameReport(c[|kept| - 1], Last(kept))
    decreases |run|
  {
    if run != [] {
      var next := Absorb(kept, run[0], item, now);
      CollapseFromShape(next, run[1..], item, now);
      if Mergeable(Last(kept), run[0], item, run[0].creationTime) {
        assert next[..|kept| - 1] == kept[..|kept| - 1];
      } else {
        assert next[..|kept| - 1] == kept[..|kept| - 1];
        assert next[..|kept|] == kept;
        var c := CollapseFrom(next, run[1..], item, now);
        assert c[..|kept| - 1] == c[..|next| - 1][..|kept| - 1];
      }
    }
  }

  /**
   * A non-empty run keeps at least one report and at most all of them; the
   * first report always survives, with its id and creation time, having only
   * taken over later latest-evaluation and last-update times.
   */
  lemma FirstReportSurvives(run: seq<EvaluationReport>, item: MaturityModelItem, now: int)
    requires run != []
    ensures 1 <= |Collapse(run, item, now)| <= |run|
    ensures SameReport(Collapse(run, item, now)[0], run[0])
  {
    assert Absorb([], run[0], item, now) == [run[0]];
    assert Collapse(run, item, now) == CollapseFrom([run[0]], run[1..], item, now);
    CollapseFromShape([run[0]], run[1..], item, now);
  }

  lemma {:induction false} CollapseFromSettles(kept: seq<EvaluationReport>, run: seq<EvaluationReport>, item: MaturityModelItem, now: int)
    requires Settled(kept, item)
    ensures Settled(CollapseFrom(kept, run, item, now), item)
    decreases |run|
  {
    if run != [] {
      var next := Absorb(kept, run[0], item, now);
      if kept != [] && Mergeable(Last(kept), run[0], item, run[0].creationTime) {
        var m := Merged(Last(kept), run[0], now);
        forall i | 0 < i < |next| ensures !Mergeable(next[i - 1], next[i], item, next[i].creationTime) {
          if i == |next| - 1 {
            assert next[i] == m && next[i - 1] == kept[i - 1];
            assert LogicallyEquals(kept[i - 1], m) == LogicallyEquals(kept[i - 1], Last(kept));
          } else {
            assert next[i] == kept[i] && next[i - 1] == kept[i - 1];
          }
        }
      } else {
        forall i | 0 < i < |next| ensures !Mergeable(next[i - 1], next[i], item, next[i].creationTime) {
          if i < |kept| {
            assert next[i] == kept[i] && next[i - 1] == kept[i - 1];
          }
        }
      }
      CollapseFromSettles(next, run[1..], item, now);
    }
  }

  /** After the script no surviving report could be merged into the one before it. */
  lemma CollapseIsSettled(run: seq<EvaluationReport>, item: MaturityModelItem, now: int)
    ensures Settled(Collapse(run, item, now), item)
  {
    CollapseFromSettles([], run, item, now);
  }

  lemma {:induction false} SettledCollapsesToItself(s: seq<EvaluationReport>, i: nat, item: MaturityModelItem, now: int)
    requires Settled(s, item) && i <= |s|
    ensures CollapseFrom(s[..i], s[i..], item, now) == s
    decreases |s| - i
  {
    if i == |s| {
      assert s[..i] == s;
    } else {
      if i > 0 {
        assert Last(s[..i]) == s[i - 1];
      }
      assert Absorb(s[..i], s[i..][0], item, now) == s[..i + 1];
      assert s[i..][1..] == s[i + 1..];
      SettledCollapsesToItself(s, i + 1, item, now);
    }
  }

  /** Running the script a second time removes and changes nothing. */
  lemma CollapseIsIdempotent(run: seq<EvaluationReport>, item: MaturityModelItem, now: int)
    ensures Collapse(Collapse(run, item, now), item, now) == Collapse(run, item, now)
  {
    var c := Collapse(run, item, now);
    CollapseIsSettled(run, item, now);
    SettledCollapsesToItself(c, 0, item, now);
    assert c[..0] == [] && c[0..] == c;
  }

  // ---------------------------------------------------------------------------
  // What the script does to the store
  // ---------------------------------------------------------------------------

  /** How a walk ends: the store as left, and the error of a save that failed, if one did. */
  datatype Outcome = Outcome(db: Db, failure: Option<string>)

  /**
   * The walk over the rest of one item's run: a mergeable report is handled
   * by the forced save of the previous report carrying the later latest
   * evaluation time, then by the deletion of the report; a failed save ends
   * the walk with the store as it was before that save.
   */
  function PruneRun(db: Db, kept: seq<EvaluationReport>, run: seq<EvaluationReport>, item: MaturityModelItem, now: int): Outcome
    decreases |run|
  {
    if run == [] then Outcome(db, None)
    else if kept != [] && Mergeable(Last(kept), run[0], item, run[0].creationTime) then
      var out := SaveOutcome(db.reports, db.lastId, Last(kept).(latestEvaluationTime := run[0].latestEvaluationTime), true, now);
      if out.Err? then Outcome(db, Some(out.error))
      else
        var saved := Db(out.value.reports, CloseRequests(db.requests, out.value.report), out.value.lastId);
        PruneRun(saved.(reports := WithoutReport(saved.reports, run[0].id), requests := ReleaseRequests(saved.requests, run[0].id)), Absorb(kept, run[0], item, now), run[1..], item, now)
    else PruneRun(db, kept + [run[0]], run[1..], item, now)
  }

  /** A merge: the forced save, then the deletion; a failed save ends the walk. */
  lemma MergeUnfolds(db: Db, kept: seq<EvaluationReport>, run: seq<EvaluationReport>, item: MaturityModelItem, now: int)
    requires kept != [] && run != [] && Mergeable(Last(kept), run[0], item, run[0].creationTime)
    ensures var out := SaveOutcome(db.reports, db.lastId, Last(kept).(latestEvaluationTime := run[0].latestEvaluationTime), true, now);
      (out.Err? ==> PruneRun(db, kept, run, item, now) == Outcome(db, Some(out.error))) &&
      (out.Ok? ==>
        var next := Db(WithoutReport(out.value.reports, run[0].id), ReleaseRequests(CloseRequests(db.requests, out.value.report), run[0].id), out.value.lastId);
        PruneRun(db, kept, run, item, now) == PruneRun(next, Absorb(kept, run[0], item, now), run[1..], item, now))
  {
  }

  /** A report that is not merged becomes the previous one. */
  lemma KeepUnfolds(db: Db, kept: seq<EvaluationReport>, run: seq<EvaluationReport>, item: MaturityModelItem, now: int)
    requires run != [] && !(kept != [] && Mergeable(Last(kept), run[0], item, run[0].creationTime))
    ensures PruneRun(db, kept, run, item, now) == PruneRun(db, kept + [run[0]], run[1..], item, now)
  {
  }

  predicate DistinctIds(s: seq<EvaluationReport>) {
    forall i, j :: 0 <= i < j < |s| ==> s[i].id != s[j].id
  }

  /** The store is consistent and holds every kept and every pending report, all with different ids. */
  ghost predicate Tracked(db: Db, kept: seq<EvaluationReport>, run: seq<EvaluationReport>) {
    StoreInvariant(db.reports, db.lastId) && DistinctIds(kept + run) &&
    forall y :: y in kept + run ==> y in db.reports
  }

  /** Deleting the id of a stored report removes exactly one row. */
  lemma {:induction false} WithoutStoredReport(reports: seq<EvaluationReport>, x: EvaluationReport)
    requires DistinctIds(reports) && x in reports
    ensures |WithoutReport(reports, x.id)| == |reports| - 1
  {
    var p := (s: EvaluationReport) => s.id != x.id;
    assert WithoutReport(reports, x.id) == Filter(reports, p);
    if reports[0] == x {
      assert forall y :: y in reports[1..] ==> p(y) by {
        forall y | y in reports[1..] ensures p(y) {
          var k :| 0 <= k < |reports[1..]| && reports[1..][k] == y;
          assert reports[k + 1] == y;
        }
      }
      FilterKeepsAll(reports[1..], p);
    } else {
      assert x in reports[1..];
      assert DistinctIds(reports[1..]) by {
        forall i, j | 0 <= i < j < |reports[1..]| ensures reports[1..][i].id != reports[1..][j].id {
          assert reports[1..][i] == reports[i + 1] && reports[1..][j] == reports[j + 1];
        }
      }
      WithoutStoredReport(reports[1..], x);
      assert WithoutReport(reports[1..], x.id) == Filter(reports[1..], p);
      var k :| 0 <= k < |reports| && reports[k] == x;
      assert p(reports[0]) by {
        assert k != 0;
      }
    }
  }

  /** A row whose id is not written is kept by the write. */
  lemma WriteKeepsOthers(reports: seq<EvaluationReport>, k: nat, row: EvaluationReport, x: EvaluationReport)
    requires k < |reports| && x in reports && x.id != reports[k].id
    ensures x in reports[k := row]
  {
    var j :| 0 <= j < |reports| && reports[j] == x;
    assert reports[k := row][j] == x;
  }

  /** One merge: the forced save rewrites the previous report's row in place, and the deletion removes one row. */
  lemma MergeStep(db: Db, kept: seq<EvaluationReport>, run: seq<EvaluationReport>, item: MaturityModelItem, now: int)
    requires Tracked(db, kept, run) && kept != [] && run != []
    requires SaveOutcome(db.reports, db.lastId, Last(kept).(latestEvaluationTime := run[0].latestEvaluationTime), true, now).Ok?
    ensures var w := SaveOutcome(db.reports, db.lastId, Last(kept).(latestEvaluationTime := run[0].latestEvaluationTime), true, now).value;
      var next := WithoutReport(w.reports, run[0].id);
      w.report == Merged(Last(kept), run[0], now) &&
      StoreInvariant(next, w.lastId) && |next| == |db.reports| - 1 &&
      (forall x :: x in db.reports && x.id != Last(kept).id && x.id != run[0].id ==> x in next) &&
      Merged(Last(kept), run[0], now) in next
  {
    var prev := Last(kept);
    var toSave := prev.(latestEvaluationTime := run[0].latestEvaluationTime);
    var w := SaveOutcome(db.reports, db.lastId, toSave, true, now).value;
    assert w == Write(db.reports, db.lastId, toSave, now).value;
    assert prev in kept + run;
    var j :| 0 <= j < |db.reports| && db.reports[j] == prev;
    assert toSave.id != 0;
    var k := FirstIndex(db.reports, (s: EvaluationReport) => s.id == toSave.id);
    assert k >= 0 && db.reports[k].id == prev.id;
    assert k == j;
    assert w.reports == db.reports[k := w.report] && w.report == Merged(prev, run[0], now);
    WriteKeepsInvariant(db.reports, db.lastId, toSave, now);
    KeptKeepsInvariant(w.reports, w.lastId, WithoutReport(w.reports, run[0].id), run[0].id);
    assert (kept + run)[|kept| - 1] == prev && (kept + run)[|kept|] == run[0];
    assert run[0] in kept + run;
    WriteKeepsOthers(db.reports, k, w.report, run[0]);
    WithoutStoredReport(w.reports, run[0]);
    forall x | x in db.reports && x.id != prev.id && x.id != run[0].id ensures x in WithoutReport(w.reports, run[0].id) {
      WriteKeepsOthers(db.reports, k, w.report, x);
    }
  }

  /** Replacing the last kept report by one with its id and dropping the first pending one keeps the ids distinct. */
  lemma MergedIds(kept: seq<EvaluationReport>, run: seq<EvaluationReport>, m: EvaluationReport)
    requires kept != [] && run != [] && DistinctIds(kept + run) && m.id == Last(kept).id
    ensures DistinctIds(kept[..|kept| - 1] + [m] + run[1..])
    ensures forall y :: y in kept[..|kept| - 1] + [m] + run[1..] ==>
      y == m || (y in kept + run && y.id != Last(kept).id && y.id != run[0].id)
  {
    var n := |kept|;
    var before := kept + run;
    var after := kept[..n - 1] + [m] + run[1..];
    assert |after| == |before| - 1;
    forall i | 0 <= i < |after|
      ensures (i == n - 1 && after[i] == m) || (i < n - 1 && after[i] == before[i]) || (i >= n && after[i] == before[i + 1])
    {
    }
    assert before[n - 1] == Last(kept) && before[n] == run[0];
    forall i, j | 0 <= i < j < |after| ensures after[i].id != after[j].id {
      var i' := if i < n then i else i + 1;
      var j' := if j < n then j else j + 1;
      assert after[i].id == before[i'].id && after[j].id == before[j'].id;
    }
    forall y | y in after ensures y == m || (y in before && y.id != Last(kept).id && y.id != run[0].id) {
      var i :| 0 <= i < |after| && after[i] == y;
      if i != n - 1 {
        var i' := if i < n then i else i + 1;
        assert y == before[i'] && i' != n - 1 && i' != n;
      }
    }
  }

  /** The merge keeps every pending report and every other kept report in the store, still with distinct ids. */
  lemma MergeTracked(db: Db, kept: seq<EvaluationReport>, run: seq<EvaluationReport>, item: MaturityModelItem, now: int)
    requires Tracked(db, kept, run) && kept != [] && run != []
    requires Mergeable(Last(kept), run[0], item, run[0].creationTime)
    requires SaveOutcome(db.reports, db.lastId, Last(kept).(latestEvaluationTime := run[0].latestEvaluationTime), true, now).Ok?
    ensures var w := SaveOutcome(db.reports, db.lastId, Last(kept).(latestEvaluationTime := run[0].latestEvaluationTime), true, now).value;
      Tracked(Db(WithoutReport(w.reports, run[0].id), ReleaseRequests(CloseRequests(db.requests, w.report), run[0].id), w.lastId),
              Absorb(kept, run[0], item, now), run[1..])
  {
    var w := SaveOutcome(db.reports, db.lastId, Last(kept).(latestEvaluationTime := run[0].latestEvaluationTime), true, now).value;
    var next := WithoutReport(w.reports, run[0].id);
    var m := Merged(Last(kept), run[0], now);
    MergeStep(db, kept, run, item, now);
    MergedIds(kept, run, m);
    assert Absorb(kept, run[0], item, now) + run[1..] == kept[..|kept| - 1] + [m] + run[1..];
  }

  /** The walk ends with a consistent store that has no more rows than before. */
  lemma {:induction false} PruneRunKeepsStore(db: Db, kept: seq<EvaluationReport>, run: seq<EvaluationReport>, item: MaturityModelItem, now: int)
    requires Tracked(db, kept, run)
    ensures StoreInvariant(PruneRun(db, kept, run, item, now).db.reports, PruneRun(db, kept, run, item, now).db.lastId)
    ensures |PruneRun(db, kept, run, item, now).db.reports| <= |db.reports|
    decreases |run|
  {
    if run != [] {
      if kept != [] && Mergeable(Last(kept), run[0], item, run[0].creationTime) {
        var out := SaveOutcome(db.reports, db.lastId, Last(kept).(latestEvaluationTime := run[0].latestEvaluationTime), true, now);
        if out.Ok? {
          MergeStep(db, kept, run, item, now);
          MergeTracked(db, kept, run, item, now);
          var w := out.value;
          PruneRunKeepsStore(Db(WithoutReport(w.reports, run[0].id), ReleaseRequests(CloseRequests(db.requests, w.report), run[0].id), w.lastId),
                             Absorb(kept, run[0], item, now), run[1..], item, now);
        }
      } else {
        assert kept + [run[0]] + run[1..] == kept + run;
        PruneRunKeepsStore(db, kept + [run[0]], run[1..], item, now);
      }
    }
  }

  /**
   * A walk that completes deletes exactly the reports the collapse drops: the
   * store loses one row per report merged into an earlier one.
   */
  lemma {:induction false} PruneRunDeletesMerged(db: Db, kept: seq<EvaluationReport>, run: seq<EvaluationReport>, item: MaturityModelItem, now: int)
    requires Tracked(db, kept, run)
    requires PruneRun(db, kept, run, item, now).failure.None?
    ensures |PruneRun(db, kept, run, item, now).db.reports| + |kept| + |run| == |db.reports| + |CollapseFrom(kept, run, item, now)|
    decreases |run|
  {
    if run != [] {
      if kept != [] && Mergeable(Last(kept), run[0], item, run[0].creationTime) {
        var out := SaveOutcome(db.reports, db.lastId, Last(kept).(latestEvaluationTime := run[0].latestEvaluationTime), true, now);
        MergeStep(db, kept, run, item, now);
        MergeTracked(db, kept, run, item, now);
        var w := out.value;
        PruneRunDeletesMerged(Db(WithoutReport(w.reports, run[0].id), ReleaseRequests(CloseRequests(db.requests, w.report), run[0].id), w.lastId),
                              Absorb(kept, run[0], item, now), run[1..], item, now);
      } else {
        assert kept + [run[0]] + run[1..] == kept + run;
        PruneRunDeletesMerged(db, kept + [run[0]], run[1..], item, now);
      }
    }
  }

  /** A walk that completes leaves every surviving report, with its merged times, in the store. */
  lemma {:induction false} PruneRunStoresSurvivors(db: Db, kept: seq<EvaluationReport>, run: seq<EvaluationReport>, item: MaturityModelItem, now: int)
    requires Tracked(db, kept, run)
    requires PruneRun(db, kept, run, item, now).failure.None?
    ensures forall y :: y in CollapseFrom(kept, run, item, now) ==> y in PruneRun(db, kept, run, item, now).db.reports
    decreases |run|
  {
    if run == [] {
      forall y | y in kept ensures y in db.reports {
        assert y in kept + run;
      }
    } else if kept != [] && Mergeable(Last(kept), run[0], item, run[0].creationTime) {
      var out := SaveOutcome(db.reports, db.lastId, Last(kept).(latestEvaluationTime := run[0].latestEvaluationTime), true, now);
      MergeTracked(db, kept, run, item, now);
      var w := out.value;
      PruneRunStoresSurvivors(Db(WithoutReport(w.reports, run[0].id), ReleaseRequests(CloseRequests(db.requests, w.report), run[0].id), w.lastId),
                              Absorb(kept, run[0], item, now), run[1..], item, now);
    } else {
      assert kept + [run[0]] + run[1..] == kept + run;
      PruneRunStoresSurvivors(db, kept + [run[0]], run[1..], item, now);
    }
  }

  /** Rows that are neither kept nor pending in the walk stay in the store as they were. */
  lemma {:induction false} PruneRunLeavesOthers(
    db: Db, kept: seq<EvaluationReport>, run: seq<EvaluationReport>, item: MaturityModelItem, now: int, x: EvaluationReport)
    requires Tracked(db, kept, run) && x in db.reports
    requires forall y :: y in kept + run ==> y.id != x.id
    ensures x in PruneRun(db, kept, run, item, now).db.reports
    decreases |run|
  {
    if run != [] {
      if kept != [] && Mergeable(Last(kept), run[0], item, run[0].creationTime) {
        var out := SaveOutcome(db.reports, db.lastId, Last(kept).(latestEvaluationTime := run[0].latestEvaluationTime), true, now);
        if out.Ok? {
          MergeStep(db, kept, run, item, now);
          MergeTracked(db, kept, run, item, now);
          assert Last(kept) in kept + run && run[0] in kept + run;
          var next := Absorb(kept, run[0], item, now);
          forall y | y in next + run[1..] ensures y.id != x.id {
            if y !in run[1..] && y !in kept[..|kept| - 1] {
              assert y == Merged(Last(kept), run[0], now);
            } else if y in run[1..] {
              assert y in kept + run;
            } else {
              assert y in kept + run;
            }
          }
          var w := out.value;
          PruneRunLeavesOthers(Db(WithoutReport(w.reports, run[0].id), ReleaseRequests(CloseRequests(db.requests, w.report), run[0].id), w.lastId),
                               next, run[1..], item, now, x);
        }
      } else {
        assert kept + [run[0]] + run[1..] == kept + run;
        PruneRunLeavesOthers(db, kept + [run[0]], run[1..], item, now, x);
      }
    }
  }

  /** An item's run in a consistent store: reports with distinct ids, all stored. */
  lemma RunIsTracked(db: Db, project: nat, item: MaturityModelItem)
    requires StoreInvariant(db.reports, db.lastId)
    ensures Tracked(db, [], ItemRun(db.reports, project, item))
  {
    var run := ItemRun(db.reports, project, item);
    var p := (r: EvaluationReport) => InRun(r, project, item);
    FilterKeepsUniqueIds(db.reports, p);
    OrderByKeepsDistinct(Filter(db.reports, p), CreationTime, (r: EvaluationReport) => r.id);
    assert [] + run == run;
  }

  // ---------------------------------------------------------------------------
  // The whole script
  // ---------------------------------------------------------------------------

  /** One item of one project: the walk over its run, starting with no previous report. */
  function PruneItem(db: Db, project: nat, item: MaturityModelItem, now: int): Outcome {
    PruneRun(db, [], ItemRun(db.reports, project, item), item, now)
  }

  /** The items of one project in order; the first failed save ends the script. */
  function PruneItems(db: Db, project: nat, items: seq<MaturityModelItem>, now: int): Outcome
    decreases |items|
  {
    if items == [] then Outcome(db, None)
    else
      var out := PruneItems(db, project, items[..|items| - 1], now);
      if out.failure.Some? then out else PruneItem(out.db, project, items[|items| - 1], now)
  }

  /**
   * A project and the items of its maturity model: the items of each level,
   * level after level, in the order the model lists them.
   */
  datatype ProjectItems = ProjectItems(project: nat, items: seq<MaturityModelItem>)

  /** Every project in order, each over its own items. */
  function PruneProjects(db: Db, projects: seq<ProjectItems>, now: int): Outcome
    decreases |projects|
  {
    if projects == [] then Outcome(db, None)
    else
      var out := PruneProjects(db, projects[..|projects| - 1], now);
      var last := projects[|projects| - 1];
      if out.failure.Some? then out else PruneItems(out.db, last.project, last.items, now)
  }

  /** The row belongs to no run of the script: its item is manual, or not among its project's items, or its project is not among the projects. */
  predicate Untouched(x: EvaluationReport, projects: seq<ProjectItems>) {
    forall p, it :: p in projects && it in p.items ==> !InRun(x, p.project, it)
  }

  lemma PruneItemShrinks(db: Db, project: nat, item: MaturityModelItem, now: int)
    requires StoreInvariant(db.reports, db.lastId)
    ensures StoreInvariant(PruneItem(db, project, item, now).db.reports, PruneItem(db, project, item, now).db.lastId)
    ensures |PruneItem(db, project, item, now).db.reports| <= |db.reports|
  {
    RunIsTracked(db, project, item);
    PruneRunKeepsStore(db, [], ItemRun(db.reports, project, item), item, now);
  }

  lemma PruneItemKeepsRow(db: Db, project: nat, item: MaturityModelItem, now: int, x: EvaluationReport)
    requires StoreInvariant(db.reports, db.lastId) && x in db.reports && !InRun(x, project, item)
    ensures x in PruneItem(db, project, item, now).db.reports
  {
    var run := ItemRun(db.reports, project, item);
    RunIsTracked(db, project, item);
    forall y | y in [] + run ensures y.id != x.id {
      assert y in db.reports && y != x;
      var i :| 0 <= i < |db.reports| && db.reports[i] == x;
      var j :| 0 <= j < |db.reports| && db.reports[j] == y;
      assert i != j;
    }
    PruneRunLeavesOthers(db, [], run, item, now, x);
  }

  lemma {:induction false} PruneItemsShrinks(db: Db, project: nat, items: seq<MaturityModelItem>, now: int)
    requires StoreInvariant(db.reports, db.lastId)
    ensures StoreInvariant(PruneItems(db, project, items, now).db.reports, PruneItems(db, project, items, now).db.lastId)
    ensures |PruneItems(db, project, items, now).db.reports| <= |db.reports|
    decreases |items|
  {
    if items != [] {
      var init := items[..|items| - 1];
      PruneItemsShrinks(db, project, init, now);
      var out := PruneItems(db, project, init, now);
      if out.failure.None? {
        PruneItemShrinks(out.db, project, items[|items| - 1], now);
      }
    }
  }

  lemma {:induction false} PruneItemsKeepsRow(db: Db, project: nat, items: seq<MaturityModelItem>, now: int, x: EvaluationReport)
    requires StoreInvariant(db.reports, db.lastId) && x in db.reports
    requires forall it :: it in items ==> !InRun(x, project, it)
    ensures x in PruneItems(db, project, items, now).db.reports
    decreases |items|
  {
    if items != [] {
      var init := items[..|items| - 1];
      assert forall it :: it in init ==> it in items;
      PruneItemsKeepsRow(db, project, init, now, x);
      PruneItemsShrinks(db, project, init, now);
      var out := PruneItems(db, project, init, now);
      if out.failure.None? {
        PruneItemKeepsRow(out.db, project, items[|items| - 1], now, x);
      }
    }
  }

  lemma {:induction false} PruneProjectsShrinks(db: Db, projects: seq<ProjectItems>, now: int)
    requires StoreInvariant(db.reports, db.lastId)
    ensures StoreInvariant(PruneProjects(db, projects, now).db.reports, PruneProjects(db, projects, now).db.lastId)
    ensures |PruneProjects(db, projects, now).db.reports| <= |db.reports|
    decreases |projects|
  {
    if projects != [] {
      var init := projects[..|projects| - 1];
      PruneProjectsShrinks(db, init, now);
      var out := PruneProjects(db, init, now);
      if out.failure.None? {
        PruneItemsShrinks(out.db, projects[|projects| - 1].project, projects[|projects| - 1].items, now);
      }
    }
  }

  lemma {:induction false} PruneProjectsKeepsRow(db: Db, projects: seq<ProjectItems>, now: int, x: EvaluationReport)
    requires StoreInvariant(db.reports, db.lastId) && x in db.reports && Untouched(x, projects)
    ensures x in PruneProjects(db, projects, now).db.reports
    decreases |projects|
  {
    if projects != [] {
      var init := projects[..|projects| - 1];
      assert forall p :: p in init ==> p in projects;
      PruneProjectsKeepsRow(db, init, now, x);
      PruneProjectsShrinks(db, init, now);
      var out := PruneProjects(db, init, now);
      if out.failure.None? {
        PruneItemsKeepsRow(out.db, projects[|projects| - 1].project, projects[|projects| - 1].items, now, x);
      }
    }
  }

  /**
   * The script never adds a report, and leaves every report outside its runs
   * where it was: in particular every report of a manually evaluated item.
   */
  lemma ScriptOnlyRemoves(db: Db, projects: seq<ProjectItems>, now: int)
    requires StoreInvariant(db.reports, db.lastId)
    ensures |PruneProjects(db, projects, now).db.reports| <= |db.reports|
    ensures forall x :: x in db.reports && Untouched(x, projects) ==> x in PruneProjects(db, projects, now).db.reports
    ensures forall x :: x in db.reports && (forall p, it :: p in projects && it in p.items && it.id == x.item ==> it.evaluationType.kind.Manual?) ==>
      x in PruneProjects(db, projects, now).db.reports
  {
    PruneProjectsShrinks(db, projects, now);
    forall x | x in db.reports && Untouched(x, projects) ensures x in PruneProjects(db, projects, now).db.reports {
      PruneProjectsKeepsRow(db, projects, now, x);
    }
    forall x | x in db.reports && (forall p, it :: p in projects && it in p.items && it.id == x.item ==> it.evaluationType.kind.Manual?)
      ensures x in PruneProjects(db, projects, now).db.reports
    {
      PruneProjectsKeepsRow(db, projects, now, x);
    }
  }

  /**
   * For one item the script deletes exactly the reports that were merged into
   * an earlier one, and every surviving report is stored with its merged times.
   */
  lemma ItemKeepsCollapse(db: Db, project: nat, item: MaturityModelItem, now: int)
    requires StoreInvariant(db.reports, db.lastId)
    requires PruneItem(db, project, item, now).failure.None?
    ensures var run := ItemRun(db.reports, project, item);
      |PruneItem(db, project, item, now).db.reports| == |db.reports| - (|run| - |Collapse(run, item, now)|)
    ensures forall y :: y in Collapse(ItemRun(db.reports, project, item), item, now) ==> y in PruneItem(db, project, item, now).db.reports
  {
    var run := ItemRun(db.reports, project, item);
    RunIsTracked(db, project, item);
    PruneRunDeletesMerged(db, [], run, item, now);
    PruneRunStoresSurvivors(db, [], run, item, now);
  }

  // ---------------------------------------------------------------------------
  // The script's loops
  // ---------------------------------------------------------------------------

  /** The walk over one item's reports, holding the previous report in `previous`. */
  method PruneItemReports(store: EvaluationStore, project: nat, item: MaturityModelItem, now: int) returns (failure: Option<string>)
    requires store.Valid()
    modifies store
    ensures store.Valid()
    ensures var out := PruneItem(Db(old(store.reports), old(store.requests), old(store.lastId)), project, item, now);
      Db(store.reports, store.requests, store.lastId) == out.db && failure == out.failure
  {
    ghost var db0 := Db(store.reports, store.requests, store.lastId);
    var run := ItemRun(store.reports, project, item);
    ghost var kept: seq<EvaluationReport> := [];
    var previous: Option<EvaluationReport> := None;
    var i := 0;
    while i < |run|
      invariant i <= |run|
      invariant store.Valid()
      invariant previous == if kept == [] then None else Some(Last(kept))
      invariant PruneRun(Db(store.reports, store.requests, store.lastId), kept, run[i..], item, now) == PruneItem(db0, project, item, now)
    {
      var report := run[i];
      assert run[i..][0] == report && run[i..][1..] == run[i + 1..];
      ghost var db := Db(store.reports, store.requests, store.lastId);
      if previous.None? {
        KeepUnfolds(db, kept, run[i..], item, now);
        previous := Some(report);
        kept := kept + [report];
        i := i + 1;
        continue;
      }
      if Mergeable(previous.value, report, item, report.creationTime) {
        MergeUnfolds(db, kept, run[i..], item, now);
        var merged := previous.value.(latestEvaluationTime := report.latestEvaluationTime);
        var saved := store.Save(merged, true, now);
        if saved.Err? {
          return Some(saved.error);
        }
        previous := Some(merged.(lastUpdateTime := now));
        kept := Absorb(kept, report, item, now);
        store.Delete(report.id);
      } else {
        KeepUnfolds(db, kept, run[i..], item, now);
        previous := Some(report);
        kept := kept + [report];
      }
      i := i + 1;
    }
    return None;
  }

  /** The walk over the items of one project, in order, until a save fails. */
  method PruneProjectItems(store: EvaluationStore, project: nat, items: seq<MaturityModelItem>, now: int)
    returns (failure: Option<string>)
    requires store.Valid()
    modifies store
    ensures store.Valid()
    ensures var out := PruneItems(Db(old(store.reports), old(store.requests), old(store.lastId)), project, items, now);
      Db(store.reports, store.requests, store.lastId) == out.db && failure == out.failure
  {
    ghost var before := Db(store.reports, store.requests, store.lastId);
    for j := 0 to |items|
      invariant store.Valid()
      invariant PruneItems(before, project, items[..j], now) == Outcome(Db(store.reports, store.requests, store.lastId), None)
    {
      assert items[..j + 1][..j] == items[..j];
      failure := PruneItemReports(store, project, items[j], now);
      if failure.Some? {
        assert PruneItems(before, project, items[..j + 1], now).failure == failure;
        ItemsPrefixFailureStops(before, project, items, now, j + 1);
        return;
      }
    }
    assert items[..|items|] == items;
    failure := None;
  }

  /** `remove_repeater_evaluation_reports`: every item of every project, in order, until a save fails. */
  method RemoveRepeaterEvaluationReports(store: EvaluationStore, projects: seq<ProjectItems>, now: int)
    returns (failure: Option<string>)
    requires store.Valid()
    modifies store
    ensures store.Valid()
    ensures var out := PruneProjects(Db(old(store.reports), old(store.requests), old(store.lastId)), projects, now);
      Db(store.reports, store.requests, store.lastId) == out.db && failure == out.failure
  {
    ghost var db0 := Db(store.reports, store.requests, store.lastId);
    for i := 0 to |projects|
      invariant store.Valid()
      invariant PruneProjects(db0, projects[..i], now) == Outcome(Db(store.reports, store.requests, store.lastId), None)
    {
      assert projects[..i + 1][..i] == projects[..i];
      failure := PruneProjectItems(store, projects[i].project, projects[i].items, now);
      if failure.Some? {
        assert PruneProjects(db0, projects[..i + 1], now).failure == failure;
        PrefixFailureStops(db0, projects, now, i + 1);
        return;
      }
    }
    assert projects[..|projects|] == projects;
    failure := None;
  }

  /** Once a prefix of the projects has failed, the whole script ends with that failure and store. */
  lemma {:induction false} PrefixFailureStops(db: Db, projects: seq<ProjectItems>, now: int, n: nat)
    requires n <= |projects| && PruneProjects(db, projects[..n], now).failure.Some?
    ensures PruneProjects(db, projects, now) == PruneProjects(db, projects[..n], now)
    decreases |projects| - n
  {
    if n < |projects| {
      assert projects[..n + 1][..n] == projects[..n];
      PrefixFailureStops(db, projects, now, n + 1);
    } else {
      assert projects[..n] == projects;
    }
  }

  /** Once a prefix of a project's items has failed, the project ends with that failure and store. */
  lemma {:induction false} ItemsPrefixFailureStops(db: Db, project: nat, items: seq<MaturityModelItem>, now: int, n: nat)
    requires n <= |items| && PruneItems(db, project, items[..n], now).failure.Some?
    ensures PruneItems(db, project, items, now) == PruneItems(db, project, items[..n], now)
    decreases |items| - n
  {
    if n < |items| {
      assert items[..n + 1][..n] == items[..n];
      ItemsPrefixFailureStops(db, project, items, now, n + 1);
    } else {
      assert items[..n] == items;
    }
  }

  // ---------------------------------------------------------------------------
  // Examples
  // ---------------------------------------------------------------------------

  function ExampleItem(): MaturityModelItem {
    MaturityModelItem(1, 1, 1, "N000", "Test Coverage", Some("50"), None, EvaluationType(1, TestCoverage, 1, 0))
  }

  function ExampleReport(id: nat, time: int, value: string): EvaluationReport {
    EvaluationReport(id, 1, 1, Pass, time, time, time, "", PyStr("50"), PyStr(value), None)
  }

  /**
   * Two equal reports and a third with another value, an hour apart: the
   * first two merge, so two reports remain, and the first keeps its creation
   * time and takes over the second's latest evaluation time.
   */
  lemma BurstOfThreeLeavesTwo(now: int)
    ensures var run := [ExampleReport(1, 0, "60"), ExampleReport(2, 3600, "60"), ExampleReport(3, 7200, "70")];
      var c := Collapse(run, ExampleItem(), now);
      |c| == 2 && c[0].creationTime == 0 && c[0].latestEvaluationTime == 3600 && c[1] == run[2]
  {
    var run := [ExampleReport(1, 0, "60"), ExampleReport(2, 3600, "60"), ExampleReport(3, 7200, "70")];
    var item := ExampleItem();
    assert Mergeable(run[0], run[1], item, 3600);
    var m := Merged(run[0], run[1], now);
    assert !LogicallyEquals(m, run[2]) by {
      assert Text(m.currentValue) == "60" && Text(run[2].currentValue) == "70";
    }
    calc {
      Collapse(run, item, now);
      CollapseFrom([run[0]], run[1..], item, now);
      { assert run[1..][0] == run[1] && run[1..][1..] == [run[2]];
        assert Absorb([run[0]], run[1], item, now) == [m]; }
      CollapseFrom([m], [run[2]], item, now);
      CollapseFrom([m, run[2]], [], item, now);
    }
  }

  /** Equal reports two days apart are not merged when a report is valid for one day. */
  lemma ExpiredReportIsNotMerged(now: int)
    ensures |Collapse([ExampleReport(1, 0, "60"), ExampleReport(2, 2 * Day, "60")], ExampleItem(), now)| == 2
  {
    var run := [ExampleReport(1, 0, "60"), ExampleReport(2, 2 * Day, "60")];
    var item := ExampleItem();
    assert !IsInValidityPeriod(run[0], item, 2 * Day);
    calc {
      Collapse(run, item, now);
      { assert Absorb([], run[0], item, now) == [run[0]] && run[1..] == [run[1]]; }
      CollapseFrom([run[0]], [run[1]], item, now);
      { assert Absorb([run[0]], run[1], item, now) == run; }
      CollapseFrom(run, [], item, now);
    }
  }
}
