/**
 * The lead-time computer: at each point `t` of a run, the average time from a
 * changelist to the earliest passed deployment that delivers it, over the
 * changelists and deployments of the window `[t - period, t)`.
 *
 * A run loads two lists once, over the fetch range `[first - period, last)`:
 * the earliest PASS deployment time per changelist on the environment (a map
 * from changelist id to time) and the project's changelists in time order.
 * Each point then narrows both to its own window and scans the changelists
 * newest-first, carrying the closest (earliest) deployment time seen so far,
 * since a deployment of a newer changelist also delivers every older one.
 */
module LeadTime {
  import opened Common
  import opened DevopsModels
  import opened MetricWindow

  // ---------------------------------------------------------------------------
  // The two queries of a run
  // ---------------------------------------------------------------------------

  /** A deployment the run's deployment query selects. */
  predicate Fetched(d: Deployment, environment: nat, lo: int, hi: int) {
    d.environment == environment && d.status == Pass && lo <= d.time < hi
  }

  /**
   * The earliest fetched deployment time of each changelist (the query's
   * `order_by('change_list_id', 'time').distinct('change_list_id')`).
   */
  function EarliestPassedDeployments(deployments: seq<Deployment>, environment: nat, lo: int, hi: int): map<nat, int> {
    if deployments == [] then map[]
    else
      var rest := EarliestPassedDeployments(deployments[1..], environment, lo, hi);
      var d := deployments[0];
      if Fetched(d, environment, lo, hi) && (d.changeList !in rest || d.time < rest[d.changeList]) then
        rest[d.changeList := d.time]
      else rest
  }

  /**
   * A changelist has an entry iff some fetched deployment delivers it, and the
   * entry is the time of one of them that no other one precedes.
   */
  lemma {:induction false} EarliestIsMinimum(deployments: seq<Deployment>, environment: nat, lo: int, hi: int, id: nat)
    ensures var m := EarliestPassedDeployments(deployments, environment, lo, hi);
      (id in m <==> exists d :: d in deployments && Fetched(d, environment, lo, hi) && d.changeList == id) &&
      (id in m ==>
         (exists d :: d in deployments && Fetched(d, environment, lo, hi) && d.changeList == id && d.time == m[id]) &&
         (forall d :: d in deployments && Fetched(d, environment, lo, hi) && d.changeList == id ==> m[id] <= d.time))
  {
    if deployments != [] {
      EarliestIsMinimum(deployments[1..], environment, lo, hi, id);
      assert forall x :: x in deployments <==> x == deployments[0] || x in deployments[1..];
    }
  }

  function ChangeListTime(c: ChangeList): int { c.time }

  /**
   * The run's changelist query: the project's changelists with
   * `lo <= time < hi`, ordered by time (changelists with equal times in table
   * order).
   */
  function FetchChangeLists(changeLists: seq<ChangeList>, project: nat, lo: int, hi: int): seq<ChangeList> {
    OrderBy(Filter(changeLists, (c: ChangeList) => c.project == project && lo <= c.time < hi), ChangeListTime)
  }

  /** The query returns each of the project's changelists in the range, and nothing else, in time order. */
  lemma FetchedChangeLists(changeLists: seq<ChangeList>, project: nat, lo: int, hi: int)
    ensures var r := FetchChangeLists(changeLists, project, lo, hi);
      SortedBy(r, ChangeListTime) &&
      multiset(r) == multiset(Filter(changeLists, (c: ChangeList) => c.project == project && lo <= c.time < hi)) &&
      forall c :: c in r <==> c in changeLists && c.project == project && lo <= c.time < hi
  {
    var q := (c: ChangeList) => c.project == project && lo <= c.time < hi;
    OrderBySorted(Filter(changeLists, q), ChangeListTime);
    OrderByPermutes(Filter(changeLists, q), ChangeListTime);
    OrderByMembers(Filter(changeLists, q), ChangeListTime);
    FilterMembers(changeLists, q);
  }

  // ---------------------------------------------------------------------------
  // One point
  // ---------------------------------------------------------------------------

  function ChangeListsInWindow(changeLists: seq<ChangeList>, t: int, period: int): seq<ChangeList> {
    Filter(changeLists, (c: ChangeList) => InWindow(c.time, t, period))
  }

  function DeploymentTimesInWindow(deploymentTimes: map<nat, int>, t: int, period: int): map<nat, int> {
    map id | id in deploymentTimes && InWindow(deploymentTimes[id], t, period) :: deploymentTimes[id]
  }

  function Lookup(m: map<nat, int>, id: nat): Option<int> {
    if id in m then Some(m[id]) else None
  }

  /** The loop state of the newest-first scan. */
  datatype ScanState = ScanState(closest: Option<int>, total: int, count: nat)

  /** One iteration of the scan, visiting changelist `c`. */
  function ScanStep(s: ScanState, c: ChangeList, deploymentTimes: map<nat, int>): ScanState {
    var d := Lookup(deploymentTimes, c.id);
    var seeded := if s.closest.None? then d else s.closest;
    var closest := if d.Some? && seeded.Some? && d.value < seeded.value then d else seeded;
    if closest.None? then ScanState(closest, s.total, s.count)
    else ScanState(closest, s.total + (closest.value - c.time), s.count + 1)
  }

  /** The scan over `changeLists` newest-first: the last element is visited first. */
  function Scan(changeLists: seq<ChangeList>, deploymentTimes: map<nat, int>): ScanState {
    if changeLists == [] then ScanState(None, 0, 0)
    else ScanStep(Scan(changeLists[1..], deploymentTimes), changeLists[0], deploymentTimes)
  }

  /** The lead time at `t` from the lists a run fetched. */
  function AvgLeadTime(changeLists: seq<ChangeList>, deploymentTimes: map<nat, int>, t: int, period: int): Option<int> {
    var s := Scan(ChangeListsInWindow(changeLists, t, period), DeploymentTimesInWindow(deploymentTimes, t, period));
    if s.count == 0 then None else Some(TruncDiv(s.total, s.count))
  }

  method ComputeSingleTimestampAvgLeadTime(
    deploymentTimes: map<nat, int>, changeLists: seq<ChangeList>, t: int, period: int
  ) returns (leadTime: Option<int>)
    ensures leadTime == AvgLeadTime(changeLists, deploymentTimes, t, period)
  {
    var inWindow := ChangeListsInWindow(changeLists, t, period);
    var times := DeploymentTimesInWindow(deploymentTimes, t, period);
    var closest: Option<int> := None;
    var total := 0;
    var count: nat := 0;
    var i := |inWindow|;
    while i > 0
      invariant 0 <= i <= |inWindow|
      invariant ScanState(closest, total, count) == Scan(inWindow[i..], times)
    {
      i := i - 1;
      var c := inWindow[i];
      var d := Lookup(times, c.id);
      if closest.None? {
        closest := d;
      }
      if d.Some? && closest.Some? && d.value < closest.value {
        closest := d;
      }
      assert inWindow[i..][1..] == inWindow[i + 1..];
      if closest.Some? {
        total := total + (closest.value - c.time);
        count := count + 1;
      }
    }
    if count == 0 {
      leadTime := None;
    } else {
      leadTime := Some(TruncDiv(total, count));
    }
  }

  // ---------------------------------------------------------------------------
  // A run
  // ---------------------------------------------------------------------------

  /** The points `(first + i * step, lead time)` of a run of `n` timestamps. */
  function Series(
    changeLists: seq<ChangeList>, deployments: seq<Deployment>, environment: Environment, period: int,
    first: int, n: nat, step: int
  ): seq<(int, Option<int>)> {
    var lo := first - period;
    var hi := LastTimestamp(first, n, step);
    SeriesFrom(FetchChangeLists(changeLists, environment.project, lo, hi),
               EarliestPassedDeployments(deployments, environment.id, lo, hi), period, first, n, step)
  }

  /** The points of a run, from the lists it fetched. */
  function SeriesFrom(fetched: seq<ChangeList>, times: map<nat, int>, period: int, first: int, n: nat, step: int): seq<(int, Option<int>)> {
    seq(n, i requires 0 <= i < n => (first + i * step, AvgLeadTime(fetched, times, first + i * step, period)))
  }

  /** The operations count of a run: the number of timestamps times the size of the changelists and the earliest passed deployments fetched. */
  function OperationsCount(changeLists: seq<ChangeList>, deployments: seq<Deployment>, environment: Environment, period: int, first: int, n: nat, step: int): int {
    n * (|FetchChangeLists(changeLists, environment.project, first - period, LastTimestamp(first, n, step))| +
           |EarliestPassedDeployments(deployments, environment.id, first - period, LastTimestamp(first, n, step))|)
  }

  method ComputeForConsecutiveTimestamps(
    changeLists: seq<ChangeList>, deployments: seq<Deployment>, environment: Environment, period: int,
    first: int, n: nat, step: int
  ) returns (result: seq<(int, Option<int>)>, warn: bool)
    ensures result == Series(changeLists, deployments, environment, period, first, n, step)
    ensures |result| == n
    ensures warn == WouldWarnAboutPerformance(OperationsCount(changeLists, deployments, environment, period, first, n, step), None)
  {
    var last := LastTimestamp(first, n, step);
    var times := EarliestPassedDeployments(deployments, environment.id, first - period, last);
    var fetched := FetchChangeLists(changeLists, environment.project, first - period, last);
    warn := WouldWarnAboutPerformance(n * (|fetched| + |times|), None);
    result := ComputeFromFetched(fetched, times, period, first, n, step);
  }

  /** The per-point loop of a run, over the lists the run fetched. */
  method ComputeFromFetched(
    fetched: seq<ChangeList>, times: map<nat, int>, period: int, first: int, n: nat, step: int
  ) returns (result: seq<(int, Option<int>)>)
    ensures result == SeriesFrom(fetched, times, period, first, n, step)
  {
    result := [];
    for i := 0 to n
      invariant |result| == i
      invariant forall k :: 0 <= k < i ==> result[k] == (first + k * step, AvgLeadTime(fetched, times, first + k * step, period))
    {
      var t := first + i * step;
      var leadTime := ComputeSingleTimestampAvgLeadTime(times, fetched, t, period);
      result := result + [(t, leadTime)];
    }
  }

  /** The lead time at `t` computed from exactly the window's own data. */
  function WindowValue(
    changeLists: seq<ChangeList>, deployments: seq<Deployment>, environment: Environment, period: int, t: int
  ): Option<int> {
    AvgLeadTime(
      FetchChangeLists(changeLists, environment.project, t - period, t),
      EarliestPassedDeployments(deployments, environment.id, t - period, t), t, period)
  }

  // ---------------------------------------------------------------------------
  // The consistency law: a point does not depend on the run it belongs to
  // ---------------------------------------------------------------------------

  /** The scan reads the deployment map only at the ids of the changelists it visits. */
  lemma {:induction false} ScanReadsOnlyVisitedIds(changeLists: seq<ChangeList>, m1: map<nat, int>, m2: map<nat, int>)
    requires forall c :: c in changeLists ==> Lookup(m1, c.id) == Lookup(m2, c.id)
    ensures Scan(changeLists, m1) == Scan(changeLists, m2)
  {
    if changeLists != [] {
      assert forall c :: c in changeLists[1..] ==> c in changeLists;
      ScanReadsOnlyVisitedIds(changeLists[1..], m1, m2);
    }
  }

  lemma LookupInWindow(m: map<nat, int>, id: nat, t: int, period: int)
    ensures Lookup(DeploymentTimesInWindow(m, t, period), id)
         == if id in m && InWindow(m[id], t, period) then Some(m[id]) else None
  {
  }

  /**
   * For a changelist in the window, the earliest deployment time found over a
   * wider fetch range, once narrowed to the window, is the earliest one found
   * over the window itself, provided no deployment precedes its changelist.
   */
  lemma EarliestAgreesInWindow(
    deployments: seq<Deployment>, environment: nat, c: ChangeList, lo: int, hi: int, t: int, period: int
  )
    requires lo <= t - period && t <= hi
    requires InWindow(c.time, t, period)
    requires forall d :: d in deployments && d.changeList == c.id ==> d.time >= c.time
    ensures Lookup(DeploymentTimesInWindow(EarliestPassedDeployments(deployments, environment, lo, hi), t, period), c.id)
         == Lookup(DeploymentTimesInWindow(EarliestPassedDeployments(deployments, environment, t - period, t), t, period), c.id)
  {
    var wide := EarliestPassedDeployments(deployments, environment, lo, hi);
    var narrow := EarliestPassedDeployments(deployments, environment, t - period, t);
    LookupInWindow(wide, c.id, t, period);
    LookupInWindow(narrow, c.id, t, period);
    EarliestNarrowed(deployments, environment, c, lo, hi, t, period, wide, narrow);
  }

  lemma EarliestNarrowed(
    deployments: seq<Deployment>, environment: nat, c: ChangeList, lo: int, hi: int, t: int, period: int,
    wide: map<nat, int>, narrow: map<nat, int>
  )
    requires lo <= t - period && t <= hi
    requires InWindow(c.time, t, period)
    requires forall d :: d in deployments && d.changeList == c.id ==> d.time >= c.time
    requires wide == EarliestPassedDeployments(deployments, environment, lo, hi)
    requires narrow == EarliestPassedDeployments(deployments, environment, t - period, t)
    ensures (if c.id in wide && InWindow(wide[c.id], t, period) then Some(wide[c.id]) else None)
         == (if c.id in narrow && InWindow(narrow[c.id], t, period) then Some(narrow[c.id]) else None)
  {
    EarliestIsMinimum(deployments, environment, lo, hi, c.id);
    EarliestIsMinimum(deployments, environment, t - period, t, c.id);
    if c.id in narrow {
      var d1 :| d1 in deployments && Fetched(d1, environment, t - period, t) && d1.changeList == c.id && d1.time == narrow[c.id];
      assert Fetched(d1, environment, lo, hi);
      var v := wide[c.id];
      var d0 :| d0 in deployments && Fetched(d0, environment, lo, hi) && d0.changeList == c.id && d0.time == v;
      assert Fetched(d0, environment, t - period, t);
    } else if c.id in wide {
      var d0 :| d0 in deployments && Fetched(d0, environment, lo, hi) && d0.changeList == c.id && d0.time == wide[c.id];
      assert !Fetched(d0, environment, t - period, t);
    }
  }

  /**
   * Cut to a window, the changelists fetched over any range containing it are
   * the project's changelists of the window, in time order.
   */
  lemma WindowOfFetch(changeLists: seq<ChangeList>, p: nat, lo: int, hi: int, t: int, period: int)
    requires lo <= t - period && t <= hi
    ensures ChangeListsInWindow(FetchChangeLists(changeLists, p, lo, hi), t, period)
         == OrderBy(Filter(changeLists, (c: ChangeList) => c.project == p && InWindow(c.time, t, period)), ChangeListTime)
  {
    var inWindow := (c: ChangeList) => InWindow(c.time, t, period);
    var both := (c: ChangeList) => c.project == p && InWindow(c.time, t, period);
    var q := (c: ChangeList) => c.project == p && lo <= c.time < hi;
    var qAndWindow := (c: ChangeList) => q(c) && inWindow(c);
    FilterOrderBy(Filter(changeLists, q), ChangeListTime, inWindow);
    FilterFilter(changeLists, q, inWindow, qAndWindow);
    FilterSameOn(changeLists, qAndWindow, both);
  }

  /**
   * The value at `t` is the same whichever fetch range containing the window
   * the lists were loaded over.
   */
  lemma FetchRangeIrrelevant(
    changeLists: seq<ChangeList>, deployments: seq<Deployment>, environment: Environment, period: int,
    lo: int, hi: int, t: int
  )
    requires lo <= t - period && t <= hi
    requires DeploymentsNotBeforeChangeLists(changeLists, deployments)
    ensures AvgLeadTime(FetchChangeLists(changeLists, environment.project, lo, hi),
                        EarliestPassedDeployments(deployments, environment.id, lo, hi), t, period)
         == WindowValue(changeLists, deployments, environment, period, t)
  {
    var p := environment.project;
    var visited := OrderBy(Filter(changeLists, (c: ChangeList) => c.project == p && InWindow(c.time, t, period)), ChangeListTime);
    var m1 := DeploymentTimesInWindow(EarliestPassedDeployments(deployments, environment.id, lo, hi), t, period);
    var m2 := DeploymentTimesInWindow(EarliestPassedDeployments(deployments, environment.id, t - period, t), t, period);
    WindowOfFetch(changeLists, p, lo, hi, t, period);
    WindowOfFetch(changeLists, p, t - period, t, t, period);
    VisitedLookupsAgree(changeLists, deployments, environment, period, lo, hi, t);
    ScanReadsOnlyVisitedIds(visited, m1, m2);
    assert Scan(ChangeListsInWindow(FetchChangeLists(changeLists, p, lo, hi), t, period), m1) == Scan(visited, m2);
  }

  /** Over the changelists of the window, the earliest deployment times of a wider fetch and of the window agree. */
  lemma VisitedLookupsAgree(
    changeLists: seq<ChangeList>, deployments: seq<Deployment>, environment: Environment, period: int,
    lo: int, hi: int, t: int
  )
    requires lo <= t - period && t <= hi
    requires DeploymentsNotBeforeChangeLists(changeLists, deployments)
    ensures var visited := OrderBy(Filter(changeLists, (c: ChangeList) => c.project == environment.project && InWindow(c.time, t, period)), ChangeListTime);
      forall c :: c in visited ==>
        Lookup(DeploymentTimesInWindow(EarliestPassedDeployments(deployments, environment.id, lo, hi), t, period), c.id)
        == Lookup(DeploymentTimesInWindow(EarliestPassedDeployments(deployments, environment.id, t - period, t), t, period), c.id)
  {
    var both := (c: ChangeList) => c.project == environment.project && InWindow(c.time, t, period);
    var visited := OrderBy(Filter(changeLists, both), ChangeListTime);
    FilterMembers(changeLists, both);
    OrderByMembers(Filter(changeLists, both), ChangeListTime);
    forall c | c in visited
      ensures Lookup(DeploymentTimesInWindow(EarliestPassedDeployments(deployments, environment.id, lo, hi), t, period), c.id)
           == Lookup(DeploymentTimesInWindow(EarliestPassedDeployments(deployments, environment.id, t - period, t), t, period), c.id)
    {
      assert c in changeLists && InWindow(c.time, t, period);
      EarliestAgreesInWindow(deployments, environment.id, c, lo, hi, t, period);
    }
  }

  /**
   * Every point of a run equals the lead time computed from its own window
   * alone; this is what makes a consecutive run agree with single-timestamp
   * computations and with any sub-run.
   */
  lemma SeriesPointIsWindowValue(
    changeLists: seq<ChangeList>, deployments: seq<Deployment>, environment: Environment, period: int,
    first: int, n: nat, step: int, k: nat
  )
    requires step >= 0 && k < n
    requires DeploymentsNotBeforeChangeLists(changeLists, deployments)
    ensures Series(changeLists, deployments, environment, period, first, n, step)[k]
         == (first + k * step, WindowValue(changeLists, deployments, environment, period, first + k * step))
  {
    PointWithinRun(first, n, step, k, period);
    FetchRangeIrrelevant(changeLists, deployments, environment, period,
                         first - period, LastTimestamp(first, n, step), first + k * step);
  }

  // ---------------------------------------------------------------------------
  // What the scan computes
  // ---------------------------------------------------------------------------

  /**
   * The closest deployment time the scan ends with is the minimum deployment
   * time over all the changelists it visited, and is absent iff none of them
   * has a deployment.
   */
  lemma {:induction false} ScanClosestIsMinimum(changeLists: seq<ChangeList>, m: map<nat, int>)
    ensures Scan(changeLists, m).closest.None? <==> forall c :: c in changeLists ==> c.id !in m
    ensures Scan(changeLists, m).closest.Some? ==>
      (exists c :: c in changeLists && c.id in m && m[c.id] == Scan(changeLists, m).closest.value) &&
      (forall c :: c in changeLists && c.id in m ==> Scan(changeLists, m).closest.value <= m[c.id])
  {
    if changeLists != [] {
      ScanClosestIsMinimum(changeLists[1..], m);
      assert forall c :: c in changeLists <==> c == changeLists[0] || c in changeLists[1..];
    }
  }

  /**
   * The changelists the scan counts are exactly those at or before the newest
   * changelist that has a deployment: the ones visited before any deployment
   * is seen are skipped.
   */
  lemma {:induction false} ScanCountsUpToLastDeployed(changeLists: seq<ChangeList>, m: map<nat, int>)
    ensures Scan(changeLists, m).count == LastIndex(changeLists, (c: ChangeList) => c.id in m) + 1
  {
    if changeLists != [] {
      var rest := changeLists[1..];
      ScanCountsUpToLastDeployed(rest, m);
      ScanClosestIsMinimum(rest, m);
      var k := LastIndex(changeLists, (c: ChangeList) => c.id in m);
      var k' := LastIndex(rest, (c: ChangeList) => c.id in m);
      assert forall j :: 0 <= j < |rest| ==> rest[j] == changeLists[j + 1];
      if k' >= 0 {
        assert rest[k'] in rest;
        assert k >= k' + 1;
      } else if changeLists[0].id in m {
        assert k == 0;
      } else {
        assert forall c :: c in rest ==> c.id !in m;
      }
    }
  }

  /** The result is absent exactly when no changelist of the window has a deployment in the window. */
  lemma NoneIffNoDeployedChangeList(changeLists: seq<ChangeList>, deploymentTimes: map<nat, int>, t: int, period: int)
    ensures AvgLeadTime(changeLists, deploymentTimes, t, period).None? <==>
      forall c :: c in ChangeListsInWindow(changeLists, t, period) ==> c.id !in DeploymentTimesInWindow(deploymentTimes, t, period)
  {
    var cls := ChangeListsInWindow(changeLists, t, period);
    var m := DeploymentTimesInWindow(deploymentTimes, t, period);
    ScanCountsUpToLastDeployed(cls, m);
    var k := LastIndex(cls, (c: ChangeList) => c.id in m);
    if k >= 0 {
      assert cls[k] in cls;
    } else {
      forall c | c in cls ensures c.id !in m {
        var j :| 0 <= j < |cls| && cls[j] == c;
      }
    }
  }

  /**
   * Over changelists in time order whose deployments never precede them, every
   * term `closest - changelist.time` is non-negative, hence so is the total.
   */
  lemma {:induction false} ScanTotalNonNegative(changeLists: seq<ChangeList>, m: map<nat, int>)
    requires SortedBy(changeLists, ChangeListTime)
    requires forall c :: c in changeLists && c.id in m ==> m[c.id] >= c.time
    ensures Scan(changeLists, m).total >= 0
  {
    if changeLists != [] {
      var rest := changeLists[1..];
      assert forall c :: c in rest ==> c in changeLists;
      ScanTotalNonNegative(rest, m);
      ScanClosestIsMinimum(changeLists, m);
      var s := Scan(changeLists, m);
      if s.closest.Some? {
        var c :| c in changeLists && c.id in m && m[c.id] == s.closest.value;
        var j :| 0 <= j < |changeLists| && changeLists[j] == c;
        assert changeLists[0].time <= c.time;
      }
    }
  }

  /**
   * With no deployment preceding its changelist, lead times are never
   * negative: the query orders the changelists by time, so the scan pairs
   * each with a deployment of itself or of a newer changelist.
   */
  lemma LeadTimeNonNegative(
    changeLists: seq<ChangeList>, deployments: seq<Deployment>, environment: Environment, period: int, t: int
  )
    requires DeploymentsNotBeforeChangeLists(changeLists, deployments)
    ensures var v := WindowValue(changeLists, deployments, environment, period, t); v.Some? ==> v.value >= 0
  {
    var lo := t - period;
    var fetched := FetchChangeLists(changeLists, environment.project, lo, t);
    var cls := ChangeListsInWindow(fetched, t, period);
    var earliest := EarliestPassedDeployments(deployments, environment.id, lo, t);
    var m := DeploymentTimesInWindow(earliest, t, period);
    OrderBySorted(Filter(changeLists, (c: ChangeList) => c.project == environment.project && lo <= c.time < t), ChangeListTime);
    FilterKeepsSortedBy(fetched, ChangeListTime, (c: ChangeList) => InWindow(c.time, t, period));
    DeployedNotBeforeInWindow(changeLists, deployments, environment, period, t);
    ScanTotalNonNegative(cls, m);
  }

  /** In the window, each changelist's earliest passed deployment is no earlier than the changelist. */
  lemma DeployedNotBeforeInWindow(
    changeLists: seq<ChangeList>, deployments: seq<Deployment>, environment: Environment, period: int, t: int
  )
    requires DeploymentsNotBeforeChangeLists(changeLists, deployments)
    ensures var lo := t - period;
      var cls := ChangeListsInWindow(FetchChangeLists(changeLists, environment.project, lo, t), t, period);
      var m := DeploymentTimesInWindow(EarliestPassedDeployments(deployments, environment.id, lo, t), t, period);
      forall c :: c in cls && c.id in m ==> m[c.id] >= c.time
  {
    var lo := t - period;
    var fetched := FetchChangeLists(changeLists, environment.project, lo, t);
    var cls := ChangeListsInWindow(fetched, t, period);
    var earliest := EarliestPassedDeployments(deployments, environment.id, lo, t);
    var m := DeploymentTimesInWindow(earliest, t, period);
    assert forall c :: c in cls ==> c in changeLists by {
      FetchedChangeLists(changeLists, environment.project, lo, t);
      FilterMembers(fetched, (c: ChangeList) => InWindow(c.time, t, period));
    }
    forall c | c in cls && c.id in m ensures m[c.id] >= c.time {
      EarliestIsMinimum(deployments, environment.id, lo, t, c.id);
      var d :| d in deployments && Fetched(d, environment.id, lo, t) && d.changeList == c.id && d.time == earliest[c.id];
    }
  }

  /** Changelists at 100 and 200, passes for the newer at 300 and the older at 400: lead time 150 at `t = 500`. */
  lemma ExampleTwoChangeLists()
    ensures
      var env := Environment(1, 7);
      var cls := [ChangeList(10, 7, "a", "h0", None, 100), ChangeList(11, 7, "b", "h1", None, 200)];
      var deps := [Deployment(20, 1, 11, Pass, 300), Deployment(21, 1, 10, Pass, 400)];
      WindowValue(cls, deps, env, 400, 500) == Some(150)
  {
    var env := Environment(1, 7);
    var c0 := ChangeList(10, 7, "a", "h0", None, 100);
    var c1 := ChangeList(11, 7, "b", "h1", None, 200);
    var cls := [c0, c1];
    var deps := [Deployment(20, 1, 11, Pass, 300), Deployment(21, 1, 10, Pass, 400)];
    var fetched := FetchChangeLists(cls, 7, 100, 500);
    assert cls == [c0] + ([c1] + []);
    FilterCons(c1, [], (c: ChangeList) => c.project == 7 && 100 <= c.time < 500);
    FilterCons(c0, [c1], (c: ChangeList) => c.project == 7 && 100 <= c.time < 500);
    assert SortedBy([c0, c1], ChangeListTime);
    OrderByOfSorted([c0, c1], ChangeListTime);
    assert fetched == [c0, c1];
    var earliest := EarliestPassedDeployments(deps, 1, 100, 500);
    assert earliest == map[11 := 300, 10 := 400] by {
      assert deps[1..] == [Deployment(21, 1, 10, Pass, 400)];
      assert deps[1..][1..] == [];
    }
    var inWindow := ChangeListsInWindow(fetched, 500, 400);
    FilterCons(c1, [], (c: ChangeList) => InWindow(c.time, 500, 400));
    FilterCons(c0, [c1], (c: ChangeList) => InWindow(c.time, 500, 400));
    assert inWindow == [c0, c1];
    var m := DeploymentTimesInWindow(earliest, 500, 400);
    assert m == earliest;
    assert inWindow[1..] == [c1];
    assert inWindow[1..][1..] == [];
    assert Scan([c1], m) == ScanState(Some(300), 100, 1);
    assert Scan(inWindow, m) == ScanState(Some(300), 300, 2);
  }

  /**
   * The changelist table need not be in time order: stored as `[B, A]` with A
   * at 0 (passed at 100) and B at 50 (passed at 200), the query sorts them and
   * the lead time at 300 is `(150 + 100) / 2`.
   */
  lemma ExampleUnsortedTable()
    ensures
      var env := Environment(1, 7);
      var cls := [ChangeList(11, 7, "b", "h1", None, 50), ChangeList(10, 7, "a", "h0", None, 0)];
      var deps := [Deployment(20, 1, 10, Pass, 100), Deployment(21, 1, 11, Pass, 200)];
      WindowValue(cls, deps, env, 400, 300) == Some(125)
  {
    var a := ChangeList(10, 7, "a", "h0", None, 0);
    var b := ChangeList(11, 7, "b", "h1", None, 50);
    var cls := [b, a];
    var deps := [Deployment(20, 1, 10, Pass, 100), Deployment(21, 1, 11, Pass, 200)];
    var q := (c: ChangeList) => c.project == 7 && -100 <= c.time < 300;
    assert cls == [b] + ([a] + []);
    FilterCons(a, [], q);
    FilterCons(b, [a], q);
    assert Filter(cls, q) == [b, a];
    assert [b, a][1..] == [a] && [a][1..] == [];
    assert OrderBy([a], ChangeListTime) == [a];
    assert InsertBy(b, [a], ChangeListTime) == [a] + InsertBy(b, [], ChangeListTime);
    var fetched := FetchChangeLists(cls, 7, -100, 300);
    assert fetched == [a, b];
    var earliest := EarliestPassedDeployments(deps, 1, -100, 300);
    assert earliest == map[11 := 200, 10 := 100] by {
      assert deps[1..] == [Deployment(21, 1, 11, Pass, 200)];
      assert deps[1..][1..] == [];
    }
    var inWindow := ChangeListsInWindow(fetched, 300, 400);
    FilterCons(b, [], (c: ChangeList) => InWindow(c.time, 300, 400));
    FilterCons(a, [b], (c: ChangeList) => InWindow(c.time, 300, 400));
    assert inWindow == [a, b];
    var m := DeploymentTimesInWindow(earliest, 300, 400);
    assert m == earliest;
    assert inWindow[1..] == [b];
    assert inWindow[1..][1..] == [];
    assert Scan([b], m) == ScanState(Some(200), 150, 1);
    assert Scan(inWindow, m) == ScanState(Some(100), 250, 2);
  }
}
