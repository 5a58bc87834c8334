# nemo, modelled in Dafny

nemo is a software-quality dashboard. Projects are measured against a
maturity model: levels of items, each item evaluated by hand or by an
automatic evaluator. The dashboard also computes time-windowed metrics:

- the four DORA metrics: lead time, deployment frequency, change failure
  rate and time to restore;
- test-coverage series from the reports a project uploads;
- goals, meaning sets of items to pass before a due date.

This project models the decision logic of that system and proves what it
promises.

- **Metric engine**: the windowed computations (`ComputationBase`,
  `MetricWindow`, `LeadTime`, `DeploymentFrequency`, `ChangeFailureRate`,
  `TimeToRestore`, `CoverageComputation`) and the consistency law that
  every point of a consecutive run equals the value computed for its own
  window.
- **Maturity model**:
  - item and level state, evaluation reports and their validity
    (`MaturityModels`, `Evaluations`, `ProjectMaturityStates`);
  - goals (`Goals`) and the retrieval of the latest reports and goals for a
    project (`ProjectRetrieve`);
  - the evaluators and their runner (`EvaluatorRegistry`,
    `EvaluatorRunner`, `DevopsMetricsEvaluators`, `CoverageEvaluators`,
    `DoryModels`, `DoryEvaluator`);
  - the maturity-state observer (`MaturityStateObserver`).
- **DevOps data**: the records and their serializers (`DevopsModels`,
  `DevopsSerializers`), and coverage reports (`CoverageReports`).
- **Utilities**: the general helpers (`GeneralUtils`), field-unifying
  migrations (`MigrationUtils`), group names (`GroupAndPermissionUtils`),
  readable durations (`Formatter`), authorised URLs with percent-encoding
  (`Url`), and validators (`ValidationUtils`).
- **Parsing of commit logs**: Gerrit change-lists (`GerritChangelist`),
  the git log miner (`GitMiner`) and change-list reports
  (`ChangelistReporter`).
- **Maintenance scripts**: the pruning of repeated evaluation reports
  (`EvaluationReportPruning`) and of superseded deployments
  (`DeploymentPruning`).
- **Frontend**: the API URL builders (`ApiUrls`) and the item choices of
  the goal form (`ItemChoices`).

Conventions of the model:

- Times are integers: seconds since the epoch.
- Database tables are sequences in creation order.
- A query is a function over a table.
- The current time, the time-zone offset and the results of calls into
  other services are parameters.
- Code that updates objects in place is modelled by classes whose
  methods state the whole new state. Loops are methods proved against
  specification functions, and the properties are lemmas about those
  functions.
- `Common` and `Numbers` hold shared helpers (options, results, filters,
  digit strings) and model no source file of their own.

## Model

| member | source | states |
|---|---|---|
| ComputationBase.Consecutive | backend/apps/dashboard/metrics/computation_base.py:34-42 | a consecutive computation of any computer returns exactly `num_timestamps` pairs |
| ComputationBase.ComputeForConsecutiveTimestamps | backend/apps/dashboard/metrics/computation_base.py:34-42 | dispatches to the computer's run: one pair per timestamp `first + i·step`, and a performance warning reported exactly when the operations count exceeds 100 000 000; for the two coverage computers this is the corrected run, since the source labels coverage point `i` as `first + i` days (see Findings) |
| ComputationBase.ConsistencyLaw | backend/apps/dashboard/metrics/computation_test_base.py:81-113 | for a non-negative step, point `k` of any run equals the value computed from the window of that point alone (for lead time only when no deployment precedes its changelist); for coverage this holds of the corrected run, and the as-written run breaks it for steps other than a day (CoverageComputation.AsWrittenBreaksConsistency) |
| ComputationBase.OnePointRunIsWindowValue | backend/apps/dashboard/metrics/computation_base.py:23-32 | the one pair of a one-point, one-day run at `t` is `t` with the value of the window ending at `t`, for every computer and with no precondition |
| ComputationBase.ComputeForSingleTimestamp | backend/apps/dashboard/metrics/computation_base.py:23-32 | the single-timestamp value is the second component of the only pair of a one-point, one-day run, and equals the value of the window ending at the timestamp |
| ComputationBase.SubRunLaw | backend/apps/dashboard/metrics/computation_test_base.py:102-113 | point `m` of the run of `len` points that starts at point `i` (timestamp `first + i·step`) of a run of `n` points is point `i + m` of that run whenever `i + len <= n`: every interval of a run gives the same values |
| ComputationBase.GetDailyGraphDataSerialized | backend/apps/dashboard/metrics/computation_base.py:44-57 | one point per day of the inclusive period, dated 00:00 local time of its own day, whose value is the run's value at the following midnight, which is that day's window value when the consistency law holds |
| ComputationBase.ShiftOneDayBack | backend/apps/dashboard/metrics/computation_base.py:54-56 | every point of the run, in order, is relabelled one day earlier with its value unchanged |
| MetricWindow.WouldWarnAboutPerformance | backend/apps/dashboard/metrics/computation_base.py:59-68 | the warning is raised exactly when the operations count strictly exceeds the given threshold, or the default 100 000 000 when none is given |
| Common.OrderBySorted | backend/apps/devops_metrics/lead_time/computation.py:34 | a query's `order_by` on one column returns its rows in ascending order of that column |
| Common.OrderByPermutes | backend/apps/devops_metrics/lead_time/computation.py:34 | ordering only rearranges the rows: same rows, same multiplicities |
| Common.OrderByMembers | backend/apps/devops_metrics/lead_time/computation.py:34 | a row is in the ordered result iff it is in the query's rows |
| Common.OrderByOfSorted | backend/apps/devops_metrics/lead_time/computation.py:34 | rows already in order are returned as they are |
| Common.FilterOrderBy | backend/apps/devops_metrics/lead_time/computation.py:30-36 | filtering the ordered rows gives the ordering of the filtered rows, so a window may be cut before or after the sort |
| Common.OrderByStable | backend/apps/devops_metrics/lead_time/computation.py:34 | rows with equal keys keep their table order |
| Common.FilterKeepsSortedBy | backend/apps/devops_metrics/lead_time/computation.py:50 | cutting a window out of rows in time order leaves them in time order |
| Common.OrderByKeepsDistinct | backend/apps/custom_scripts/evaluation_report_pruning.py:19-25 | ordering rows whose ids are pairwise different keeps the ids pairwise different |
| LeadTime.EarliestIsMinimum | backend/apps/devops_metrics/lead_time/computation.py:21-29 | a changelist has a deployment time iff some passed deployment of the environment in the fetch range delivers it, and that time belongs to one of them and is no later than any other |
| LeadTime.FetchedChangeLists | backend/apps/devops_metrics/lead_time/computation.py:30-36 | the changelist query returns exactly the project's changelists in the fetch range, as a permutation of the filtered table, sorted by time |
| LeadTime.ComputeSingleTimestampAvgLeadTime | backend/apps/devops_metrics/lead_time/computation.py:47-79 | the newest-first scan over the window's changelists, in the order the run fetched them (by time), gives the point's average lead time, truncated to whole seconds, or `None` when nothing was counted |
| LeadTime.ComputeForConsecutiveTimestamps | backend/apps/devops_metrics/lead_time/computation.py:14-45 | one point per timestamp from the two fetched lists (the changelists sorted by time), and the performance warning on `num_timestamps × (changelists + deployments)` |
| LeadTime.ComputeFromFetched | backend/apps/devops_metrics/lead_time/computation.py:40-45 | the per-point loop appends `(first + i·step, lead time at that timestamp)` for each `i` in order |
| LeadTime.ScanReadsOnlyVisitedIds | backend/apps/devops_metrics/lead_time/computation.py:57-74 | the scan reads the deployment map only at the ids of the changelists it visits |
| LeadTime.EarliestAgreesInWindow | backend/apps/devops_metrics/lead_time/computation.py:21-52 | narrowed to a window, the earliest passed deployment found over a wider fetch range is the one found over the window, provided no deployment precedes its changelist |
| LeadTime.WindowOfFetch | backend/apps/devops_metrics/lead_time/computation.py:30-52 | cut to a window, the changelists fetched over any range containing it are the project's changelists of that window, in time order |
| LeadTime.VisitedLookupsAgree | backend/apps/devops_metrics/lead_time/computation.py:21-52 | for every changelist of the window, the earliest deployment time seen in the window is the same over a wider fetch as over the window alone, when no deployment precedes its changelist |
| LeadTime.FetchRangeIrrelevant | backend/apps/devops_metrics/lead_time/computation.py:20-52 | the value at `t` is the same whatever fetch range containing the window the lists were loaded over |
| LeadTime.SeriesPointIsWindowValue | backend/apps/devops_metrics/lead_time/computation.py:14-79 | every point of a run is the lead time computed from its own window alone, when no deployment precedes its changelist |
| LeadTime.ScanClosestIsMinimum | backend/apps/devops_metrics/lead_time/computation.py:57-68 | the closest deployment time the scan ends with is absent iff no visited changelist has a deployment, else it is the minimum of their deployment times |
| LeadTime.ScanCountsUpToLastDeployed | backend/apps/devops_metrics/lead_time/computation.py:57-74 | the scan counts exactly the changelists at or before the newest one that has a deployment |
| LeadTime.NoneIffNoDeployedChangeList | backend/apps/devops_metrics/lead_time/computation.py:70-77 | the lead time is `None` exactly when no changelist of the window has a deployment in the window |
| LeadTime.ScanTotalNonNegative | backend/apps/devops_metrics/lead_time/computation.py:57-74 | over time-ordered changelists whose deployments never precede them, the total lead time is non-negative |
| LeadTime.LeadTimeNonNegative | backend/apps/devops_metrics/lead_time/computation.py:30-79 | with no deployment preceding its changelist, every lead time is non-negative, whatever the order of the changelist table: the query's time order is what makes it hold |
| LeadTime.ExampleTwoChangeLists | backend/apps/devops_metrics/lead_time/computation.py:47-79 | changelists at 100 and 200, passes for the newer at 300 and the older at 400: the lead time at 500 is 150 |
| LeadTime.ExampleUnsortedTable | backend/apps/devops_metrics/lead_time/computation.py:30-79 | a table storing B (at 50, passed at 200) before A (at 0, passed at 100): the query sorts them and the lead time at 300 is 125 |
| DeploymentFrequency.SeqMax | backend/apps/devops_metrics/deployment_frequency/computation.py:36 | Python's `max`: an element of the list that no element exceeds |
| DeploymentFrequency.SeqMin | backend/apps/devops_metrics/deployment_frequency/computation.py:36 | Python's `min`: an element of the list that exceeds no element |
| DeploymentFrequency.ComputeForConsecutiveTimestamps | backend/apps/devops_metrics/deployment_frequency/computation.py:12-38 | one frequency per timestamp from the fetched passed-deployment times, and the performance warning on `num_timestamps × deployments` |
| DeploymentFrequency.ComputeFromFetched | backend/apps/devops_metrics/deployment_frequency/computation.py:27-38 | the per-point loop appends `(first + i·step, frequency at that timestamp)` for each `i` in order |
| DeploymentFrequency.WindowTimesOfFetch | backend/apps/devops_metrics/deployment_frequency/computation.py:19-31 | narrowed to a window, the times fetched over any range containing it are exactly the window's own passed-deployment times |
| DeploymentFrequency.FetchRangeIrrelevant | backend/apps/devops_metrics/deployment_frequency/computation.py:18-36 | over any fetch range containing the window, the frequency at `t` is the window's own |
| DeploymentFrequency.SeriesPointIsWindowValue | backend/apps/devops_metrics/deployment_frequency/computation.py:12-38 | every point of a run equals the frequency computed from its own window alone |
| DeploymentFrequency.FrequencyNonNegative | backend/apps/devops_metrics/deployment_frequency/computation.py:33-36 | a frequency, when present, is never negative |
| DeploymentFrequency.FrequencyIsMeanInterval | backend/apps/devops_metrics/deployment_frequency/computation.py:32-36 | over times in order, the frequency is `None` below two deployments and otherwise the mean interval between consecutive deployments of the window |
| DeploymentFrequency.ExampleFailureIgnored | backend/apps/devops_metrics/tests/metric_computers/deployment_frequency_computer_test.py:30-37 | passes at 200 and 400 around a failure at 300, at 500 over 400 seconds: the frequency is 200 |
| ChangeFailureRate.ComputeForConsecutiveTimestamps | backend/apps/devops_metrics/change_failure_rate/computation.py:14-39 | one rate per timestamp from the fetched deployments, and the performance warning on `num_timestamps × deployments` |
| ChangeFailureRate.ComputeFromFetched | backend/apps/devops_metrics/change_failure_rate/computation.py:29-39 | the per-point loop appends `(first + i·step, rate at that timestamp)` for each `i` in order |
| ChangeFailureRate.WindowDeploymentsOfFetch | backend/apps/devops_metrics/change_failure_rate/computation.py:21-33 | narrowed to a window, the deployments fetched over any range containing it are the window's own |
| ChangeFailureRate.FetchRangeIrrelevant | backend/apps/devops_metrics/change_failure_rate/computation.py:20-37 | over any fetch range containing the window, the rate at `t` is the window's own |
| ChangeFailureRate.SeriesPointIsWindowValue | backend/apps/devops_metrics/change_failure_rate/computation.py:14-39 | every point of a run equals the rate computed from its own window alone |
| ChangeFailureRate.RateIsPercentage | backend/apps/devops_metrics/change_failure_rate/computation.py:33-37 | the rate is `None` exactly when no deployment falls in the window, and otherwise lies between 0 and 100 |
| ChangeFailureRate.AllPassedIsZero | backend/apps/devops_metrics/change_failure_rate/computation.py:34-37 | with deployments in the window and none failed, the rate is 0 |
| ChangeFailureRate.AllFailedIsHundred | backend/apps/devops_metrics/change_failure_rate/computation.py:34-37 | with deployments in the window and all failed, the rate is 100 |
| ChangeFailureRate.ExampleHalfFailed | backend/apps/devops_metrics/change_failure_rate/computation.py:33-37 | one pass and one failure in the window: the rate is 50 |
| TimeToRestore.FetchedReports | backend/apps/devops_metrics/time_to_restore/computation.py:18-24 | the report query returns exactly the environment's reports in the fetch range, as a permutation of the filtered table, sorted by time |
| TimeToRestore.ComputeSingleTimestampAvgTtr | backend/apps/devops_metrics/time_to_restore/computation.py:33-51 | the scan of the reports in the window, in the order the run fetched them (by time), pairing each first `Down` with the next `Up`, gives the mean outage length, or `None` when no outage closed |
| TimeToRestore.ComputeForConsecutiveTimestamps | backend/apps/devops_metrics/time_to_restore/computation.py:11-31 | one value per timestamp over the reports fetched in time order: the mean truncated to whole seconds, or 0 when absent; and the performance warning on `num_timestamps × reports` |
| TimeToRestore.ComputeFromFetched | backend/apps/devops_metrics/time_to_restore/computation.py:27-31 | the per-point loop appends `(first + i·step, reported value at that timestamp)` for each `i` in order |
| TimeToRestore.ScanSkipsOutside | backend/apps/devops_metrics/time_to_restore/computation.py:38-40 | the scan with its window check equals the plain scan of just the reports inside the window |
| TimeToRestore.WindowOfFetch | backend/apps/devops_metrics/time_to_restore/computation.py:17-51 | cut to a window, the reports fetched over any range containing it are the environment's reports of that window, in time order |
| TimeToRestore.FetchRangeIrrelevant | backend/apps/devops_metrics/time_to_restore/computation.py:17-51 | over any fetch range containing the window, the mean at `t` is the window's own |
| TimeToRestore.SeriesPointIsWindowValue | backend/apps/devops_metrics/time_to_restore/computation.py:11-51 | every point of a run equals the mean computed from its own window alone, truncated, or 0 |
| TimeToRestore.TrailingDownIgnored | backend/apps/devops_metrics/time_to_restore/computation.py:41-50 | a `Down` report at the end of the window changes neither the total nor the count: an outage still open is not counted |
| TimeToRestore.TotalNonNegative | backend/apps/devops_metrics/time_to_restore/computation.py:45-50 | over reports in time order, the downtime total never becomes negative |
| TimeToRestore.AvgNonNegative | backend/apps/devops_metrics/time_to_restore/computation.py:18-51 | the mean time to restore at any point, when present, is never negative, whatever the order of the report table: the query's time order is what makes it hold |
| TimeToRestore.CountBoundedByUps | backend/apps/devops_metrics/time_to_restore/computation.py:44-50 | every closed outage is closed by an `Up` report, so there are no more outages than `Up` reports |
| TimeToRestore.ExampleOneOutage | backend/apps/devops_metrics/time_to_restore/computation.py:33-51 | down at 100 and up at 150: the mean time to restore at 200 is 50 |
| TimeToRestore.ExampleUnsortedTable | backend/apps/devops_metrics/time_to_restore/computation.py:18-51 | an `Up` at 60 stored before a `Down` at 10: the query sorts them and the mean time to restore at 100 is 50 |
| TimeToRestore.ExampleRepeatedDowns | backend/apps/devops_metrics/time_to_restore/computation.py:41-43 | repeated `Down` reports keep the first: downs at 230, 250, 270 and an up at 360 make one outage of 130 |
| TimeToRestore.ExampleNoReports | backend/apps/devops_metrics/time_to_restore/computation.py:30 | with no report the run reports 0, not `None` |
| CoverageComputation.OverallOf | backend/apps/dashboard/metrics/coverage/computation.py:73-75 | the overall coverage is `None` iff the window is empty, and otherwise the value of a report of the window updated no earlier than any other |
| CoverageComputation.IncrementalOf | backend/apps/dashboard/metrics/coverage/computation.py:92-94 | the incremental coverage is `None` iff the window is empty, and otherwise the mean of the window's values |
| CoverageComputation.ComputeForConsecutiveTimestamps | backend/apps/dashboard/metrics/coverage/computation.py:44-64 | one coverage per timestamp `first + i·step` over the reports the interval query fetched, and the performance warning on `num_timestamps × reports` (the corrected run, see Findings) |
| CoverageComputation.ComputeFromFetched | backend/apps/dashboard/metrics/coverage/computation.py:55-64 | the per-point loop appends `(t, coverage of the reports of t's window)` for each point `t` in order; with no checking period every earlier report counts |
| CoverageComputation.WindowReportsOfFetch | backend/apps/dashboard/metrics/coverage/computation.py:29-62 | the reports a fetch over `[first, last]` keeps at a point `t` in that range are exactly those the query over `[t, t]` returns |
| CoverageComputation.SeriesPointIsSingleTimestamp | backend/apps/dashboard/metrics/coverage/computation.py:44-102 | for a non-negative step, every point of the corrected run equals the single-timestamp fast path at that point |
| CoverageComputation.FastPathIsFold | backend/apps/dashboard/metrics/coverage/computation.py:80-102 | the fast paths (last row, database average) give the one point of a one-day run |
| CoverageComputation.AsWrittenAgreesForDailyStep | backend/apps/dashboard/metrics/coverage/computation.py:57 | with a one-day step, the run as written and the corrected run coincide |
| CoverageComputation.AsWrittenBreaksConsistency | backend/apps/dashboard/metrics/coverage/computation.py:51-57 | with a 100-second step, the run as written labels its second point a day later but misses a report the single-timestamp computation at that label sees |
| CoverageComputation.IncrementalWithinBounds | backend/apps/dashboard/metrics/coverage/computation.py:93-94 | the mean of values that all lie in `[lo, hi]` lies in `[lo, hi]` |
| CoverageComputation.ExampleThreeReports | backend/apps/dashboard/metrics/coverage/computation.py:73-94 | reports of 10, 30 and 80 per cent with no period: overall 80 (the last) and incremental 40 (the mean) |
| CoverageComputation.CurrentCoverageWindow | backend/apps/dashboard/models/coverage_report.py:118-136 | the current-coverage helpers look exactly at the project's reports of the type updated from 00:00 UTC of the given date up to now, or at all earlier reports without a date |
| CoverageReports.CoverageTypeCode | backend/apps/dashboard/models/coverage_report.py:14-16 | each coverage type is stored as a three-letter code (`OVR`, `INC`) |
| CoverageReports.ValidateVersionUniqueness | backend/apps/dashboard/models/coverage_report.py:69-97 | an empty version always passes; otherwise the check fails, with the version message, iff a stored report has the same project, type and version and the operation is a create, or an update of a row with a different key |
| CoverageReports.Create | backend/apps/dashboard/models/coverage_report.py:37-106 | creating runs the uniqueness check first and appends the row only if it passes, with `now` as its last-update time |
| CoverageReports.Update | backend/apps/dashboard/models/coverage_report.py:37-106 | updating the stored row of the same id runs the check against that row first and replaces it only if it passes, with `now` as its last-update time |
| CoverageReports.CreateKeepsVersionsUnique | backend/apps/dashboard/models/coverage_report.py:56-106 | a successful create keeps non-empty versions unique per project and type |
| CoverageReports.UpdateKeepsVersionsUnique | backend/apps/dashboard/models/coverage_report.py:56-106 | a successful update keeps non-empty versions unique per project and type |
| CoverageReports.GetLatest | backend/apps/dashboard/models/coverage_report.py:108-116 | `None` iff no report of the project and type was created (on or before the local date, when given); otherwise such a report created no earlier than any other |
| CoverageReports.CheckingPeriodSince | backend/apps/dashboard/models/coverage_report.py:125-135 | no date gives no checking period; a date gives the period from its 00:00 UTC to now |
| DevopsSerializers.ValidateRequestParameters | backend/apps/devops_metrics/serializers.py:143-168 | absent fields take their defaults (62 checking days, end date today, start date 186 days before the end); the request is accepted iff the checking period is at least one day, the period does not end before it starts, spans at most 186 days and does not end after today; an accepted period has between 1 and 187 days |
| DevopsSerializers.DefaultRequestIsAccepted | backend/apps/devops_metrics/serializers.py:143-168 | a request with every field absent is accepted and covers the 186 days up to today, checked over 62 days |
| DevopsSerializers.PeriodLengthBoundIsInclusive | backend/apps/devops_metrics/serializers.py:162-163 | a period of exactly 186 days is accepted and one of 187 days is rejected with the length message |
| DevopsSerializers.FindChangeList | backend/apps/devops_metrics/serializers.py:96-99 | the lookup succeeds iff the project has a changelist with that commit hash, and returns one; otherwise it fails with the not-found message |
| DevopsSerializers.ValidateDeployment | backend/apps/devops_metrics/serializers.py:92-106 | a deployment is accepted iff its commit hash names a changelist of the environment's project and its time, when given, is not before that changelist's |
| DevopsSerializers.ValidatedDeploymentKeepsOrder | backend/apps/devops_metrics/serializers.py:101-102 | a deployment stored at a time that passed the check keeps every deployment no earlier than its changelist |
| DevopsSerializers.CreateDeployment | backend/apps/devops_metrics/serializers.py:82-90 | `create` succeeds iff the check on the given time passes, and then stores the environment, the named changelist of the project and the status at the request time `now`, not at the given time |
| DevopsSerializers.CreatedDeploymentKeepsOrder | backend/apps/devops_metrics/serializers.py:82-102 | a created deployment keeps every deployment no earlier than its changelist when the changelist's time is not after the request |
| DevopsSerializers.CreatedDeploymentCanPrecedeChangeList | backend/apps/devops_metrics/serializers.py:82-102 | a changelist at 500 and a request at 400 giving time 600: the check passes and the stored deployment precedes its changelist |
| DevopsSerializers.CreateCheckedDeployment | backend/apps/devops_metrics/serializers.py:82-106 | corrected `create`: the stored time is the given time, or `now` when none is given, and that stored time is the one checked |
| DevopsSerializers.CheckedDeploymentKeepsOrder | backend/apps/devops_metrics/serializers.py:82-106 | every deployment the corrected `create` stores keeps every deployment no earlier than its changelist, with no premise on the clock |
| DevopsSerializers.SerializeDataPoints | backend/apps/devops_metrics/serializers.py:122-130 | each pair becomes a data point whose date is the pair's first component and whose value is its second, in order |
| DevopsSerializers.SerializeDataPointsRoundTrip | backend/apps/devops_metrics/serializers.py:122-130 | serializing loses nothing: the pairs are recovered from the data points |
| DevopsModels.DeploymentStatusFromCode | backend/apps/devops_metrics/models.py:86-92 | reading a stored status code back gives the status it encodes (`P` pass, `F` fail), and nothing for any other character |
| DevopsModels.ServiceStatusFromCode | backend/apps/devops_metrics/models.py:116-122 | reading a stored service status code back gives the status it encodes (`U` up, `D` down), and nothing for any other character |
| DevopsModels.ValidateCommitHash | backend/apps/devops_metrics/models.py:9-14 | a commit hash is accepted iff it has exactly 40 characters, else the length message is raised |
| DevopsModels.ValidateUniqueFields | backend/apps/devops_metrics/models.py:62-82 | the check passes iff every stored changelist of the project with the new id, and every one with the new commit hash, can only be the row being updated with that same key; a failure names the id or the hash key |
| DevopsModels.InsertKeepsKeysUnique | backend/apps/devops_metrics/models.py:43-60 | inserting a changelist that passed the check keeps ids and commit hashes unique within each project |
| DevopsModels.UpdateKeepsKeysUnique | backend/apps/devops_metrics/models.py:43-60 | replacing a stored changelist by a version that passed the check keeps ids and commit hashes unique within each project |
| DevopsModels.ValidateDeploymentProject | backend/apps/devops_metrics/models.py:108-112 | saving a deployment is accepted iff its environment and changelist belong to one project, else the not-same-project message is raised |
| MaturityModels.KindCode | backend/apps/dashboard/models/maturity_model.py:86-91 | every kind is stored as a code of at most five characters, the column's maximum length |
| MaturityModels.KindCodeInjective | backend/apps/dashboard/models/maturity_model.py:58-91 | distinct kinds are stored under distinct codes, so the stored code identifies the kind |
| MaturityModels.ValidateKindUniqueness | backend/apps/dashboard/models/maturity_model.py:117-136 | the kind check passes iff the kind is manual, or no stored type has it, or the row being updated is stored and already has it; a new row with a taken non-manual kind gets the duplicate-kind message |
| MaturityModels.CreateKeepsKindsUnique | backend/apps/dashboard/models/maturity_model.py:105-119 | adding a new evaluation type that passed the check keeps non-manual kinds unique |
| MaturityModels.UpdateKeepsKindsUnique | backend/apps/dashboard/models/maturity_model.py:105-119 | replacing a stored evaluation type by a version that passed the check keeps non-manual kinds unique |
| MaturityModels.ItemOnSave | backend/apps/dashboard/models/maturity_model.py:196-198 | saving an item sets its maturity model to its level's and changes nothing else; an item that already agrees with its level is stored unchanged |
| MaturityModels.UpdateModelInItems | backend/apps/dashboard/models/maturity_model.py:244-246 | after a level is saved, every one of its items has the level's maturity model, each item otherwise unchanged |
| MaturityModels.LatestApprovedToggleRequest | backend/apps/dashboard/models/maturity_model.py:208-215 | `None` iff the item has no approved toggle request for the project (created by the timestamp, when given); otherwise such a request created no earlier than any other |
| MaturityModels.IsDisabled | backend/apps/dashboard/models/maturity_model.py:204-219 | an item with no approved toggle request is enabled; otherwise it is disabled exactly as the latest approved request says |
| MaturityModels.SingleApprovalDecides | backend/apps/dashboard/models/maturity_model.py:204-219 | with a single approved toggle request, that request alone decides whether the item is disabled |
| MaturityModels.LatestPendingToggleRequest | backend/apps/dashboard/models/maturity_model.py:236-241 | `None` iff the item has no pending toggle request for the project; otherwise such a request created no earlier than any other |
| MaturityModels.HasPendingToggleRequest | backend/apps/dashboard/models/maturity_model.py:221-234 | with no direction asked, true iff a pending request exists; with a direction, true iff there is a pending request and the latest one asks for that direction |
| MaturityModels.ActionType | backend/apps/dashboard/models/maturity_model.py:275-277 | a request's action is `disable` exactly when it disables, and `enable` exactly when it does not |
| Evaluations.Text | backend/apps/dashboard/models/evaluation.py:154-155 | the text a value field compares by: `None` for no value, the text itself, or the decimal digits of an integer |
| Evaluations.ReevaluatedIsValid | backend/apps/dashboard/models/evaluation.py:144-148 | a report whose latest evaluation time is set to the current time is within its validity period, from its creation until the item's validity days after the latest evaluation |
| Evaluations.LogicallyEqualsIsEquivalence | backend/apps/dashboard/models/evaluation.py:150-156 | logical equality is reflexive, symmetric and transitive, and ignores ids and times |
| Evaluations.IntegerEqualsItsText | backend/apps/dashboard/models/evaluation.py:154-155 | an integer value and its decimal text are logically equal, because both compare by their text |
| Evaluations.StatusDistinguishes | backend/apps/dashboard/models/evaluation.py:152 | reports with different statuses are never logically equal |
| Evaluations.CreateNew | backend/apps/dashboard/models/evaluation.py:158-163 | a new, unsaved report takes the value type and the expected value from its item unless the caller gives them; everything else is as given |
| Evaluations.GetLatest | backend/apps/dashboard/models/evaluation.py:170-177 | `None` iff no report of the item for the project was created on or before the date, when one is given; otherwise such a report created no earlier than any other |
| Evaluations.SaveGuard | backend/apps/dashboard/models/evaluation.py:203-212 | a forced save or the save of a new report always passes; a save is refused only when it changes a stored report's latest evaluation time and another report is the latest one of its item |
| Evaluations.Write | backend/apps/dashboard/models/evaluation.py:98-142 | a report not stored yet is always appended, with the next id when it has none, `now` as its three times and every other field as given; a stored one replaces the first row with its id, with only its last update time set to now, and the write fails with the constraint error exactly when its times are then out of order; a written row always satisfies both time constraints |
| Evaluations.WriteKeepsInvariant | backend/apps/dashboard/models/evaluation.py:133-142 | a successful write keeps ids unique, positive and below the id counter, and keeps every row's times ordered |
| Evaluations.CloseRequests | backend/apps/dashboard/models/evaluation.py:217-227 | after a save, each pending request of the same project and item made no later than the report's creation is done and linked to the report; every other request is unchanged |
| Evaluations.NoCoveredRequestStaysPending | backend/apps/dashboard/models/evaluation.py:217-227 | after a save, no request that the saved report covers is still pending |
| Evaluations.SaveOutcome | backend/apps/dashboard/models/evaluation.py:203-214 | a save whose guard fails is an error; a successful save is exactly the write |
| Evaluations.EvaluationStore.Save | backend/apps/dashboard/models/evaluation.py:203-227 | on success, the tables hold the written row and the requests it covers are closed; on failure, the error is the guard's or the write's and nothing changes; the store invariant is kept |
| Evaluations.EvaluationStore.Delete | backend/apps/dashboard/models/evaluation.py:53-58 | deleting a report removes exactly the row with its id; every request it closed loses its link (set to null) and stays done; other requests and the id counter are left alone; the store invariant is kept |
| Evaluations.ReleaseRequests | backend/apps/dashboard/models/evaluation.py:53-58 | a request linked to the deleted report keeps everything but its link, which becomes null; every other request is unchanged |
| Evaluations.DeleteKeepsLinks | backend/apps/dashboard/models/evaluation.py:53-58 | if every request link points at a stored report before a deletion, it still does after, and none points at the deleted id |
| Evaluations.WriteKeepsLinks | backend/apps/dashboard/models/evaluation.py:203-227 | a save keeps every request link pointing at a stored report, including the links it adds to the requests it closes |
| Evaluations.WithoutReport | backend/apps/custom_scripts/evaluation_report_pruning.py:38 | a row stays exactly when it is stored and has a different id |
| Evaluations.KeptKeepsInvariant | backend/apps/custom_scripts/evaluation_report_pruning.py:38 | deleting a report keeps the store invariant |
| Evaluations.OnToggleApprovalSaved | backend/apps/dashboard/models/maturity_model.py:316-334 | a report is created iff the approval is newly created and approved; it is a failing report of the request's item and project saying the item is disabled |
| Goals.LatestReportsBeforeDueDate | backend/apps/dashboard/models/goal.py:60-71 | at most one report per item, each the latest report of one of the goal's items created on or before the due date |
| Goals.GetLatestEvaluationReportsBeforeDueDate | backend/apps/dashboard/models/goal.py:60-71 | the loop appends, in item order, the latest report before the due date of each item that has one, skipping the others |
| Goals.PassedCount | backend/apps/dashboard/models/goal.py:51-71 | the number of items with a passing latest report before the due date, never more than the number of items |
| Goals.PassedCountCountsPassingLatest | backend/apps/dashboard/models/goal.py:51-71 | counting the passing reports among the latest ones gives exactly the number of items counted as passed |
| Goals.PassedMaturityModelItemsCount | backend/apps/dashboard/models/goal.py:51-58 | the counter loop over the latest reports computes the passed count, at most the number of items |
| Goals.CountPassing | backend/apps/dashboard/models/goal.py:54-58 | the counter starts at zero and goes up by one for each passing report, so it ends at the number of passing reports |
| Goals.PassingCount | backend/apps/dashboard/models/goal.py:55-57 | the number of passing reports in a list is at most its length |
| Goals.PassingCountSnoc | backend/apps/dashboard/models/goal.py:55-57 | one more report in the list adds one to the count exactly when it passes |
| Goals.Status | backend/apps/dashboard/models/goal.py:41-49 | on the road iff there is no due date or it is still ahead; achieved iff the due date has come and every item passed; not achieved otherwise |
| Goals.MissingReportBlocksAchievement | backend/apps/dashboard/models/goal.py:60-71 | an item without a report before the due date keeps the passed count below the number of items, so a due goal is not achieved |
| ProjectMaturityStates.AchievedPrefix | backend/apps/dashboard/models/project_maturity_state.py:31-39 | the number of leading levels whose items all passed or are disabled, at most the number of levels |
| ProjectMaturityStates.AchievedPrefixIsMaximalRun | backend/apps/dashboard/models/project_maturity_state.py:33-38 | every level of the prefix is achieved and the level right after it is not, so the prefix is the whole unbroken run of achieved levels from the first |
| ProjectMaturityStates.AchievedLevelIndex | backend/apps/dashboard/models/project_maturity_state.py:31-39 | nothing iff there are no levels or the first level is not achieved; otherwise the index of the last level of the achieved run, with every level up to it achieved and the next one not; a later achieved level after a gap does not count |
| ProjectMaturityStates.PassedEnabledIn | backend/apps/dashboard/models/project_maturity_state.py:41-44 | within a level, the passed enabled items are at most the enabled ones |
| ProjectMaturityStates.PassedEnabledItemsCount | backend/apps/dashboard/models/project_maturity_state.py:41-44 | over all levels, the enabled items that passed are at most the enabled items |
| ProjectMaturityStates.PassedEnabledInIsFullIff | backend/apps/dashboard/models/project_maturity_state.py:35-44 | within a level, every enabled item passed exactly when the level is achieved |
| ProjectMaturityStates.AllLevelsAchievedIff | backend/apps/dashboard/models/project_maturity_state.py:31-44 | the passed enabled count equals the enabled count exactly when every level is achieved |
| ProjectRetrieve.GetMaturityModelItemStatus | backend/apps/dashboard/project_retrieve_utils.py:245-260 | the status is Pass exactly when there is no failure reason, and exactly when the latest report passes and is within its validity period; otherwise Fail, with "Not evaluated yet" when there is no report, the failed-evaluation reason when the latest report failed, and the expiry reason when it passed but expired |
| ProjectRetrieve.LatestApprovedToggleRequests | backend/apps/dashboard/project_retrieve_utils.py:76-87 | the query holds exactly the approved toggle requests of the project created by the given time that are the latest such request of their own item |
| ProjectRetrieve.IsItemDisabled | backend/apps/dashboard/project_retrieve_utils.py:90-94 | false when the query holds no request of the item; true only when a request of the item disables it |
| ProjectRetrieve.IsItemDisabledAgreesWithIsDisabled | backend/apps/dashboard/project_retrieve_utils.py:76-94 | looking the item up in the latest-approved query gives the same answer as the item's own disabled check at that time |
| ProjectRetrieve.CoverageItemsDisabled | backend/apps/dashboard/project_retrieve_utils.py:239-242 | true exactly when every listed coverage item is disabled in the query; true when there is none |
| ProjectRetrieve.ItemIdsOfKind | backend/apps/dashboard/project_retrieve_utils.py:235-237 | every listed id is the id of an item of the model with the given kind |
| ProjectRetrieve.OverallCoverageItemsDisabled | backend/apps/dashboard/project_retrieve_utils.py:222-242 | true exactly when every item of the model whose kind is test coverage is disabled for the project |
| ProjectRetrieve.IncrementalCoverageItemsDisabled | backend/apps/dashboard/project_retrieve_utils.py:218-242 | true exactly when every item of the model whose kind is incremental test coverage is disabled for the project |
| ProjectRetrieve.RowsOfGoal | backend/apps/dashboard/project_retrieve_utils.py:155 | a goal gives one row per item it holds, and only those |
| ProjectRetrieve.GoalRows | backend/apps/dashboard/project_retrieve_utils.py:152-155 | the rows are exactly the pairs of a goal and one of its items |
| ProjectRetrieve.ClosestRowOf | backend/apps/dashboard/project_retrieve_utils.py:151-157 | nothing iff the item is in no goal of the project due after today; otherwise such a row with the earliest due date |
| ProjectRetrieve.ClosestGoals | backend/apps/dashboard/project_retrieve_utils.py:151-157 | the query holds exactly the upcoming rows of the project that are the closest row of their item |
| ProjectRetrieve.GetClosestGoalOfItem | backend/apps/dashboard/project_retrieve_utils.py:160-164 | nothing iff no row of the query is for the item; otherwise the goal of a row of the item |
| ProjectRetrieve.ClosestGoalIsEarliestUpcoming | backend/apps/dashboard/project_retrieve_utils.py:151-164 | an item's closest goal is missing iff none of the project's goals holding it is due after today; otherwise it is such a goal with a due date no later than any other |
| ProjectRetrieve.PendingEvaluationRequests | backend/apps/dashboard/project_retrieve_utils.py:176-181 | exactly the project's pending evaluation requests |
| ProjectRetrieve.PendingToggleRequests | backend/apps/dashboard/project_retrieve_utils.py:184-189 | exactly the project's toggle requests without an approval |
| ProjectRetrieve.GetLatestPendingEvaluationRequestIdForItem | backend/apps/dashboard/project_retrieve_utils.py:192-196 | nothing iff no request in the query is for the item; otherwise the id of the first request of the item |
| ProjectRetrieve.GetLatestPendingToggleRequestIdForItem | backend/apps/dashboard/project_retrieve_utils.py:199-203 | nothing iff no toggle request in the query is for the item; otherwise the id of the first toggle request of the item |
| ProjectRetrieve.PendingEvaluationRequestIsFound | backend/apps/dashboard/project_retrieve_utils.py:176-196 | a pending request of the project is always found for its item |
| ProjectRetrieve.MostRecent | backend/apps/dashboard/project_retrieve_utils.py:143-144 | nothing iff the list is empty; otherwise a report of the list that comes no earlier, by latest evaluation time and then creation time, than any other |
| ProjectRetrieve.LatestEvaluationReportOf | backend/apps/dashboard/project_retrieve_utils.py:138-148 | nothing iff the project has no report of the item created by the given time; otherwise such a report that is latest by latest evaluation time, then creation time |
| ProjectRetrieve.LatestEvaluationReports | backend/apps/dashboard/project_retrieve_utils.py:138-148 | the map has a key exactly for each listed item that has a report, mapped to that item's latest report |
| ProjectRetrieve.LatestEvaluationReportFinder.Prefetch | backend/apps/dashboard/project_retrieve_utils.py:133-136 | after a prefetch, the finder is prefetched for exactly the given ids and holds their latest reports |
| ProjectRetrieve.LatestEvaluationReportFinder.Get | backend/apps/dashboard/project_retrieve_utils.py:117-131 | fails exactly when the finder was prefetched without the item; otherwise answers the item's latest report, the same whether prefetched or not |
| ProjectRetrieve.AllItemIds | backend/apps/dashboard/project_retrieve_utils.py:38 | every item of every level of the model is listed |
| ProjectRetrieve.ItemStates | backend/apps/dashboard/project_retrieve_utils.py:47-69 | one state per item, in item order |
| ProjectRetrieve.LevelStateOf | backend/apps/dashboard/project_retrieve_utils.py:46-71 | a level's state names the level and has one item state per item |
| ProjectRetrieve.ProjectStateOf | backend/apps/dashboard/project_retrieve_utils.py:30-73 | the project's state names the project and has one level state per level |
| ProjectRetrieve.StateFollowsModel | backend/apps/dashboard/project_retrieve_utils.py:45-73 | the state follows the model: the k-th level state is the k-th level, with one state per item in the level's order |
| ProjectRetrieve.ItemStateMeaning | backend/apps/dashboard/project_retrieve_utils.py:50-67 | an item is disabled exactly when its latest approved toggle request disables it; a disabled item has no verdict and no goal; an enabled item passes exactly when its latest report passes and is still valid |
| ProjectRetrieve.ComputeItemState | backend/apps/dashboard/project_retrieve_utils.py:49-69 | the state built for one item from the queries run once for the project is the item's state |
| ProjectRetrieve.ComputeLevelState | backend/apps/dashboard/project_retrieve_utils.py:46-71 | the loop over a level's items builds the level's state |
| ProjectRetrieve.GetProjectMaturityState | backend/apps/dashboard/project_retrieve_utils.py:30-73 | the loops over levels and items, with the reports prefetched for all items of the model, build the project's state |
| EvaluatorRunner.MergedSaveSucceeds | backend/apps/dashboard/evaluators/runner.py:52-63 | re-saving the item's latest report, when it can be merged with the new one, passes the save guard and the time constraints |
| EvaluatorRunner.AddOrUpdate | backend/apps/dashboard/evaluators/runner.py:45-63 | adding or updating an unsaved report keeps the store invariant: ids unique, positive and below the counter, and times ordered (the new table is stated by `AddOrUpdateStores`) |
| EvaluatorRunner.AddOrUpdateStores | backend/apps/dashboard/evaluators/runner.py:45-63 | when the latest report is mergeable, its row is rewritten in place with `now` as latest evaluation and last update, and no id is used; otherwise the report is appended with the next id and `now` as all three times; the requests the saved row covers are closed |
| EvaluatorRunner.ReportsOfItemSnoc | backend/apps/dashboard/evaluators/runner.py:45-63 | appending a row adds one to an item's report count exactly when the row belongs to that item and project |
| EvaluatorRunner.ReportsOfItemUpdate | backend/apps/dashboard/evaluators/runner.py:60-63 | rewriting a row with one of the same item and project leaves the item's report count unchanged |
| EvaluatorRunner.NoReportsOfItem | backend/apps/dashboard/evaluators/test_runner.py:63-66 | a store holding no report of the item for the project counts zero reports of it |
| EvaluatorRunner.AddOrUpdateCount | backend/apps/dashboard/evaluators/runner.py:45-70 | a merge rewrites the latest report in place and the item's report count stays the same; otherwise exactly one report is added |
| EvaluatorRunner.TwoRunsWithinValidityLeaveOneReport | backend/apps/dashboard/evaluators/test_runner.py:68-72 | two runs within the validity period whose reports say the same thing leave a single report of the item: the first run's row, with the second run's time as its latest evaluation and last update |
| EvaluatorRunner.RunAfterExpiryAddsReport | backend/apps/dashboard/evaluators/test_runner.py:87-92 | a second run after the first report's validity period has passed leaves two reports of the item, whatever the reports say |
| EvaluatorRunner.FirstRunCount | backend/apps/dashboard/evaluators/test_runner.py:63-66 | after the first run on an empty store the item has exactly one report |
| EvaluatorRunner.FirstRunAddsOne | backend/apps/dashboard/evaluators/runner.py:45-63 | the first report of an item is added as a new row whose three times are the current time |
| EvaluatorRunner.SecondRunSeesFirst | backend/apps/dashboard/evaluators/runner.py:47-50 | after the first run, the second run finds the first run's row as the latest report |
| EvaluatorRunner.EvaluateAndSave | backend/apps/dashboard/evaluators/runner.py:29-43 | an evaluator that raises or returns nothing changes nothing; a report it already stored is deleted, the requests it closed lose their link, and nothing else is saved; the store invariant is kept |
| EvaluatorRunner.RunStep | backend/apps/dashboard/evaluators/runner.py:17-27 | an item disabled for the project, or whose kind has no registered evaluator, is skipped; the store invariant is kept |
| EvaluatorRunner.RunItems | backend/apps/dashboard/evaluators/runner.py:16-27 | the steps over one project's items, in order, keep the store invariant |
| EvaluatorRunner.RunProjects | backend/apps/dashboard/evaluators/runner.py:14-27 | a whole run over every project and item, in order, keeps the store invariant |
| EvaluatorRunner.DisabledItemsAreSkipped | backend/apps/dashboard/evaluators/runner.py:17-25 | a run over items that are all disabled or have no evaluator changes nothing |
| EvaluatorRunner.Runner.AddOrUpdateEvaluationReport | backend/apps/dashboard/evaluators/runner.py:45-63 | the store afterwards is what adding or updating the report gives, and the store invariant holds |
| EvaluatorRunner.Runner.EvaluateAndSaveReport | backend/apps/dashboard/evaluators/runner.py:29-43 | the store afterwards is what evaluating and saving the item gives |
| EvaluatorRunner.Runner.Run | backend/apps/dashboard/evaluators/runner.py:14-27 | the nested loops over projects and items leave the store as the whole run describes |
| DevopsMetricsEvaluators.ComputerOf | backend/apps/dashboard/evaluators/devops_metrics_evaluators/__init__.py:43-85 | each of the four kinds is computed by its own metric computer, never a coverage one, over the project's default environment |
| DevopsMetricsEvaluators.StatusFromCurrentValue | backend/apps/dashboard/evaluators/devops_metrics_evaluators/__init__.py:52-65 | no acceptable value raises; a missing metric value fails; an acceptable value that is not a number raises; otherwise the item passes exactly when the whole part of the value is strictly below the whole part of the acceptable value |
| DevopsMetricsEvaluators.WholeNumbersPassIffBelow | backend/apps/dashboard/evaluators/devops_metrics_evaluators/__init__.py:62-65 | a whole-number value passes against a whole-number threshold exactly when it is smaller; an equal value fails |
| DevopsMetricsEvaluators.Evaluate | backend/apps/dashboard/evaluators/devops_metrics_evaluators/__init__.py:27-41 | the report is an unsaved report of the item for the project, whose current value is the metric at the current time and whose status is the rule's; the rule's error is the evaluation's error |
| DevopsMetricsEvaluators.TimeToRestoreWithoutDataPasses | backend/apps/dashboard/evaluators/devops_metrics_evaluators/__init__.py:27-65 | with no status report at all, time to restore is 0 and the item passes against any positive whole threshold, recording 0 |
| DevopsMetricsEvaluators.LeadTimeAboveThresholdFails | backend/apps/dashboard/evaluators/devops_metrics_evaluators/test.py:38-47 | a lead time of 4 against an acceptable value of 2 fails |
| CoverageEvaluators.ReportFromCoverage | backend/apps/dashboard/evaluators/coverage_evaluators/__init__.py:23-35 | no coverage value gives no report; a missing or non-numeric acceptable value raises; otherwise an unsaved report of the item that passes exactly when the coverage reaches the acceptable value and records the coverage's text |
| CoverageEvaluators.EvaluateOverall | backend/apps/dashboard/evaluators/coverage_evaluators/__init__.py:38-45 | the overall evaluator judges, by the common rule, the project's overall coverage over the reports updated since the first day of the checking period |
| CoverageEvaluators.EvaluateIncremental | backend/apps/dashboard/evaluators/coverage_evaluators/__init__.py:48-55 | the incremental evaluator judges, by the common rule, the project's incremental coverage over the reports updated since the first day of the checking period |
| CoverageEvaluators.CoverageWindowStartsAtEarliestDate | backend/apps/dashboard/evaluators/coverage_evaluators/__init__.py:41-54 | the first day of the checking period is the UTC day holding the current time minus the checking days, and the window holds exactly the project's reports of the type updated from 00:00 UTC of that day until now |
| CoverageEvaluators.EvaluateIsCoverageCalculated | backend/apps/dashboard/evaluators/coverage_evaluators/__init__.py:58-99 | a report, when there is one, is unsaved and of the item and project; no coverage report at all fails with that reason; the report passes exactly when the latest coverage report is recent; there is no report exactly when coverage is stale but the item's previous report passed and is still valid; every other case fails |
| CoverageEvaluators.IsCoverageCalculatedReasons | backend/apps/dashboard/evaluators/coverage_evaluators/__init__.py:58-99 | a pass carries the recent-coverage description; a failure with stale coverage gives the reason: no previous report, a failed previous report, or one no longer valid |
| CoverageEvaluators.LatestCoveragePrefersOverall | backend/apps/dashboard/evaluators/coverage_evaluators/__init__.py:71-74 | the latest overall coverage report, when there is one, is the one used; none is found exactly when the project has no coverage report of either type |
| DoryModels.ResultsFileNamesDistinct | backend/apps/dashboard/models/dory.py:24-29 | the results file name of a saved evaluation differs from that of any other saved evaluation and from any unsaved one's |
| DoryModels.GetMaturityItemDoryResult | backend/apps/dashboard/models/dory.py:79-90 | nothing when there is no results file or no result has the code; otherwise the first result with that code |
| DoryModels.GetCompletedEvaluationsInCheckingPeriod | backend/apps/dashboard/models/dory.py:105-115 | sorted by submission time, and holding exactly the project's evaluations that have a completed poll before now and were submitted within the checking period |
| DoryModels.GetLatestNonCompletedEvaluation | backend/apps/dashboard/models/dory.py:92-103 | nothing iff no evaluation of the project is still being polled; otherwise such an evaluation submitted no earlier than any other |
| DoryEvaluator.EvaluateLatest | backend/apps/dashboard/evaluators/dory_evaluator/__init__.py:32-60 | no report iff no evaluation completed in the period or the latest one has no result for the item; otherwise an unsaved report of the item that passes exactly when that result passed |
| DoryEvaluator.LatestIsLastSubmitted | backend/apps/dashboard/evaluators/dory_evaluator/__init__.py:35-39 | the evaluation the latest strategy reads was submitted no earlier than any other completed in the period |
| DoryEvaluator.TallyOf | backend/apps/dashboard/evaluators/dory_evaluator/__init__.py:71-84 | the two counters add up to the number of collected pairs |
| DoryEvaluator.TallyPairsAreCountedEvaluations | backend/apps/dashboard/evaluators/dory_evaluator/__init__.py:74-84 | the pairs are exactly the evaluations with a result for the item, each with that result |
| DoryEvaluator.NothingCountedIff | backend/apps/dashboard/evaluators/dory_evaluator/__init__.py:86-88 | nothing is counted exactly when no evaluation has a result for the item |
| DoryEvaluator.CountDoryResults | backend/apps/dashboard/evaluators/dory_evaluator/__init__.py:71-84 | the loop with two counters and a list of pairs computes the scan |
| DoryEvaluator.PassedPercentage | backend/apps/dashboard/evaluators/dory_evaluator/__init__.py:90 | the share is between 0 and 100, is 100 with no failure and 0 with no pass |
| DoryEvaluator.PairLines | backend/apps/dashboard/evaluators/dory_evaluator/__init__.py:115-118 | one line per pair, each the pair's id and status line |
| DoryEvaluator.DescriptionLines | backend/apps/dashboard/evaluators/dory_evaluator/__init__.py:108-121 | a header, one line per counted evaluation, a rule of twenty dashes and the totals line |
| DoryEvaluator.EvaluateAll | backend/apps/dashboard/evaluators/dory_evaluator/__init__.py:63-106 | no report iff nothing was counted; a non-numeric acceptable value then raises; otherwise an unsaved report whose current value is the passed share and which passes exactly when that share reaches the acceptable value |
| DoryEvaluator.OneOfFourFailsAgainstFifty | backend/apps/dashboard/evaluators/dory_evaluator/test.py:164-184 | one passing result out of four is 25 percent, which fails against an acceptable 50 |
| DoryEvaluator.Evaluate | backend/apps/dashboard/evaluators/dory_evaluator/__init__.py:18-29 | no acceptable value uses the latest-evaluation strategy; an acceptable value with a value type other than percentage is an error; otherwise the all-evaluations strategy decides |
| EvaluatorRegistry.Register | backend/apps/dashboard/evaluators/registry.py:11-22 | registration only adds or reassigns kinds: every kind mapped before stays mapped, and a kind that is not listed keeps its class |
| EvaluatorRegistry.RegisterAssignsListedKinds | backend/apps/dashboard/evaluators/registry.py:11-22 | without a raise, every listed kind maps to the class and every other kind keeps its entry, or its absence |
| EvaluatorRegistry.RegisterRaisesIff | backend/apps/dashboard/evaluators/registry.py:12-18 | registration raises exactly when a listed kind is already mapped to the same class, or when the list names a kind twice; a different class already there is silently replaced |
| EvaluatorRegistry.RaiseCauseExtends | backend/apps/dashboard/evaluators/registry.py:12-18 | a cause of raising found in a prefix of the kinds is still a cause for the whole list |
| EvaluatorRegistry.LastStepRaisesIff | backend/apps/dashboard/evaluators/registry.py:13-20 | after a prefix that did not raise, the last kind raises exactly when a cause of raising appears in the whole list |
| EvaluatorRegistry.Registry.Get | backend/apps/dashboard/evaluators/registry.py:13 | the class of a kind is found exactly when the kind is registered, and it is the registered class |
| EvaluatorRegistry.Registry.RegisterClass | backend/apps/dashboard/evaluators/registry.py:6-23 | the table afterwards is what registering the kinds in turn gives; the decorator raises exactly when that registration raises, and otherwise returns the class itself |
| EvaluatorRegistry.RegisterStopsAfterRaise | backend/apps/dashboard/evaluators/registry.py:12-20 | once a prefix of the kinds has raised, the rest of the list changes nothing |
| MaturityStateObserver.AllItems | backend/apps/dashboard/maturity_state_observer/projects_maturity_state_observer.py:42-59 | the item states of all levels: an item state is listed exactly when some level holds it |
| MaturityStateObserver.FindItemByCode | backend/apps/dashboard/maturity_state_observer/projects_maturity_state_observer.py:57-62 | nothing iff no item of the state has the code; otherwise an item of the state with that code |
| MaturityStateObserver.NewlyFailedIsOrderedFilter | backend/apps/dashboard/maturity_state_observer/projects_maturity_state_observer.py:42-48 | an item is reported exactly when it is not passed in the new state and its code was absent from the old state or passed there; the report keeps the new state's order |
| MaturityStateObserver.StillPassingOrStillFailingNotReported | backend/apps/dashboard/maturity_state_observer/projects_maturity_state_observer.py:44-48 | an item that passes now, or that was already failing when last observed, is never reported |
| MaturityStateObserver.AllPassingReportsNothing | backend/apps/dashboard/maturity_state_observer/projects_maturity_state_observer.py:42-48 | when every item passes at the new observation, nothing is reported |
| MaturityStateObserver.StoreAllKeepsLastState | backend/apps/dashboard/maturity_state_observer/projects_maturity_state_observer.py:27-33 | after observing every project, a listed project holds the last state listed for it, and any other project keeps what it had |
| MaturityStateObserver.ProjectsMaturityStateObserver.constructor | backend/apps/dashboard/maturity_state_observer/projects_maturity_state_observer.py:15-25 | a new observer starts with empty in-memory storage |
| MaturityStateObserver.ProjectsMaturityStateObserver.UpdateProjectState | backend/apps/dashboard/maturity_state_observer/projects_maturity_state_observer.py:31-33 | observing a project stores its current state under its key and changes nothing else |
| MaturityStateObserver.ProjectsMaturityStateObserver.UpdateProjectMaturityStates | backend/apps/dashboard/maturity_state_observer/projects_maturity_state_observer.py:27-29 | observing every project, in order, leaves the storage as storing each state in turn gives |
| MaturityStateObserver.ProjectsMaturityStateObserver.FindItemByCodeIn | backend/apps/dashboard/maturity_state_observer/projects_maturity_state_observer.py:57-62 | the nested scan finds the first item with the code, in level and item order |
| MaturityStateObserver.ProjectsMaturityStateObserver.GetNewlyFailedItems | backend/apps/dashboard/maturity_state_observer/projects_maturity_state_observer.py:35-55 | nothing for a project never observed; otherwise the items of the current state that failed since the last observation |
| MaturityStateObserver.FirstMatchIsFound | backend/apps/dashboard/maturity_state_observer/projects_maturity_state_observer.py:57-62 | an item with the code at a position with no earlier match, in level and item order, is the one found |
| MaturityStateObserver.AllItemsPrefix | backend/apps/dashboard/maturity_state_observer/projects_maturity_state_observer.py:58-59 | the items of the first levels are a prefix of the items of all levels |
| GeneralUtils.Coalesce | backend/apps/utils/general_utils.py:8-13 | the result is `None` exactly when every argument is `None`; otherwise it is some argument with only `None`s before it |
| GeneralUtils.ConvertNamesToTuple | backend/apps/utils/general_utils.py:44-50 | a value of any other type raises the type error naming the argument, a string becomes a one-element tuple, tuples and lists are kept; the result is never a bare string |
| GeneralUtils.ConvertNamesToTupleIdempotent | backend/apps/utils/general_utils.py:23-50 | converting an already converted value changes nothing |
| GeneralUtils.QuotedPrefix | backend/apps/utils/general_utils.py:65 | the first `n` items (all of them when fewer), each between the quotation marks |
| GeneralUtils.ShownCount | backend/apps/utils/general_utils.py:61 | the number of items shown is `max(max_len, 1)`: at least one and at least `max_len`, and one of the two |
| GeneralUtils.ShortListShownWhole | backend/apps/utils/general_utils.py:53-67 | a list no longer than the bound is shown whole, quoted, with no ellipsis |
| GeneralUtils.LongListTruncated | backend/apps/utils/general_utils.py:53-67 | a longer list shows exactly the bound's number of items, each quoted, followed by ", ..." |
| GeneralUtils.TruncatedToStrExample | backend/apps/utils/general_utils.py:53-67 | three items shown two at a time in single quotes read `'a', 'b', ...`; a missing list reads as the empty string |
| GeneralUtils.Tally | backend/apps/utils/general_utils.py:89 | the counter holds exactly the occurring projections, each with its number of occurrences |
| GeneralUtils.Duplicates | backend/apps/utils/general_utils.py:90 | exactly the projections that occur more than once, each with its count |
| GeneralUtils.ProjectDict | backend/apps/utils/general_utils.py:112 | one value per key, in key order, `None` for a missing key |
| GeneralUtils.FindDuplicateDictValuesByKeys | backend/apps/utils/general_utils.py:93-113 | keys of an unsupported type raise; otherwise the result maps exactly the projections occurring more than once to their number of occurrences |
| GeneralUtils.ProjectObjects | backend/apps/utils/general_utils.py:89 | one value per field and object, read through the attribute lookup that yields `None` when the attribute is missing |
| GeneralUtils.FindDuplicateObjectValuesByFields | backend/apps/utils/general_utils.py:70-90 | fields of an unsupported type raise; otherwise exactly the attribute projections occurring more than once, with their counts |
| GeneralUtils.DistinctProjectionsHaveNoDuplicates | backend/apps/utils/general_utils.py:70-113 | items with pairwise distinct projections have no duplicates |
| GeneralUtils.AddWholeDaysMovesDate | backend/apps/utils/general_utils.py:116-117 | adding a whole number of days moves the local date by that many days in any fixed-offset time zone |
| MigrationUtils.ObjectsHaveSameFieldValues | backend/apps/utils/migration_utils.py:8-11 | the comparison raises exactly when both objects are missing (the field list always holds the unified field); it holds exactly when both objects exist and agree on every field |
| MigrationUtils.TrailingDigitsAfterNonDigit | backend/apps/utils/migration_utils.py:132 | digits placed after a non-digit are exactly the text's trailing digit run |
| MigrationUtils.BeforeMarkerFinds | backend/apps/utils/migration_utils.py:132 | the pattern `(.*)__UNIFIED__(\d+)__` recognises any prefix followed by the marker, at least one digit and `__`, and captures that prefix |
| MigrationUtils.RevertLongUnifyLong | backend/apps/utils/migration_utils.py:132-146 | reverting a unified value gives back the original, a missing value included, for every occurrence number |
| MigrationUtils.RevertLongKeepsPlainValues | backend/apps/utils/migration_utils.py:142-146 | a value that does not end in `__` is left as it is by the revert |
| MigrationUtils.UnifyShort | backend/apps/utils/migration_utils.py:200-208 | the unified value fits the field's maximum length |
| MigrationUtils.RevertShortUnifyShort | backend/apps/utils/migration_utils.py:200-221 | the short revert restores a value exactly when the value fitted beside `_<pk>` (or, in a field no longer than `_<pk>`, when it was that text's end) |
| MigrationUtils.RevertShortUnifyShortNull | backend/apps/utils/migration_utils.py:200-221 | a missing value comes back missing when the field can hold `__N<pk>` |
| MigrationUtils.MakeOperation | backend/apps/utils/migration_utils.py:80-105 | the operation fails exactly when a names argument has an unsupported type; reverting defaults to enabled for the plain strategy and disabled for the short one, the chunk size to 100 |
| MigrationUtils.RunLength | backend/apps/utils/migration_utils.py:51-67 | the length of the final run of objects with the same key, at least one for a non-empty list |
| MigrationUtils.ScanTracksRun | backend/apps/utils/migration_utils.py:51-67 | the scan's occurrence counter is the current run's length and its representative the run's first object |
| MigrationUtils.ScanNumbersRuns | backend/apps/utils/migration_utils.py:51-67 | every object keeps its value when first in its run and otherwise gets the value unified with its position in the run |
| MigrationUtils.UnifyField | backend/apps/utils/migration_utils.py:51-67 | the loop over the ordered objects unifies each object as the run numbering prescribes |
| MigrationUtils.RevertAll | backend/apps/utils/migration_utils.py:69-78 | every object's value is reverted by the strategy, and nothing else changes |
| MigrationUtils.UndoFieldUnification | backend/apps/utils/migration_utils.py:69-78 | with reverting disabled nothing changes; otherwise every value is reverted |
| MigrationUtils.UndoAfterUnifyRestores | backend/apps/utils/migration_utils.py:51-78 | with the plain strategy, undoing a unification restores every original value whenever no original value already looks unified |
| GroupAndPermissionUtils.RolePostfix | backend/apps/utils/group_and_permission_utils.py:39-40 | a role's postfix starts with ` [` and ends with `]` |
| GroupAndPermissionUtils.GroupName | backend/apps/utils/group_and_permission_utils.py:27-36 | a project role's group name is the project name followed by exactly the role's postfix |
| GroupAndPermissionUtils.ProjectNameFromGroupName | backend/apps/utils/group_and_permission_utils.py:47-66 | no project exactly when the name ends with none of the three role postfixes; a found project name is one the name is the group name of, for some role |
| GroupAndPermissionUtils.PostfixesDoNotOverlap | backend/apps/utils/group_and_permission_utils.py:56-64 | a group name of one role never ends with another role's postfix, so the order of the checks does not matter |
| GroupAndPermissionUtils.ProjectNameRoundTrip | backend/apps/utils/group_and_permission_utils.py:27-66 | the project name is recovered from each of its three group names |
| GroupAndPermissionUtils.NoProjectForOtherNames | backend/apps/utils/tests/test_group_and_permission_utils.py:7-14 | an unknown role, a name without a postfix, and the quality committee give no project |
| GroupAndPermissionUtils.RelatedAddPermissionCodename | backend/apps/utils/group_and_permission_utils.py:19-24 | the codename starts with `add_`, holds no capital letter and ends with `_pk_` and the related object's pk |
| Formatter.Parts | backend/apps/utils/formatter.py:11-14 | the greedy decomposition yields only non-zero amounts, at most one per interval |
| Formatter.RStrip | backend/apps/utils/formatter.py:16 | `rstrip` leaves a prefix of the text that does not end with the stripped character |
| Formatter.RStripPlural | backend/apps/utils/formatter.py:15-16 | a plural interval name loses exactly its final `s` when its value is one |
| Formatter.Texts | backend/apps/utils/formatter.py:15-17 | one `"<value> <name>"` text per part, in order |
| Formatter.GetReadableTimeFromSeconds | backend/apps/utils/formatter.py:1-18 | the loop's text is the first `granularity` parts of the greedy decomposition, joined by ", " |
| Formatter.ReadableParts | backend/apps/utils/formatter.py:9-17 | the loop collects the texts of the greedy decomposition over the interval table it is given |
| Formatter.PartsAddUp | backend/apps/utils/formatter.py:11-17 | the parts add back up to the duration, since the last interval is one second |
| Formatter.ReadableTimeIsExact | backend/apps/utils/formatter.py:2-17 | with the month, day, hour, minute and second table, the parts account for every second of the duration |
| Formatter.ZeroIsEmpty | backend/apps/utils/formatter.py:1-18 | zero seconds reads as the empty text |
| Formatter.OneOfEachUnit | backend/apps/utils/formatter.py:1-18 | 90061 seconds read, at the default granularity of two, as `1 day, 1 hour` |
| Url.Utf8Char | backend/apps/utils/url.py:15-17 | a character encodes to one to four bytes, one byte (itself) exactly for ASCII, otherwise bytes of at least 0x80 |
| Url.QuoteByte | backend/apps/utils/url.py:15-17 | an unreserved byte is kept, any other becomes `%` and two hexadecimal digits |
| Url.QuoteBytesChars | backend/apps/utils/url.py:15-17 | an encoded credential holds only unreserved characters, `%` and upper-case hexadecimal digits |
| Url.UnquoteQuoteBytes | backend/apps/utils/url.py:15-17 | percent-decoding gives back the encoded bytes |
| Url.UnquoteQuote | backend/apps/utils/url.py:15-17 | percent-decoding a quoted text gives back its UTF-8 bytes |
| Url.QuoteKeepsUnreserved | backend/apps/utils/url.py:15-17 | text made only of unreserved ASCII characters is its own encoding |
| Url.Partition | backend/apps/utils/url.py:19 | the three parts put together give the text back, and when the separator is found nothing before it is an earlier occurrence |
| Url.Component | backend/apps/utils/url.py:12-17 | a missing or empty credential contributes nothing, any other its encoding |
| Url.GetAuthorizedUrl | backend/apps/utils/url.py:6-20 | without credentials the URL is returned as it is; with one it fails exactly when the URL is not http or https, and otherwise the user information goes right after the scheme's `://` |
| Url.SchemeSeparator | backend/apps/utils/url.py:19-20 | in an http or https URL the first `://` ends the scheme |
| Url.CredentialsReadBack | backend/apps/utils/url.py:6-20 | the credentials read back from the authorized URL are exactly the given ones' UTF-8 bytes, an empty or missing one reading as empty |
| Url.ComponentChars | backend/apps/utils/url.py:12-18 | an encoded credential holds neither `:` nor `@`, so it cannot break the user information apart |
| Url.MissingUsernameExample | backend/apps/utils/tests/test_basic_auth_url.py:7-31 | a missing username leaves its part empty (`http://:password@test.com`), and no credentials leave the URL unchanged |
| Url.MissingPasswordExample | backend/apps/utils/tests/test_basic_auth_url.py:16-23 | a missing password leaves its part empty (`http://username:@test.com`) |
| ValidationUtils.ValidatePercentage | backend/apps/utils/validation_utils.py:9-17 | a text that is not a number is refused with its own message; a number is accepted, as itself, exactly when it lies between 0 and 100 inclusive, and refused with the range message otherwise |
| ValidationUtils.WholePercentages | backend/apps/utils/validation_utils.py:9-17 | a whole number is a valid percentage exactly up to 100 |
| ValidationUtils.EmptyTextIsNotAPercentage | backend/apps/utils/validation_utils.py:10-13 | the empty text is refused as not a number |
| ValidationUtils.DuplicateValuesMessage | backend/apps/utils/validation_utils.py:20-24 | the message is "Duplicate values for ", the keys, ": ", then all duplicated values joined by ", " when there are at most three, else the first three and ", ..." |
| ValidationUtils.CheckForDuplicateValues | backend/apps/utils/validation_utils.py:27-40 | keys of an unsupported type raise a type error; otherwise a validation error built by the message builder is raised exactly when some projection occurs more than once |
| ValidationUtils.AgreeingRecordsAreReported | backend/apps/utils/validation_utils.py:27-40 | two records agreeing on every key are always reported |
| ValidationUtils.DistinctRecordsPass | backend/apps/utils/validation_utils.py:27-40 | records with pairwise different projections pass |
| ValidationUtils.InconsistentDataMessage | backend/apps/utils/validation_utils.py:43-45 | the message is `Inconsistent data error: ` followed by the description |
| ValidationUtils.ValidateAndSave | backend/apps/utils/validation_utils.py:52-83 | giving both or neither of instance and data raises the value error; otherwise the data (or the instance's serialization) is saved when it validates, and the validation or save failure is raised again when not |
| GerritChangelist.BeforeNewline | backend/apps/dashboard/data_collectors/gerrit_changelist/__init__.py:97 | the part before the first newline: a newline-free prefix, followed by a newline when shorter than the text |
| GerritChangelist.ChangelistId | backend/apps/dashboard/data_collectors/gerrit_changelist/__init__.py:93-98 | the id is missing (the not-found exception) exactly when the body has no `Change-Id:`; a found id has no surrounding whitespace |
| GerritChangelist.SplitLastAfterLastOccurrence | backend/apps/dashboard/data_collectors/gerrit_changelist/__init__.py:96-97 | for a separator whose occurrences cannot overlap, the last piece of the split is the text after the last occurrence |
| GerritChangelist.LastAfterFirst | backend/apps/dashboard/data_collectors/gerrit_changelist/__init__.py:96 | the last occurrence is the first one or lies after it |
| GerritChangelist.ChangeIdTrailer | backend/apps/dashboard/data_collectors/gerrit_changelist/__init__.py:93-98 | a message ending with the trailer `Change-Id: <id>` gives that id, whatever the message before it |
| GerritChangelist.TitleFirstCharUnique | backend/apps/dashboard/data_collectors/gerrit_changelist/__init__.py:19 | occurrences of `Change-Id:` cannot overlap |
| GerritChangelist.TrailerValue | backend/apps/dashboard/data_collectors/gerrit_changelist/__init__.py:97 | the text after the trailer's title reads, to the end of its line and stripped, as the id |
| GerritChangelist.TrailerIsLast | backend/apps/dashboard/data_collectors/gerrit_changelist/__init__.py:94-96 | with no `:` after it, the trailer's title is found and is the body's last `Change-Id:` |
| GerritChangelist.NewCommits | backend/apps/dashboard/data_collectors/gerrit_changelist/__init__.py:87-91 | the new commits are the longest prefix of the log without the latest changelist's commit; anything shorter stops exactly at that commit |
| GerritChangelist.NewCommitsOfLog | backend/apps/dashboard/data_collectors/gerrit_changelist/__init__.py:65-91 | a failing log stops the collection with its error exactly when it fails before reaching the latest saved commit; otherwise the new commits are collected |
| GerritChangelist.SavedCommitsNotDetectedAgain | backend/apps/dashboard/data_collectors/gerrit_changelist/__init__.py:87-91 | the latest changelist's commit and everything older than it are left out |
| GerritChangelist.LatestChangelist | backend/apps/dashboard/data_collectors/gerrit_changelist/__init__.py:59-60 | no changelist exactly when the project has none; otherwise the project's changelist with the highest id |
| GerritChangelist.Reverse | backend/apps/dashboard/data_collectors/gerrit_changelist/__init__.py:69 | the same commits in opposite order |
| GerritChangelist.GetNewChangelists | backend/apps/dashboard/data_collectors/gerrit_changelist/__init__.py:56-85 | the method's loops build exactly the changelists of the new non-merge commits, oldest first, skipping commits without a Change-Id |
| GerritChangelist.ChangelistsCount | backend/apps/dashboard/data_collectors/gerrit_changelist/__init__.py:71-84 | one changelist per commit with a Change-Id, none for the others |
| GerritChangelist.ChangelistsFollowCommits | backend/apps/dashboard/data_collectors/gerrit_changelist/__init__.py:71-78 | when every commit has a Change-Id, the changelists follow the commits one for one, in order |
| GerritChangelist.OldestFirst | backend/apps/dashboard/data_collectors/gerrit_changelist/__init__.py:67-78 | the i-th changelist is made from the i-th new non-merge commit counted from the oldest |
| GerritChangelist.NothingNewAfterSave | backend/apps/dashboard/data_collectors/gerrit_changelist/__init__.py:56-91 | a log whose newest commit is the latest saved changelist's gives no new changelist |
| GitMiner.RemoveSubstrMeaning | backend/apps/utils/git_miner/git_miner.py:67-71 | the line is refused with the mismatch message exactly when it does not start with the literal; otherwise the value is what follows the literal and its spaces |
| GitMiner.RemoveSubstrOfLine | backend/apps/utils/git_miner/git_miner.py:67-71 | a line made of the literal and a value not starting with a space gives that value back |
| GitMiner.UnindentNeverFails | backend/apps/utils/git_miner/git_miner.py:49-56 | removing the leading spaces never fails |
| GitMiner.ReadHeader | backend/apps/utils/git_miner/git_miner.py:29-49 | reading a header only consumes lines from the front |
| GitMiner.ReadBodyConsumes | backend/apps/utils/git_miner/git_miner.py:51-61 | reading the body only consumes lines from the front, and fails only with the unexpected end |
| GitMiner.ReadCommit | backend/apps/utils/git_miner/git_miner.py:28-61 | reading a block only consumes lines from the front |
| GitMiner.TraverseCommitsBack | backend/apps/utils/git_miner/git_miner.py:17-61 | the loop yields exactly the commits, and the stopping error, that the log's reading defines |
| GitMiner.ReadBlock | backend/apps/utils/git_miner/git_miner.py:28-61 | one block read is the first commit of the log from that line, and the reading goes on after the block; an error stops the log there |
| GitMiner.ReadBodyLines | backend/apps/utils/git_miner/git_miner.py:51-57 | the inner loop reads the body up to the first blank line, or reports the unexpected end |
| GitMiner.BodyLineStep | backend/apps/utils/git_miner/git_miner.py:53-57 | a non-blank line is unindented and appended to the body with a newline |
| GitMiner.BodyEndStep | backend/apps/utils/git_miner/git_miner.py:54-55 | a blank line ends the body |
| GitMiner.HeaderReadStep | backend/apps/utils/git_miner/git_miner.py:28-59 | once a block's header is read, the log from that block is the header's commit with its body followed by the log after the body's closing blank line, and a body that runs out of lines ends the log with the unexpected-end error |
| GitMiner.ParseRenderedLog | backend/apps/utils/tests/test_git_miner.py:42-50 | the log that `git log --pretty=fuller` prints for well-formed commits is read back without error into the same commits, newest first |
| GitMiner.ReadRenderedBlock | backend/apps/utils/tests/test_git_miner.py:30-40 | one printed block is read back into its commit: sha, merge flag, author, committer, dates, title and body |
| GitMiner.ReadRenderedBody | backend/apps/utils/git_miner/git_miner.py:51-57 | an indented body followed by a blank line reads as its lines, each followed by a newline |
| GitMiner.ReadRenderedHeader | backend/apps/utils/git_miner/git_miner.py:29-49 | the printed header reads back into its fields, the merge flag set exactly when a `Merge:` line is printed |
| GitMiner.MergeLine | backend/apps/utils/git_miner/git_miner.py:32-34 | the second line is a `Merge:` line exactly when the commit has parents to show |
| GitMiner.ReadCutBody | backend/apps/utils/git_miner/git_miner.py:52-61 | indented lines are never blank, so a body that the log cuts off runs out with the unexpected end |
| GitMiner.ParseCutLog | backend/apps/utils/git_miner/git_miner.py:52-61 | a log cut off inside its last body gives the earlier commits, in order, and then stops with the unexpected end |
| ChangelistReporter.NewChangeListReport | backend/apps/changelist_reporter/models.py:5-10 | a report is made exactly when the merge time is present and parses; it keeps the id, title and commit hash, holds the parsed time, and has no report yet |
| ChangelistReporter.CommitHashInDefaultBranch | backend/apps/changelist_reporter/models.py:29-36 | the squash commit's hash when present, else the merge commit's, else the source branch's last commit's |
| ChangelistReporter.CommitHashIsCoalesce | backend/apps/changelist_reporter/models.py:29-36 | the chosen hash is the first present one of squash, merge and source hash, in that order |
| ChangelistReporter.IdText | backend/apps/changelist_reporter/models.py:39 | a present non-negative iid reads as its digits, an absent one as `None` |
| ChangelistReporter.IdsAreDistinct | backend/apps/changelist_reporter/models.py:39 | different iids give different ids, and an absent iid shares its id with none |
| ChangelistReporter.FromGitlabMergeRequest | backend/apps/changelist_reporter/models.py:19-43 | a report is made exactly when `merged_at` is present and parses; its id is the iid's text, its title the request's, its hash the first present of squash, merge and source hash |
| EvaluationReportPruning.ItemRun | backend/apps/custom_scripts/evaluation_report_pruning.py:19-25 | the walked reports are exactly the project's reports of the item, in creation-time order, and none when the item is evaluated manually |
| EvaluationReportPruning.CollapseFromShape | backend/apps/custom_scripts/evaluation_report_pruning.py:27-40 | the kept reports grow by at most one per report, keep their earlier members, and the previous report keeps its identity with new times only |
| EvaluationReportPruning.FirstReportSurvives | backend/apps/custom_scripts/evaluation_report_pruning.py:27-40 | a non-empty run keeps between one and all of its reports, and its first report survives with its id and creation time |
| EvaluationReportPruning.CollapseIsSettled | backend/apps/custom_scripts/evaluation_report_pruning.py:27-40 | after the walk no surviving report could be merged into the one before it |
| EvaluationReportPruning.CollapseIsIdempotent | backend/apps/custom_scripts/evaluation_report_pruning.py:9-40 | running the script a second time changes nothing |
| EvaluationReportPruning.MergeUnfolds | backend/apps/custom_scripts/evaluation_report_pruning.py:31-38 | a mergeable report causes the forced save of the previous report with the later latest evaluation time, then its own deletion; a failed save ends the walk |
| EvaluationReportPruning.KeepUnfolds | backend/apps/custom_scripts/evaluation_report_pruning.py:39-40 | a report that cannot be merged becomes the previous report |
| EvaluationReportPruning.PruneRunKeepsStore | backend/apps/custom_scripts/evaluation_report_pruning.py:27-40 | the walk leaves a consistent store with no more rows than before |
| EvaluationReportPruning.PruneRunDeletesMerged | backend/apps/custom_scripts/evaluation_report_pruning.py:31-38 | a walk that completes deletes one row per report merged into an earlier one |
| EvaluationReportPruning.PruneRunStoresSurvivors | backend/apps/custom_scripts/evaluation_report_pruning.py:27-40 | a walk that completes leaves every surviving report, with its merged times, in the store |
| EvaluationReportPruning.PruneRunLeavesOthers | backend/apps/custom_scripts/evaluation_report_pruning.py:27-40 | rows outside the walk stay in the store as they were |
| EvaluationReportPruning.ItemKeepsCollapse | backend/apps/custom_scripts/evaluation_report_pruning.py:16-40 | for one item the script deletes exactly the reports merged into an earlier one and stores every survivor with its merged times |
| EvaluationReportPruning.ScriptOnlyRemoves | backend/apps/custom_scripts/evaluation_report_pruning.py:9-40 | the script never adds a report and leaves every report outside its runs untouched: a report whose project is not listed, whose item is not among its project's items, or whose item is manually evaluated |
| EvaluationReportPruning.PruneItemReports | backend/apps/custom_scripts/evaluation_report_pruning.py:18-40 | the loop over one item's reports leaves the store and the failure the walk defines, and keeps the store consistent |
| EvaluationReportPruning.RemoveRepeaterEvaluationReports | backend/apps/custom_scripts/evaluation_report_pruning.py:9-40 | the loops over the projects, each over the items of its own maturity model level by level, leave the store and the failure the script defines, and keep the store consistent |
| EvaluationReportPruning.PrefixFailureStops | backend/apps/custom_scripts/evaluation_report_pruning.py:9-40 | once a project's walk has failed, the script ends with that failure and store |
| EvaluationReportPruning.ItemsPrefixFailureStops | backend/apps/custom_scripts/evaluation_report_pruning.py:15-40 | once an item's walk has failed, the project ends with that failure and store |
| EvaluationReportPruning.BurstOfThreeLeavesTwo | backend/apps/custom_scripts/tests/test_evaluation_pruning.py:13-36 | two equal reports and a third with another value leave two reports; the first keeps its creation time and takes the second's latest evaluation time |
| EvaluationReportPruning.ExpiredReportIsNotMerged | backend/apps/custom_scripts/tests/test_evaluation_pruning.py:56-78 | equal reports two days apart are both kept when a report is valid for one day |
| DeploymentPruning.ChosenIsFirst | backend/apps/custom_scripts/deployment_pruning.py:24-27 | `distinct('change_list_id')` over the `-status, -time` order chooses exactly one deployment per changelist that has deployments: one of its own, which none of its others comes before |
| DeploymentPruning.RemoveDeploymentsExceptLatest | backend/apps/custom_scripts/deployment_pruning.py:11-32 | the deletion fails with the not-found error exactly when the project does not exist |
| DeploymentPruning.OnlyTheProjectIsPruned | backend/apps/custom_scripts/deployment_pruning.py:29-32 | the deletion never adds a deployment and leaves deployments outside the project's changelists as they were |
| DeploymentPruning.OneSurvivorPerChangeList | backend/apps/custom_scripts/deployment_pruning.py:11-32 | each changelist of the project in the period that has deployments keeps exactly one: a passing one when it has one, and the latest among those of its status |
| DeploymentPruning.OutOfPeriodIsDeleted | backend/apps/custom_scripts/deployment_pruning.py:17-32 | every deployment of a project changelist whose time lies outside the period is deleted |
| DeploymentPruning.ExampleKeepsLatest | backend/apps/custom_scripts/tests/test_deployment_pruning.py:20-65 | changelists deployed fail, pass, fail; fail, fail; and pass, pass keep only the pass, the later fail and the later pass |
| ApiUrls.GetEditUrlFromListUrl | frontend/src/apiURLs.js:14-20 | the detail URL starts with the list URL and ends with a slash, and has exactly one slash between them |
| ApiUrls.EditUrlIsIdUnderList | frontend/src/apiURLs.js:14-20 | a detail URL is the list URL as a directory, the id and a slash, so distinct ids under one list give distinct URLs |
| ApiUrls.Login | frontend/src/apiURLs.js:24-28 | a login URL exists exactly in the OIDC mode, and is the OIDC root's `/authenticate/` |
| ApiUrls.Logout | frontend/src/apiURLs.js:30-34 | a logout URL exists exactly in the OIDC mode, and is the OIDC root's `/logout` |
| ApiUrls.Project | frontend/src/apiURLs.js:44-46 | a project's URL is the projects list, the id and a slash |
| ApiUrls.NullParameterIsDropped | frontend/src/apiURLs.js:81-85 | a parameter given as `null` is always filtered out |
| ApiUrls.QueryStringEmpty | frontend/src/apiURLs.js:84-87 | the query string is empty exactly when every parameter is filtered out |
| ApiUrls.GraphQuery | frontend/src/apiURLs.js:78-132 | the graph URL is the bare path when all three parameters are `null`, else the path, `?` and exactly the parameters that are not `null`, in order, joined with `&` |
| ApiUrls.FullGraphQuery | frontend/src/apiURLs.js:78-90 | with all three parameters given, the query lists start, end and checking period in that order |
| ApiUrls.ChartsDifferOnlyInMetric | frontend/src/apiURLs.js:120-140 | every chart URL is the environment's `/metric/`, the metric's segment and the same query, so two metrics never share a URL |
| ApiUrls.DailyCoveragePath | frontend/src/apiURLs.js:46-79 | the daily-coverage path doubles the slashes after the project and after `graphs`, since each segment is appended after a trailing slash |
| ItemChoices.GetGoalItemChoices | frontend/src/utils/item_choices_for_goal.js:1-29 | the nested loops build exactly one choice per level with a selectable item, with that level's selectable items as children |
| ItemChoices.LevelChildrenAreSelectableItems | frontend/src/utils/item_choices_for_goal.js:7-16 | a level's children are exactly its items that are neither disabled nor waiting on an evaluation request, in order, each labelled `[code] name` |
| ItemChoices.LevelIdsAreSelectableIds | frontend/src/utils/item_choices_for_goal.js:7-10 | a level's ids are exactly the ids of its selectable items, in order |
| ItemChoices.LevelIdsAreChildIds | frontend/src/utils/item_choices_for_goal.js:10-16 | position by position the ids are the children's single ids, and each child is a selectable item of the level |
| ItemChoices.HasChildrenIffSelectable | frontend/src/utils/item_choices_for_goal.js:18-19 | a level has children exactly when one of its items is selectable |
| ItemChoices.ChoicesAreLevelsWithItems | frontend/src/utils/item_choices_for_goal.js:18-26 | the choices are the levels with a selectable item, in level order; levels left without items are omitted |
| ItemChoices.EveryChoiceIsNonEmpty | frontend/src/utils/item_choices_for_goal.js:18-26 | every choice is named after a level, has at least one child and one id per child |
| ItemChoices.ExampleChoices | frontend/src/utils/item_choices_for_goal.js:1-29 | a disabled item and one with a pending request drop out, a pending id of `0` counts as none, and a level with only a disabled item is omitted |
| ProjectRetrieve.LatestEvaluationReportFinder.constructor | backend/apps/dashboard/project_retrieve_utils.py:98-115 | a new finder holds the project, the current time and the reports, with nothing prefetched |
| EvaluatorRegistry.Registry.constructor | backend/apps/dashboard/evaluators/registry.py:3 | the registry starts empty |
| EvaluatorRunner.Runner.constructor | backend/apps/dashboard/evaluators/runner.py:9-12 | a runner holds the projects, the items and the registry it is given |
| Goals.PassedCountBelowWithGap | backend/apps/dashboard/models/goal.py:41-71 | an item with no report before the due date keeps the passed count below the number of items |

## Left out

- The database and ORM machinery are not modelled: querysets, transactions, `select_related`, model metadata, signals and their wiring. The same goes for Django REST framework glue other than the validation rules, for Celery scheduling and for e-mail. Tables are sequences and queries are functions over them.
- The database's choice between rows with equal ordering keys is not modelled. The model fixes one choice by table position, and each such choice is documented at its member. For example, the last of equal keys stands for `order_by(...).last()`, and the earlier row stands for the `DISTINCT ON` choice of deployment pruning. The metric queries ordered by `time` keep rows with equal times in table order, and so does the pruning walk ordered by `creation_time`.
- Deployment pruning runs inside one transaction. The model is a function from the old table to the new one, so it is atomic by construction; no concurrent writer is modelled.
- The model performs no I/O:
  - HTTP calls to GitLab, Sonar and the Dory service;
  - cloning repositories and running `git` in a subprocess;
  - reading and writing files, including the storage of Dory result files (`set_maturity_item_dory_results`);
  - the cache.

  Their results are parameters, and decoding `git` output into lines is not modelled.
- The clock and the `pytz` time-zone conversion are parameters: `now` and a fixed offset in seconds.
- Date parsing (`strptime`, `dateutil`) is also a parameter. `auto_now_add` is the creation time passed in.
- Floating point is not modelled:
  - percentages are exact rationals or whole numbers;
  - Python's `float()` is modelled only for the subset of decimal syntax it parses;
  - `get_percentage_from_float` is left out, and so are the readable expected and current values of an evaluation report that depend on it (`backend/apps/dashboard/models/evaluation.py:179-201`).
- `\d` in the source's regular expressions stands for ASCII digits, and lower-casing is ASCII only.
- When the source reports duplicate values, they come in `most_common` order. The model reports the same set of duplicates without fixing that order.
- Iterator chunk sizes in the pruning scripts are not observable and are not modelled. The same holds for `describe()` strings, `__str__` and `__repr__`, and the management-command wiring.
- Migration operations that only rename are not modelled: `UpdateContentType`, `RenameSequence`, `RenameIndex` and the constraint renames. The unification and reverting of field values is modelled.
- `add_parameters_to_url` and `convert_date_to_datetime` are not modelled; both are thin wrappers over library calls.
- `save_new_changelists_of_repo` and `collect_and_save_data` are left out: they do I/O and log exceptions. Their parts are modelled: new change-lists, their order, and the saving into the store.
- GitMiner is modelled as three methods: block, body and header. The source uses one generator loop, and the model parses the same log into the same commits.
- `MaturityModelItemToggleRequest.get_latest_pending` and `EvaluationRequest.get_latest_pending` are left out: they rely on `.get()` raising for zero or several rows. Which request is the latest pending one is modelled through the stores.
- These query helpers are left out: `get_item_ids_with_pending_toggle_request`, `get_project_with_related_fields` and `hit_visit_for_project`. They only build querysets or count visits.
- `Goal.get_closest_goal_based_on_time_for_project_item` is modelled by `ProjectRetrieve` through the goal ordering, not as a method of its own.
- Granting permissions is not modelled: the `guardian` calls and the post-save permission signals. The group and codename names are modelled.
- The observer's recovery from an `AttributeError` is not modelled. That error comes from a cached state of an older schema; the model's states always have every field, so it cannot occur.
- The DevOps status rule compares the value with the "Deployments not enough to calculate." text, and the model leaves that comparison out. The computers this evaluator calls return a number or `None`. Only the metrics view produces that text.
- The registry's duplicate-registration message is modelled only by its prefix.
- The frontend's `window.AppConfig` is a `Config` value and its OIDC mode a boolean. Only the URL builders in the model table are modelled. The React components are not.
- ComputationBase.ComputeForConsecutiveTimestamps and ComputationBase.ConsistencyLaw: for coverage they use the corrected run (`first + i·step`). The source's `first + i` days labelling is modelled separately by `CoverageComputation.SeriesAsWritten`. That run agrees with the corrected one only for a daily step (`CoverageComputation.AsWrittenAgreesForDailyStep`).

## Findings

| source | as written | input that shows it | evidently intended | confidence | as-written member | corrected member |
|---|---|---|---|---|---|---|
| backend/apps/dashboard/metrics/coverage/computation.py:57 | point `i` of a consecutive coverage run is taken at `first + i` days, whatever the step length | step 100 s, first timestamp 1000, two points, one report created at 1200: the second point is labelled `1000 + 86400` but holds no value, while the single-timestamp value at that label is the report's 50.0 | point `i` lies at `first + i·step`, like every other computer's, so that it agrees with the single-timestamp value | not executed | CoverageComputation.AsWrittenBreaksConsistency | CoverageComputation.SeriesPointIsSingleTimestamp |
| backend/apps/devops_metrics/serializers.py:82-102 | `validate` checks the time given in the request against the changelist's, but `create` drops it and stores the request time (the column's default) | a changelist at 500; a request at 400 giving time 600 passes the check and stores a deployment at 400, before its changelist | the time that is stored is the time that is checked, so no deployment precedes its changelist, which the lead-time computer assumes | medium, not executed | DevopsSerializers.CreatedDeploymentCanPrecedeChangeList | DevopsSerializers.CheckedDeploymentKeepsOrder |
