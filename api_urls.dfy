/**
 * The frontend's builders of backend URLs. Every URL starts from the
 * configured API URL; ids and dates enter as the text a template string
 * gives them. A detail URL is its list URL with the id and a slash appended,
 * and the graph URLs carry their period and checking-period parameters in a
 * query string that leaves out the parameters that are `null`.
 */
module ApiUrls {
  import opened Common

  /** The deployment's configuration: the API URL, and whether authentication goes through OIDC. */
  datatype Config = Config(apiUrl: string, oidc: bool)

  function ApiRoot(cfg: Config): string { cfg.apiUrl + "/api/v1/dashboard" }

  function DevopsMetricsRoot(cfg: Config): string { cfg.apiUrl + "/api/v1/devops-metrics" }

  function OidcRoot(cfg: Config): string { cfg.apiUrl + "/api/oidc" }

  /** An optional argument of a graph URL: `null` when not given, else the text it interpolates to. */
  datatype JsValue = JsNull | JsText(text: string)

  /** The text a template string gives the value. */
  function Interpolated(v: JsValue): string {
    if v.JsNull? then "null" else v.text
  }

  /** `getEditUrlFromListUrl`: the id appended to the list URL, with a slash between them unless the list URL ends with one. */
  function GetEditUrlFromListUrl(listUrl: string, itemId: string): (r: string)
    ensures EndsWith(r, "/") && StartsWith(r, listUrl)
    ensures |r| == |listUrl| + |itemId| + (if EndsWith(listUrl, "/") then 1 else 2)
  {
    var r := if EndsWith(listUrl, "/") then listUrl + itemId + "/" else listUrl + "/" + itemId + "/";
    assert r[..|listUrl|] == listUrl;
    r
  }

  /** The list URL with a trailing slash. */
  function AsDirectory(listUrl: string): (d: string)
    ensures EndsWith(d, "/")
  {
    if EndsWith(listUrl, "/") then listUrl else listUrl + "/"
  }

  /**
   * A detail URL is the list URL as a directory, then the id, then a slash;
   * so distinct ids under one list give distinct URLs.
   */
  lemma EditUrlIsIdUnderList(listUrl: string, a: string, b: string)
    ensures GetEditUrlFromListUrl(listUrl, a) == AsDirectory(listUrl) + a + "/"
    ensures a != b ==> GetEditUrlFromListUrl(listUrl, a) != GetEditUrlFromListUrl(listUrl, b)
  {
    var d := AsDirectory(listUrl);
    if GetEditUrlFromListUrl(listUrl, a) == GetEditUrlFromListUrl(listUrl, b) {
      var ra, rb := d + a + "/", d + b + "/";
      assert |a| == |b|;
      assert a == ra[|d|..|d| + |a|] && b == rb[|d|..|d| + |b|];
    }
  }

  /** `login`: the OIDC authentication URL, and nothing (`undefined`) in any other mode. */
  function Login(cfg: Config): (r: Option<string>)
    ensures r.Some? <==> cfg.oidc
    ensures r.Some? ==> r.value == OidcRoot(cfg) + "/authenticate/"
  {
    if cfg.oidc then Some(OidcRoot(cfg) + "/authenticate/") else None
  }

  /** `logout`: the OIDC logout URL, and nothing in any other mode. */
  function Logout(cfg: Config): (r: Option<string>)
    ensures r.Some? <==> cfg.oidc
    ensures r.Some? ==> r.value == OidcRoot(cfg) + "/logout"
  {
    if cfg.oidc then Some(OidcRoot(cfg) + "/logout") else None
  }

  function ProjectsList(cfg: Config): string { ApiRoot(cfg) + "/project/" }

  /** `project`: the project's detail URL under the projects list. */
  function Project(cfg: Config, projectId: string): (r: string)
    ensures r == ApiRoot(cfg) + "/project/" + projectId + "/"
  {
    assert EndsWith(ProjectsList(cfg), "/") by {
      var l := ProjectsList(cfg);
      assert l[|l| - 1..] == "/";
    }
    GetEditUrlFromListUrl(ProjectsList(cfg), projectId)
  }

  /** `projectGraphs`: a sub-path appended to the project URL, which already ends with a slash. */
  function ProjectGraphs(cfg: Config, projectId: string): string { Project(cfg, projectId) + "/graphs/" }

  /** The three graph parameters, in their order. */
  function GraphParameters(fromDate: JsValue, toDate: JsValue, checkingPeriodDays: JsValue): seq<string> {
    ["period_start_date=" + Interpolated(fromDate),
     "period_end_date=" + Interpolated(toDate),
     "checking_period_days=" + Interpolated(checkingPeriodDays)]
  }

  predicate IsNullParameter(p: string) { EndsWith(p, "null") }

  /** The filter the query string applies: keep a parameter unless its text ends with `null`. */
  predicate KeptParameter(p: string) { !IsNullParameter(p) }

  /** The parameters whose text does not end with `null`, joined with `&`. */
  function QueryString(parameters: seq<string>): string {
    Join(Filter(parameters, KeptParameter), "&")
  }

  /** The URL with the query string appended after `?`, when the query string is not empty. */
  function WithQuery(url: string, parameters: seq<string>): string {
    var query := QueryString(parameters);
    if query != "" then url + "?" + query else url
  }

  /** `projectGraphURLForDailyCoverage`. */
  function ProjectGraphUrlForDailyCoverage(cfg: Config, projectId: string, fromDate: JsValue, toDate: JsValue, checkingPeriodDays: JsValue): string {
    WithQuery(ProjectGraphs(cfg, projectId) + "/daily-coverage/", GraphParameters(fromDate, toDate, checkingPeriodDays))
  }

  function DevopsMetricsProject(cfg: Config, projectId: string): string { DevopsMetricsRoot(cfg) + "/project/" + projectId + "/" }

  function DevopsMetricsEnvironmentsList(cfg: Config, projectId: string): string {
    DevopsMetricsProject(cfg, projectId) + "/environment/"
  }

  function DevopsMetricsEnvironment(cfg: Config, projectId: string, environmentId: string): string {
    GetEditUrlFromListUrl(DevopsMetricsEnvironmentsList(cfg, projectId), environmentId)
  }

  /** `devopsMetricsChartURL`: the metric's path under the environment, then the graph query. */
  function DevopsMetricsChartUrl(
    cfg: Config, metricName: string, projectId: string, environmentId: string,
    fromDate: JsValue, toDate: JsValue, checkingPeriodDays: JsValue): string
  {
    WithQuery(DevopsMetricsEnvironment(cfg, projectId, environmentId) + "/metric/" + metricName + "/",
              GraphParameters(fromDate, toDate, checkingPeriodDays))
  }

  /** The per-metric chart helpers, which name the metric's path segment. */
  datatype Metric = ChangeFailureRate | LeadTime | TimeToRestore | DeploymentFrequency

  function MetricSegment(m: Metric): string {
    match m
    case ChangeFailureRate => "change-failure-rate"
    case LeadTime => "lead-time"
    case TimeToRestore => "time-to-restore"
    case DeploymentFrequency => "deployment-frequency"
  }

  function MetricChart(
    cfg: Config, m: Metric, projectId: string, environmentId: string,
    fromDate: JsValue, toDate: JsValue, checkingPeriodDays: JsValue): string
  {
    DevopsMetricsChartUrl(cfg, MetricSegment(m), projectId, environmentId, fromDate, toDate, checkingPeriodDays)
  }

  // ---------------------------------------------------------------------------
  // The query string
  // ---------------------------------------------------------------------------

  /** A parameter given as `null` always ends with `null`, so it is always left out. */
  lemma NullParameterIsDropped(name: string)
    ensures IsNullParameter(name + Interpolated(JsNull))
  {
    var p := name + "null";
    assert p[|p| - 4..] == "null";
  }

  /** A query string made of non-empty parameters is empty exactly when every parameter is left out. */
  lemma {:induction false} QueryStringEmpty(parameters: seq<string>)
    requires forall p :: p in parameters ==> p != ""
    ensures QueryString(parameters) == "" <==> forall p :: p in parameters ==> IsNullParameter(p)
  {
    var kept := Filter(parameters, KeptParameter);
    FilterMembers(parameters, KeptParameter);
    if kept != [] {
      assert kept[0] in parameters;
      JoinStartsWithFirst(kept, "&");
    }
  }

  lemma {:induction false} JoinStartsWithFirst(parts: seq<string>, sep: string)
    requires parts != []
    ensures StartsWith(Join(parts, sep), parts[0])
  {
    if |parts| > 1 {
      var r := parts[0] + sep + Join(parts[1..], sep);
      assert r[..|parts[0]|] == parts[0];
    }
  }

  /**
   * The graph URL: the bare path when all three parameters are `null`, else
   * the path, `?`, and the parameters that are not `null`, in the order start,
   * end, checking period, joined with `&`.
   */
  lemma GraphQuery(url: string, fromDate: JsValue, toDate: JsValue, checkingPeriodDays: JsValue)
    ensures var ps := GraphParameters(fromDate, toDate, checkingPeriodDays);
      var kept := Filter(ps, KeptParameter);
      (kept == [] ==> WithQuery(url, ps) == url) &&
      (kept != [] ==> WithQuery(url, ps) == url + "?" + Join(kept, "&")) &&
      (forall p :: p in kept <==> p in ps && !IsNullParameter(p))
    ensures fromDate.JsNull? && toDate.JsNull? && checkingPeriodDays.JsNull? ==>
      WithQuery(url, GraphParameters(fromDate, toDate, checkingPeriodDays)) == url
  {
    var ps := GraphParameters(fromDate, toDate, checkingPeriodDays);
    forall p | p in ps ensures p != "" {
      assert |p| > 0 by {
        assert p == ps[0] || p == ps[1] || p == ps[2];
      }
    }
    QueryStringEmpty(ps);
    var kept := Filter(ps, KeptParameter);
    FilterMembers(ps, KeptParameter);
    if kept != [] {
      assert kept[0] in ps && KeptParameter(kept[0]);
    }
    NullParameterIsDropped("period_start_date=");
    NullParameterIsDropped("period_end_date=");
    NullParameterIsDropped("checking_period_days=");
  }

  /** With all three given as texts that do not end with `null`, the query lists all three in order. */
  lemma FullGraphQuery(url: string, fromDate: string, toDate: string, checkingPeriodDays: string)
    requires !IsNullParameter("period_start_date=" + fromDate)
    requires !IsNullParameter("period_end_date=" + toDate)
    requires !IsNullParameter("checking_period_days=" + checkingPeriodDays)
    ensures WithQuery(url, GraphParameters(JsText(fromDate), JsText(toDate), JsText(checkingPeriodDays))) ==
      url + "?" + ("period_start_date=" + fromDate) + "&" + ("period_end_date=" + toDate) + "&" + ("checking_period_days=" + checkingPeriodDays)
  {
    var a, b, c := "period_start_date=" + fromDate, "period_end_date=" + toDate, "checking_period_days=" + checkingPeriodDays;
    assert GraphParameters(JsText(fromDate), JsText(toDate), JsText(checkingPeriodDays)) == [a, b, c];
    assert |a| > 0;
    QueryOfThree(url, a, b, c);
  }

  lemma JoinOfThree(a: string, b: string, c: string, sep: string)
    ensures Join([a, b, c], sep) == a + sep + (b + sep + c)
  {
    assert [a, b, c][1..] == [b, c] && [b, c][1..] == [c];
    assert Join([b, c], sep) == b + sep + c;
  }

  /** Three parameters that are all kept make the query `?a&b&c`. */
  lemma QueryOfThree(url: string, a: string, b: string, c: string)
    requires KeptParameter(a) && KeptParameter(b) && KeptParameter(c) && a != ""
    ensures WithQuery(url, [a, b, c]) == url + "?" + a + "&" + b + "&" + c
  {
    var ps := [a, b, c];
    assert Filter(ps, KeptParameter) == ps by {
      FilterKeepsAll(ps, KeptParameter);
    }
    assert QueryString(ps) == a + "&" + (b + "&" + c) by {
      JoinOfThree(a, b, c, "&");
    }
    assert QueryString(ps) != "" by {
      assert |QueryString(ps)| >= |a|;
    }
    AppendAssoc(a + "&", b, "&" + c);
  }

  // ---------------------------------------------------------------------------
  // The charts
  // ---------------------------------------------------------------------------

  /**
   * Every chart URL is the environment URL, `/metric/`, the metric's segment,
   * a slash, and a query part that does not depend on the metric; so charts of
   * different metrics differ, and only in that segment.
   */
  lemma ChartsDifferOnlyInMetric(
    cfg: Config, a: Metric, b: Metric, projectId: string, environmentId: string,
    fromDate: JsValue, toDate: JsValue, checkingPeriodDays: JsValue)
    ensures var prefix := DevopsMetricsEnvironment(cfg, projectId, environmentId) + "/metric/";
      var query := QueryString(GraphParameters(fromDate, toDate, checkingPeriodDays));
      var suffix := if query != "" then "/?" + query else "/";
      MetricChart(cfg, a, projectId, environmentId, fromDate, toDate, checkingPeriodDays) == prefix + MetricSegment(a) + suffix &&
      MetricChart(cfg, b, projectId, environmentId, fromDate, toDate, checkingPeriodDays) == prefix + MetricSegment(b) + suffix
    ensures a != b ==>
      MetricChart(cfg, a, projectId, environmentId, fromDate, toDate, checkingPeriodDays) !=
      MetricChart(cfg, b, projectId, environmentId, fromDate, toDate, checkingPeriodDays)
  {
    var prefix := DevopsMetricsEnvironment(cfg, projectId, environmentId) + "/metric/";
    var query := QueryString(GraphParameters(fromDate, toDate, checkingPeriodDays));
    var suffix := if query != "" then "/?" + query else "/";
    var ua := MetricChart(cfg, a, projectId, environmentId, fromDate, toDate, checkingPeriodDays);
    var ub := MetricChart(cfg, b, projectId, environmentId, fromDate, toDate, checkingPeriodDays);
    assert ua == prefix + MetricSegment(a) + suffix;
    assert ub == prefix + MetricSegment(b) + suffix;
    if a != b && ua == ub {
      SegmentsDiffer(prefix, suffix, a, b);
    }
  }

  lemma SegmentsDiffer(prefix: string, suffix: string, a: Metric, b: Metric)
    requires a != b
    ensures prefix + MetricSegment(a) + suffix != prefix + MetricSegment(b) + suffix
  {
    var sa, sb := MetricSegment(a), MetricSegment(b);
    assert |sa| != |sb|;
  }

  /** Sub-resources of a project are appended after the project's own trailing slash: the daily-coverage graph path. */
  lemma DailyCoveragePath(cfg: Config, projectId: string)
    ensures ProjectGraphUrlForDailyCoverage(cfg, projectId, JsNull, JsNull, JsNull) ==
      cfg.apiUrl + "/api/v1/dashboard/project/" + projectId + "//graphs//daily-coverage/"
  {
    var path := ProjectGraphs(cfg, projectId) + "/daily-coverage/";
    assert ProjectGraphUrlForDailyCoverage(cfg, projectId, JsNull, JsNull, JsNull) == path by {
      NullGraphQuery(path);
    }
    assert path == cfg.apiUrl + "/api/v1/dashboard" + "/project/" + projectId + "/" + "/graphs/" + "/daily-coverage/";
    Regroup(cfg.apiUrl, "/api/v1/dashboard", "/project/", projectId, "/", "/graphs/", "/daily-coverage/");
    DailyCoverageLiterals();
  }

  /** With all three parameters `null`, the graph URL is the bare path. */
  lemma NullGraphQuery(url: string)
    ensures WithQuery(url, GraphParameters(JsNull, JsNull, JsNull)) == url
  {
    GraphQuery(url, JsNull, JsNull, JsNull);
  }

  lemma Regroup(x: string, l1: string, l2: string, id: string, l3: string, l4: string, l5: string)
    ensures x + l1 + l2 + id + l3 + l4 + l5 == x + (l1 + l2) + id + (l3 + l4 + l5)
  {
  }

  lemma DailyCoverageLiterals()
    ensures "/api/v1/dashboard" + "/project/" == "/api/v1/dashboard/project/"
    ensures "/" + "/graphs/" + "/daily-coverage/" == "//graphs//daily-coverage/"
  {
  }
}
