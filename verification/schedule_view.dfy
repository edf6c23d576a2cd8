/**
 * The Schedule page's state around `fetchScheduledQueries`: a loading flag, an
 * error message and the chart data, and which of spinner, error alert and chart
 * the page shows. The request itself is an input: the model receives what the
 * request produced.
 */
module ScheduleView {
  import opened Wrappers
  import opened Counting
  import opened Queries
  import opened HourlyBuckets

  const LoadFailedMessage: string := "Failed to load scheduled queries. Please try again later."

  datatype ChartPage = ChartPage(loading: bool, error: Option<string>, chartData: seq<Bucket>)

  /** What `GET api/queries` produced: a payload whose `results` may be missing, or any failure. */
  datatype QueriesResponse = Loaded(results: Option<seq<Query>>) | Failed

  /** The state on first render. */
  function InitialPage(): ChartPage {
    ChartPage(true, None, [])
  }

  /** `{loading && <Spin/>}` */
  predicate ShowsSpinner(p: ChartPage) {
    p.loading
  }

  /** `{error && <Alert/>}`: a string is truthy when it is not empty. */
  predicate ShowsAlert(p: ChartPage) {
    p.error.Some? && p.error.value != ""
  }

  /** `{!loading && !error && <Card/>}` */
  predicate ShowsChart(p: ChartPage) {
    !p.loading && !ShowsAlert(p)
  }

  /** The states the page can reach: never loading and failed at once. */
  predicate Consistent(p: ChartPage) {
    !(p.loading && ShowsAlert(p))
  }

  /**
   * `queries.filter(query => query.schedule && query.schedule.interval)`: every
   * scheduled query of the input, as often as it occurs there, and nothing else.
   */
  function ScheduledOnly(queries: seq<Query>): (r: seq<Query>)
    ensures forall i :: 0 <= i < |r| ==> HasInterval(r[i])
    ensures |r| == CountWhere(queries, HasInterval)
    ensures forall x :: multiset(r)[x] == (if HasInterval(x) then multiset(queries)[x] else 0)
    decreases |queries|
  {
    if |queries| == 0 then
      CountWhereEmpty(queries, HasInterval);
      []
    else
      var init := queries[..|queries| - 1];
      var last := queries[|queries| - 1];
      assert queries == init + [last];
      CountWhereSnoc(init, last, HasInterval);
      var r := ScheduledOnly(init) + (if HasInterval(last) then [last] else []);
      FilterStep(init, last, ScheduledOnly(init));
      r
  }

  /** The filter keeps exactly the scheduled queries of the input. */
  lemma ScheduledOnlyMembers(queries: seq<Query>)
    ensures forall x :: x in ScheduledOnly(queries) <==> x in queries && HasInterval(x)
  {
    var r := ScheduledOnly(queries);
    assert forall x :: x in r <==> x in multiset(r);
    assert forall x :: x in queries <==> x in multiset(queries);
  }

  /** Appending one query to the input adds it to the kept queries exactly when it is scheduled. */
  lemma FilterStep(init: seq<Query>, last: Query, kept: seq<Query>)
    requires forall x :: multiset(kept)[x] == (if HasInterval(x) then multiset(init)[x] else 0)
    ensures var r := kept + (if HasInterval(last) then [last] else []);
      forall x :: multiset(r)[x] == (if HasInterval(x) then multiset(init + [last])[x] else 0)
  {
    assert multiset(init + [last]) == multiset(init) + multiset{last};
  }

  /** The start of a fetch: `setLoading(true); setError(null)`. */
  function BeginFetch(p: ChartPage): (r: ChartPage)
    ensures ShowsSpinner(r) && !ShowsAlert(r) && !ShowsChart(r)
    ensures r.error == None && r.chartData == p.chartData
  {
    p.(loading := true, error := None)
  }

  /**
   * The end of a fetch. In the `catch` block: the fixed message, the old chart
   * data kept. At the end of the `try` block: the error as it was, and for each
   * hour of day k the returned queries whose next run lands (k - now) mod 24
   * hours ahead, a missing `results` counting as no queries.
   */
  function FinishFetch(p: ChartPage, now: int, response: QueriesResponse): (r: ChartPage)
    ensures !r.loading
    ensures response.Failed? ==> r.error == Some(LoadFailedMessage) && r.chartData == p.chartData
    ensures response.Loaded? ==>
      && r.error == p.error
      && |r.chartData| == HoursPerDay
      && forall k :: 0 <= k < HoursPerDay ==>
           r.chartData[k] == Bucket(k, Landing(response.results.GetOr([]), (k - now) % HoursPerDay), Label(k))
  {
    match response
    case Failed => p.(error := Some(LoadFailedMessage), loading := false)
    case Loaded(results) =>
      ScheduledOnlyLandings(results.GetOr([]));
      p.(chartData := ProcessScheduleData(now, ScheduledOnly(results.GetOr([]))), loading := false)
  }

  /**
   * `fetchScheduledQueries()` at local hour `now`. Loading ends either way. On
   * failure the fixed message is set and the alert replaces the chart, whose old
   * data is kept but not shown; on success the error stays cleared and the chart
   * holds, for each hour of day k, the scheduled queries whose next run lands
   * (k - now) mod 24 hours ahead; a missing `results` counts as no queries.
   */
  function FetchScheduledQueries(p: ChartPage, now: int, response: QueriesResponse): (r: ChartPage)
    ensures !r.loading && Consistent(r)
    ensures response.Failed? ==>
      r.error == Some(LoadFailedMessage) && ShowsAlert(r) && !ShowsChart(r) && r.chartData == p.chartData
    ensures response.Loaded? ==>
      && r.error.None? && ShowsChart(r)
      && |r.chartData| == HoursPerDay
      && forall k :: 0 <= k < HoursPerDay ==>
           r.chartData[k] == Bucket(k, Landing(response.results.GetOr([]), (k - now) % HoursPerDay), Label(k))
  {
    FinishFetch(BeginFetch(p), now, response)
  }

  /** Filtering before bucketing changes nothing: the bucketing applies the same test. */
  lemma ScheduledOnlyInvisible(now: int, queries: seq<Query>)
    ensures ProcessScheduleData(now, ScheduledOnly(queries)) == ProcessScheduleData(now, queries)
  {
    var a := ProcessScheduleData(now, ScheduledOnly(queries));
    var b := ProcessScheduleData(now, queries);
    ScheduledOnlyLandings(queries);
    assert forall k :: 0 <= k < HoursPerDay ==> a[k] == b[k];
  }

  lemma ScheduledOnlyLandings(queries: seq<Query>)
    ensures forall offset :: Landing(ScheduledOnly(queries), offset) == Landing(queries, offset)
  {
    forall offset {
      ScheduledOnlyLanding(queries, offset);
    }
  }

  lemma {:induction false} ScheduledOnlyLanding(queries: seq<Query>, offset: int)
    ensures Landing(ScheduledOnly(queries), offset) == Landing(queries, offset)
    decreases |queries|
  {
    if |queries| > 0 {
      var init := queries[..|queries| - 1];
      var last := queries[|queries| - 1];
      assert queries == init + [last];
      ScheduledOnlyLanding(init, offset);
      LandingSnoc(init, last, offset);
      if HasInterval(last) {
        LandingSnoc(ScheduledOnly(init), last, offset);
      } else {
        assert ScheduledOnly(queries) == ScheduledOnly(init);
      }
    }
  }

  /** In every state the page can reach, it shows exactly one of spinner, alert and chart. */
  lemma ExactlyOneShown(p: ChartPage)
    requires Consistent(p)
    ensures ShowsSpinner(p) || ShowsAlert(p) || ShowsChart(p)
    ensures !(ShowsSpinner(p) && ShowsAlert(p))
    ensures !(ShowsSpinner(p) && ShowsChart(p))
    ensures !(ShowsAlert(p) && ShowsChart(p))
  {
  }

  /** The first render and every fetch step keep the page consistent. */
  lemma ConsistencyPreserved(p: ChartPage, now: int, response: QueriesResponse)
    ensures Consistent(InitialPage()) && ShowsSpinner(InitialPage())
    ensures Consistent(BeginFetch(p))
    ensures Consistent(FinishFetch(BeginFetch(p), now, response))
  {
  }
}
