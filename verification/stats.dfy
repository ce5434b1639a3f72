/** The statistics page (`Stats.tsx`): the requests it sends for a period,
    how a settled load updates the page, the "total reviewed" figure it
    shows and the chart data it derives. Numbers are integers here. */
module Stats {
  import opened Options
  import ApiClient

  datatype Summary = Summary(
    totalReviewed: int,
    totalReviewedToday: int,
    totalReviewedThisWeek: int,
    totalReviewedThisMonth: int,
    approvedPercentage: int,
    rejectedPercentage: int,
    requestChangesPercentage: int,
    averageReviewTime: int)

  datatype Activity = Activity(date: string, approved: int, rejected: int, requestChanges: int)

  datatype Decisions = Decisions(approved: int, rejected: int, requestChanges: int)

  /** The categories record, as its entries in `Object.entries` order. */
  type Categories = seq<(string, int)>

  datatype ChartEntry = ChartEntry(name: string, value: int)

  const ZeroSummary: Summary := Summary(0, 0, 0, 0, 0, 0, 0, 0)

  /** `getTotalReviewed`: a switch on the period with arms for `today`,
      `week`, `month` and a default. Only `today` has a count of its own;
      the three other arms all show the overall count. */
  function TotalReviewed(period: string, s: Summary): (n: int)
    ensures period == "today" ==> n == s.totalReviewedToday
    ensures period != "today" ==> n == s.totalReviewed
  {
    match period
    case "today" => s.totalReviewedToday
    case "week" => s.totalReviewed
    case "month" => s.totalReviewed
    case _ => s.totalReviewed
  }

  /** The figure never reads the week and month counters of the summary,
      even for the `week` and `month` periods. */
  lemma TotalReviewedIgnoresPeriodCounts(period: string, s: Summary, week: int, month: int)
    ensures TotalReviewed(period, s.(totalReviewedThisWeek := week, totalReviewedThisMonth := month))
      == TotalReviewed(period, s)
  {
  }

  const ApprovedCaption := "Одобрено"
  const RejectedCaption := "Отклонено"
  const RequestChangesCaption := "На доработку"

  /** The value of the first chart entry with the caption, if any. */
  function ValueOf(r: seq<ChartEntry>, name: string): (v: Option<int>)
    ensures v.Some? ==> exists i :: 0 <= i < |r| && r[i] == ChartEntry(name, v.value)
    ensures v.None? ==> forall i :: 0 <= i < |r| ==> r[i].name != name
  {
    if r == [] then None
    else if r[0].name == name then Some(r[0].value)
    else
      var v := ValueOf(r[1..], name);
      assert v.Some? ==> r[1..][0] == r[1];
      v
  }

  /** The three decision figures, read back from chart data by caption. */
  function ReadDecisions(r: seq<ChartEntry>): Option<Decisions> {
    match (ValueOf(r, ApprovedCaption), ValueOf(r, RejectedCaption), ValueOf(r, RequestChangesCaption))
    case (Some(a), Some(j), Some(c)) => Some(Decisions(a, j, c))
    case _ => None
  }

  /** `decisionsChartData`: three entries, approved, rejected and sent back,
      in that order, under three different captions, so the figures read
      back by caption. */
  function DecisionsChart(d: Decisions): (r: seq<ChartEntry>)
    ensures |r| == 3
    ensures r[0] == ChartEntry(ApprovedCaption, d.approved)
    ensures r[1] == ChartEntry(RejectedCaption, d.rejected)
    ensures r[2] == ChartEntry(RequestChangesCaption, d.requestChanges)
    ensures ReadDecisions(r) == Some(d)
  {
    var r := [ChartEntry(ApprovedCaption, d.approved), ChartEntry(RejectedCaption, d.rejected), ChartEntry(RequestChangesCaption, d.requestChanges)];
    CaptionsDiffer();
    assert r[1..][1..] == [r[2]];
    r
  }

  lemma CaptionsDiffer()
    ensures ApprovedCaption != RejectedCaption && ApprovedCaption != RequestChangesCaption
    ensures RejectedCaption != RequestChangesCaption
  {
    assert ApprovedCaption[1] != RejectedCaption[1];
    assert ApprovedCaption[0] != RequestChangesCaption[0] && RejectedCaption[0] != RequestChangesCaption[0];
  }

  /** `categoriesData`: one `{name, value}` per category entry, in order. */
  function CategoriesChart(c: Categories): (r: seq<ChartEntry>)
    ensures |r| == |c|
    ensures forall i :: 0 <= i < |r| ==> r[i] == ChartEntry(c[i].0, c[i].1)
  {
    seq(|c|, i requires 0 <= i < |c| => ChartEntry(c[i].0, c[i].1))
  }

  /** The chart data loses nothing: the category entries can be read back
      from it. */
  lemma CategoriesChartInvertible(c: Categories)
    ensures var r := CategoriesChart(c);
      seq(|r|, i requires 0 <= i < |r| => (r[i].name, r[i].value)) == c
  {
  }

  datatype StatsState = StatsState(
    loading: bool,
    summary: Summary,
    activity: seq<Activity>,
    decisions: Decisions,
    categories: Categories,
    categoriesData: seq<ChartEntry>)

  const InitialState: StatsState := StatsState(true, ZeroSummary, [], Decisions(0, 0, 0), [], [])

  /** What the four parallel requests gave: all four answers, or a failure. */
  datatype StatsOutcome = AllLoaded(summary: Summary, activity: seq<Activity>, decisions: Decisions, categories: Categories) | LoadFailed

  /** `loadStats` once the requests have settled: on success everything is
      replaced, on failure the previous data is kept; loading ends either
      way. */
  function LoadStats(st: StatsState, outcome: StatsOutcome): (r: StatsState)
    ensures !r.loading
    ensures outcome.AllLoaded? ==>
      && r.summary == outcome.summary && r.activity == outcome.activity
      && r.decisions == outcome.decisions && r.categories == outcome.categories
      && r.categoriesData == CategoriesChart(outcome.categories)
    ensures outcome.LoadFailed? ==> r == st.(loading := false)
  {
    match outcome
    case AllLoaded(s, a, d, c) => StatsState(false, s, a, d, c, CategoriesChart(c))
    case LoadFailed => st.(loading := false)
  }

  /** Whatever the outcome, the chart data shown matches the categories held,
      once it did before the load. */
  lemma LoadStatsKeepsChartInSync(st: StatsState, outcome: StatsOutcome)
    requires st.categoriesData == CategoriesChart(st.categories)
    ensures var r := LoadStats(st, outcome);
      r.categoriesData == CategoriesChart(r.categories)
  {
  }

  /** The four requests of `loadStats`, each filtered by the period. */
  function StatsRequests(period: string): (reqs: seq<ApiClient.Request>)
    ensures |reqs| == 4
  {
    var f := [("period", ApiClient.One(ApiClient.Str(period)))];
    [ApiClient.GetStatsSummary(f), ApiClient.GetActivityChart(f), ApiClient.GetDecisionsChart(f), ApiClient.GetCategoriesChart(f)]
  }

  /** The four requests register four different keys, so none cancels
      another, and each asks for the period (`period=<p>`) when it is not
      empty. */
  lemma StatsRequestsDistinct(period: string)
    ensures forall i, j :: 0 <= i < j < 4 ==>
      ApiClient.RequestKey(StatsRequests(period)[i]) != ApiClient.RequestKey(StatsRequests(period)[j])
    ensures period != "" ==> forall i :: 0 <= i < 4 ==>
      ApiClient.RequestTarget(StatsRequests(period)[i]).query == [("period", period)]
  {
    var f := [("period", ApiClient.One(ApiClient.Str(period)))];
    assert f[1..] == [];
    if period != "" {
      assert ApiClient.EntryPairs("period", ApiClient.One(ApiClient.Str(period))) == [("period", period)];
      assert ApiClient.BuildQuery(f) == [("period", period)];
    }
  }
}
