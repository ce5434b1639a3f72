/** The list page's own state (`AddsList.tsx`): row selection, the count of
    new ads found by polling, loading a page of ads, and bulk moderation of
    the selected ads. Ads are represented by their ids; server responses are
    inputs. */
module ListPage {
  import opened Options
  import opened Text
  import opened Domain
  import ListParams
  import ApiClient
  import Moderation
  import Seqs

  /** `ITEMS_PER_PAGE`. */
  const ItemsPerPage: int := 10

  // ---------------------------------------------------------------- selection

  /** `handleSelectAd`: flip the membership of one id. */
  function SelectAd(selected: set<int>, id: int): (r: set<int>)
    ensures id in r <==> id !in selected
    ensures forall x :: x != id ==> (x in r <==> x in selected)
  {
    if id in selected then selected - {id} else selected + {id}
  }

  lemma SelectAdTwice(selected: set<int>, id: int)
    ensures SelectAd(SelectAd(selected, id), id) == selected
  {
  }

  function IdSet(ads: seq<int>): (r: set<int>)
    ensures forall x :: x in r <==> x in ads
  {
    set x | x in ads
  }

  /** `handleSelectAll`: clear the selection when it has as many ids as there
      are ads on the page, otherwise select exactly the page's ads. The test
      compares sizes only, as the page does. */
  function SelectAll(selected: set<int>, ads: seq<int>): (r: set<int>)
    ensures |selected| == |ads| ==> r == {}
    ensures |selected| != |ads| ==> forall x :: x in r <==> x in ads
  {
    if |selected| == |ads| then {} else IdSet(ads)
  }

  predicate Distinct(ads: seq<int>) {
    forall i, j :: 0 <= i < j < |ads| ==> ads[i] != ads[j]
  }

  /** Distinct ids make a set of the same size. */
  lemma {:induction false} DistinctIdSetSize(ads: seq<int>)
    requires Distinct(ads)
    ensures |IdSet(ads)| == |ads|
    decreases |ads|
  {
    if ads != [] {
      DistinctTail(ads);
      DistinctIdSetSize(ads[1..]);
    }
  }

  /** Dropping the first id keeps the rest distinct, and the first id is not
      among them. */
  lemma DistinctTail(ads: seq<int>)
    requires Distinct(ads) && ads != []
    ensures Distinct(ads[1..]) && ads[0] !in ads[1..]
    ensures IdSet(ads) == IdSet(ads[1..]) + {ads[0]}
  {
    var rest := ads[1..];
    assert Distinct(rest) by {
      forall i, j | 0 <= i < j < |rest| ensures rest[i] != rest[j] {
        assert rest[i] == ads[i + 1] && rest[j] == ads[j + 1];
      }
    }
    assert ads[0] !in rest by {
      forall k | 0 <= k < |rest| ensures rest[k] != ads[0] {
        assert rest[k] == ads[k + 1];
      }
    }
    assert ads == [ads[0]] + rest;
  }

  /** With distinct ids on the page, select-all alternates: from a partial
      selection it selects every ad, and from there it clears. */
  lemma SelectAllAlternates(selected: set<int>, ads: seq<int>)
    requires Distinct(ads) && |selected| != |ads|
    ensures SelectAll(selected, ads) == IdSet(ads)
    ensures SelectAll(SelectAll(selected, ads), ads) == {}
  {
    DistinctIdSetSize(ads);
  }

  // ---------------------------------------------------------------- polling

  /** The number of polled ads whose id is not among the shown ads
      (`filter(...).length`). */
  function CountNew(polled: seq<int>, shown: seq<int>): (n: nat)
    ensures n <= |polled|
    ensures n == 0 <==> forall i :: 0 <= i < |polled| ==> polled[i] in shown
    decreases |polled|
  {
    if polled == [] then 0
    else
      var rest := CountNew(polled[1..], shown);
      assert forall i :: 1 <= i < |polled| ==> polled[i] == polled[1..][i - 1];
      if polled[0] in shown then rest else 1 + rest
  }

  /** For distinct polled ids the count is the size of the set difference. */
  lemma {:induction false} CountNewIsDifference(polled: seq<int>, shown: seq<int>)
    requires Distinct(polled)
    ensures CountNew(polled, shown) == |IdSet(polled) - IdSet(shown)|
    decreases |polled|
  {
    if polled != [] {
      var rest := polled[1..];
      DistinctTail(polled);
      CountNewIsDifference(rest, shown);
      if polled[0] in shown {
        assert IdSet(polled) - IdSet(shown) == IdSet(rest) - IdSet(shown);
      } else {
        assert IdSet(polled) - IdSet(shown) == (IdSet(rest) - IdSet(shown)) + {polled[0]};
      }
    }
  }

  /** The new-ads count after a poll: replaced only when both lists are
      non-empty and some polled ad is new. */
  function PollUpdate(count: nat, polled: seq<int>, shown: seq<int>): (r: nat)
    ensures |polled| > 0 && |shown| > 0 && CountNew(polled, shown) > 0 ==> r == CountNew(polled, shown)
    ensures !(|polled| > 0 && |shown| > 0 && CountNew(polled, shown) > 0) ==> r == count
  {
    if |polled| > 0 && |shown| > 0 then
      var n := CountNew(polled, shown);
      if n > 0 then n else count
    else count
  }

  /** A poll never clears the count, and a poll that finds nothing new leaves
      it as it was. */
  lemma PollNeverClears(count: nat, polled: seq<int>, shown: seq<int>)
    ensures count > 0 ==> PollUpdate(count, polled, shown) > 0
    ensures (forall i :: 0 <= i < |polled| ==> polled[i] in shown) ==> PollUpdate(count, polled, shown) == count
  {
  }

  /** The filters of the polling request: the newest page of ads. */
  const PollFilters: ApiClient.Filters := [
    ("page", ApiClient.One(ApiClient.Num(1))),
    ("limit", ApiClient.One(ApiClient.Num(ItemsPerPage))),
    ("sortBy", ApiClient.One(ApiClient.Str("createdAt"))),
    ("sortOrder", ApiClient.One(ApiClient.Str("desc")))
  ]

  /** The poll asks for exactly what the list page loads from an empty URL:
      page 1 of ten ads, newest first, with no filter. */
  lemma PollIsFreshFirstPage()
    ensures PollFilters == LoadFilters(ListParams.InitialFilters([]), 1)
    ensures ApiClient.BuildQuery(PollFilters)
      == [("page", "1"), ("limit", "10"), ("sortBy", "createdAt"), ("sortOrder", "desc")]
  {
    var f := ListParams.InitialFilters([]);
    EmptyUrlFilters();
    assert Optional(f) == [];
    assert LoadFilters(f, 1) == Always(f, 1);
    PollQuery();
  }

  /** An empty URL decodes to no filter, sorted newest first. */
  lemma EmptyUrlFilters()
    ensures var f := ListParams.InitialFilters([]);
      && f.search == "" && f.statuses == [] && f.categoryId == "" && f.minPrice == "" && f.maxPrice == ""
      && f.sortBy == CreatedAt && f.sortOrder == Desc
  {
  }

  lemma PollQuery()
    ensures ApiClient.BuildQuery(PollFilters)
      == [("page", "1"), ("limit", "10"), ("sortBy", "createdAt"), ("sortOrder", "desc")]
  {
    ApiClient.BuildQueryOfScalars(PollFilters);
    TenText();
    assert IntToString(1) == "1";
  }

  /** The poll and the page load are both `getAds` requests and register the
      same key, so a poll sent while a load is pending cancels that load. */
  lemma PollCancelsPendingLoad(r: ApiClient.Registry, f: ListParams.Filters, page: int)
    requires ApiClient.Valid(r)
    ensures var loading := ApiClient.Send(r, ApiClient.GetAds(LoadFilters(f, page)));
      && "getAds" in loading.handles
      && !ApiClient.Live(ApiClient.Send(loading, ApiClient.GetAds(PollFilters)), loading.handles["getAds"])
  {
    var loading := ApiClient.Send(r, ApiClient.GetAds(LoadFilters(f, page)));
    ApiClient.SendPreservesValid(r, ApiClient.GetAds(LoadFilters(f, page)));
    ApiClient.RegisterReplaces(loading, "getAds");
  }

  // ---------------------------------------------------------------- loading

  datatype ListState = ListState(
    ads: seq<int>,
    loading: bool,
    totalPages: int,
    totalItems: int,
    currentPage: int,
    selected: set<int>,
    bulkLoading: bool,
    newAdsCount: nat)

  /** What `getAds` answered. */
  datatype LoadOutcome = Loaded(ads: seq<int>, totalPages: int, totalItems: int) | LoadFailed

  /** `loadAds` once the request has settled: the page number is taken from
      the URL whether or not the request succeeds; a success replaces the
      ads and totals and resets the new-ads count; loading ends either way. */
  function LoadAds(st: ListState, pageParam: Option<string>, outcome: LoadOutcome): (r: ListState)
    ensures !r.loading && r.currentPage == ListParams.DecodePage(pageParam)
    ensures r.selected == st.selected && r.bulkLoading == st.bulkLoading
    ensures outcome.Loaded? ==>
      r.ads == outcome.ads && r.totalPages == outcome.totalPages
      && r.totalItems == outcome.totalItems && r.newAdsCount == 0
    ensures outcome.LoadFailed? ==>
      r.ads == st.ads && r.totalPages == st.totalPages
      && r.totalItems == st.totalItems && r.newAdsCount == st.newAdsCount
  {
    var page := ListParams.DecodePage(pageParam);
    match outcome
    case Loaded(ads, pages, items) =>
      st.(ads := ads, totalPages := pages, totalItems := items, newAdsCount := 0, currentPage := page, loading := false)
    case LoadFailed => st.(currentPage := page, loading := false)
  }

  /** The refresh button of the new-ads badge: the count is cleared at the
      click, then the list is loaded. A successful load is just a plain load;
      a failed one still leaves the count at zero. */
  function RefreshClick(st: ListState, pageParam: Option<string>, outcome: LoadOutcome): (r: ListState)
    ensures r.newAdsCount == 0
    ensures outcome.Loaded? ==> r == LoadAds(st, pageParam, outcome)
    ensures outcome.LoadFailed? ==> r == LoadAds(st, pageParam, outcome).(newAdsCount := 0)
  {
    LoadAds(st.(newAdsCount := 0), pageParam, outcome)
  }

  /** `Number(text)` as a filter value; a text that is not a number is sent as
      `NaN`. */
  function NumberValue(text: string): ApiClient.Scalar {
    match NumberOf(text)
    case Some(n) => ApiClient.Num(n)
    case None => ApiClient.Str("NaN")
  }

  lemma TenText()
    ensures IntToString(ItemsPerPage) == "10"
  {
    assert NatToString(1) == "1";
    assert NatToString(10) == NatToString(1) + [DigitChar(0)];
  }

  /** The filter record `loadAds` sends: page, limit and sort always, then the
      search, statuses, category and prices only when set. */
  function LoadFilters(f: ListParams.Filters, page: int): ApiClient.Filters {
    Always(f, page) + Optional(f)
  }

  function Optional(f: ListParams.Filters): ApiClient.Filters {
    SearchEntry(f) + (StatusEntry(f) + Rest(f))
  }

  function Always(f: ListParams.Filters, page: int): ApiClient.Filters {
    [ ("page", ApiClient.One(ApiClient.Num(page))),
      ("limit", ApiClient.One(ApiClient.Num(ItemsPerPage))),
      ("sortBy", ApiClient.One(ApiClient.Str(SortByName(f.sortBy)))),
      ("sortOrder", ApiClient.One(ApiClient.Str(SortOrderName(f.sortOrder)))) ]
  }

  function SearchEntry(f: ListParams.Filters): ApiClient.Filters {
    if f.search != "" then [("search", ApiClient.One(ApiClient.Str(f.search)))] else []
  }

  function StatusEntry(f: ListParams.Filters): ApiClient.Filters {
    if f.statuses != [] then [("status", ApiClient.Many(StatusScalars(f.statuses)))] else []
  }

  function Rest(f: ListParams.Filters): ApiClient.Filters {
    (if f.categoryId != "" then [("categoryId", ApiClient.One(NumberValue(f.categoryId)))] else [])
    + (if f.minPrice != "" then [("minPrice", ApiClient.One(NumberValue(f.minPrice)))] else [])
    + (if f.maxPrice != "" then [("maxPrice", ApiClient.One(NumberValue(f.maxPrice)))] else [])
  }

  /** The page, limit and sort entries are always sent. */
  lemma AlwaysScalars(f: ListParams.Filters, page: int)
    ensures ApiClient.AllScalars(Always(f, page))
  {
    assert SortByName(f.sortBy) != "" && SortOrderName(f.sortOrder) != "";
  }

  lemma SearchScalars(f: ListParams.Filters)
    ensures ApiClient.AllScalars(SearchEntry(f))
  {
  }

  function StatusScalars(statuses: seq<AdStatus>): (r: seq<ApiClient.Scalar>)
    ensures |r| == |statuses|
    ensures forall i :: 0 <= i < |r| ==> r[i] == ApiClient.Str(StatusName(statuses[i]))
  {
    seq(|statuses|, i requires 0 <= i < |statuses| => ApiClient.Str(StatusName(statuses[i])))
  }

  /** The query of `loadAds` starts with the page, the page size and the sort,
      in that order. */
  lemma LoadQueryStartsWithPageAndSort(f: ListParams.Filters, page: int)
    ensures var q := ApiClient.BuildQuery(LoadFilters(f, page));
      && |q| >= 4
      && q[0] == ("page", IntToString(page))
      && q[1] == ("limit", "10")
      && q[2] == ("sortBy", SortByName(f.sortBy))
      && q[3] == ("sortOrder", SortOrderName(f.sortOrder))
  {
    var a := Always(f, page);
    var o := Optional(f);
    AlwaysScalars(f, page);
    ApiClient.QueryPrefix(a, o);
    var q := ApiClient.BuildQuery(a + o);
    assert q[0] == (a[0].0, ApiClient.ScalarText(a[0].1.v));
    assert q[1] == (a[1].0, ApiClient.ScalarText(a[1].1.v));
    assert q[2] == (a[2].0, ApiClient.ScalarText(a[2].1.v));
    assert q[3] == (a[3].0, ApiClient.ScalarText(a[3].1.v));
    assert ApiClient.ScalarText(ApiClient.Num(page)) == IntToString(page);
    assert ApiClient.ScalarText(ApiClient.Num(ItemsPerPage)) == "10" by { TenText(); }
  }

  /** With a status filter, `loadAds` sends one `status` pair per selected
      status, in order, right after the search. */
  lemma LoadQueryStatuses(f: ListParams.Filters, page: int)
    requires f.statuses != []
    ensures var q := ApiClient.BuildQuery(LoadFilters(f, page));
      var start := 4 + (if f.search != "" then 1 else 0);
      |q| >= start + |f.statuses|
      && forall i :: 0 <= i < |f.statuses| ==> q[start + i] == ("status", StatusName(f.statuses[i]))
  {
    var start := 4 + (if f.search != "" then 1 else 0);
    assert start == 4 + |SearchEntry(f)|;
    StatusSlice(f, page);
    StatusPairsAt(ApiClient.BuildQuery(LoadFilters(f, page)), start, f.statuses);
  }

  function StatusPairList(statuses: seq<AdStatus>): ApiClient.Query {
    ApiClient.EntryPairs("status", ApiClient.Many(StatusScalars(statuses)))
  }

  /** The status pairs sit right after the page, sort and search pairs. */
  lemma StatusSlice(f: ListParams.Filters, page: int)
    requires f.statuses != []
    ensures var q := ApiClient.BuildQuery(LoadFilters(f, page));
      var start := 4 + |SearchEntry(f)|;
      |q| >= start + |f.statuses| && q[start..start + |f.statuses|] == StatusPairList(f.statuses)
  {
    LoadFiltersWithStatuses(f, page);
    AlwaysScalars(f, page);
    SearchScalars(f);
    ApiClient.ArrayAfterPrefix(Always(f, page), SearchEntry(f), "status", StatusScalars(f.statuses), Rest(f));
  }

  /** Wherever the status pairs sit in a query, they name the statuses in
      order. */
  lemma StatusPairsAt(q: ApiClient.Query, start: nat, statuses: seq<AdStatus>)
    requires start + |statuses| <= |q| && q[start..start + |statuses|] == StatusPairList(statuses)
    ensures forall i :: 0 <= i < |statuses| ==> q[start + i] == ("status", StatusName(statuses[i]))
  {
    Seqs.SliceElements(q, start, StatusPairList(statuses));
  }

  lemma LoadFiltersWithStatuses(f: ListParams.Filters, page: int)
    requires f.statuses != []
    ensures LoadFilters(f, page) ==
      Always(f, page) + (SearchEntry(f) + ([("status", ApiClient.Many(StatusScalars(f.statuses)))] + Rest(f)))
  {
  }

  // ---------------------------------------------------------------- bulk actions

  /** Whether every call of `Promise.all` resolved. */
  datatype BulkOutcome = AllSucceeded | SomeFailed

  /** The body of each request of a bulk rejection. */
  const BulkRejectPayload: Moderation.Payload := Moderation.Payload(Moderation.OtherReason, "Массовое отклонение")

  /** The two bulk buttons: approve, or reject with a fixed reason. */
  datatype BulkKind = BulkApprove | BulkReject

  /** The moderation request one selected id receives. */
  datatype BulkCall = ApproveCall(id: int) | RejectCall(id: int, payload: Moderation.Payload)

  /** `handleBulkApprove` and `handleBulkReject`: the calls of one bulk
      action, one per selected id. A bulk rejection gives every id the reason
      "other" with the comment of a mass rejection; nothing is asked of the
      moderator. */
  function BulkCalls(kind: BulkKind, selected: set<int>): (calls: set<BulkCall>)
    ensures forall c :: c in calls ==> c.id in selected
    ensures kind == BulkApprove ==> forall id :: id in selected <==> ApproveCall(id) in calls
    ensures kind == BulkApprove ==> forall c :: c in calls ==> c.ApproveCall?
    ensures kind == BulkReject ==> forall id :: id in selected <==> RejectCall(id, BulkRejectPayload) in calls
    ensures kind == BulkReject ==> forall c :: c in calls ==> c.RejectCall? && c.payload == BulkRejectPayload
  {
    match kind
    case BulkApprove => set id | id in selected :: ApproveCall(id)
    case BulkReject => set id | id in selected :: RejectCall(id, BulkRejectPayload)
  }

  /** `handleBulkAction`: with nothing selected nothing happens and no call is
      made. Otherwise one call per selected id is made; if all succeed the
      selection is cleared and the list reloaded, if any fails the selection
      is kept and there is no reload. The bulk flag ends false. Returns the
      new state and the calls made. */
  function BulkAction(st: ListState, kind: BulkKind, outcome: BulkOutcome, pageParam: Option<string>, reload: LoadOutcome): (res: (ListState, set<BulkCall>))
    ensures st.selected == {} ==> res == (st, {})
    ensures st.selected != {} ==> !res.0.bulkLoading
    ensures forall c :: c in res.1 ==> c.id in st.selected
    ensures kind == BulkApprove ==> forall id :: id in st.selected <==> ApproveCall(id) in res.1
    ensures kind == BulkReject ==> forall id :: id in st.selected <==> RejectCall(id, BulkRejectPayload) in res.1
    ensures kind == BulkReject ==> forall c :: c in res.1 ==> c.RejectCall? && c.payload == BulkRejectPayload
    ensures st.selected != {} && outcome == AllSucceeded ==>
      res.0 == LoadAds(st.(selected := {}), pageParam, reload).(bulkLoading := false)
    ensures st.selected != {} && outcome == SomeFailed ==> res.0 == st.(bulkLoading := false)
  {
    if st.selected == {} then (st, {})
    else
      var calls := BulkCalls(kind, st.selected);
      match outcome
      case AllSucceeded => (LoadAds(st.(selected := {}), pageParam, reload).(bulkLoading := false), calls)
      case SomeFailed => (st.(bulkLoading := false), calls)
  }

  /** The outcome rule in terms of the selection: it is cleared exactly when
      there was one and every call succeeded; only then is the list
      reloaded. */
  lemma BulkSelectionRule(st: ListState, kind: BulkKind, outcome: BulkOutcome, pageParam: Option<string>, reload: LoadOutcome)
    ensures var r := BulkAction(st, kind, outcome, pageParam, reload).0;
      && (r.selected == {} <==> st.selected == {} || outcome == AllSucceeded)
      && (r.selected != {} ==> r.selected == st.selected && r.ads == st.ads)
  {
  }

  // ---------------------------------------------------------------- page change and reset

  /** `handlePageChange`: write the page to the URL and clear the selection. */
  function PageChange(p: ListParams.Params, st: ListState, page: int): (res: (ListParams.Params, ListState))
    ensures res.1 == st.(selected := {})
    ensures page != 0 ==> ListParams.DecodePage(ListParams.Get(res.0, "page")) == page
    ensures forall k :: k != "page" ==> ListParams.Get(res.0, k) == ListParams.Get(p, k)
  {
    var q := ListParams.Merge(p, ListParams.PageChange(page));
    ListParams.MergeOne(p, ListParams.PageChange(page)[0]);
    assert ListParams.PageChange(page) == [ListParams.PageChange(page)[0]];
    assert page != 0 ==> ListParams.DecodePage(ListParams.Get(q, "page")) == page by {
      if page != 0 { ListParams.PageChangeReadBack(p, page); }
    }
    (q, st.(selected := {}))
  }

  /** After a page change the next load shows that page, with nothing
      selected. */
  lemma PageChangeThenLoad(p: ListParams.Params, st: ListState, page: int, outcome: LoadOutcome)
    requires page != 0
    ensures var (q, s) := PageChange(p, st, page);
      var r := LoadAds(s, ListParams.Get(q, "page"), outcome);
      r.currentPage == page && r.selected == {}
  {
  }

  /** `handleResetFilters`: default filters, empty URL, no selection. */
  function Reset(st: ListState): (res: (ListParams.Filters, ListParams.Params, ListState))
    ensures res.0 == ListParams.InitialFilters(res.1)
    ensures res.1 == [] && res.2 == st.(selected := {})
  {
    ListParams.ResetMatchesEmptyUrl();
    (ListParams.ResetFilters, [], st.(selected := {}))
  }
}
