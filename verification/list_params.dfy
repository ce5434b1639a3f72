/** The list page's URL state (`AddsList.tsx`): the query parameters as an
    ordered list of name/value pairs with the `URLSearchParams` operations
    the page uses, how the filters, the sort and the page are decoded from
    them, and the parameter updates each filter, sort and page handler
    writes back. */
module ListParams {
  import opened Options
  import opened Text
  import opened Domain

  // ---------------------------------------------------------------- URLSearchParams

  type Params = seq<(string, string)>

  /** `params.get(key)`: the value of the first pair named `key`. */
  function Get(p: Params, key: string): (r: Option<string>)
    ensures r.None? <==> forall i :: 0 <= i < |p| ==> p[i].0 != key
    ensures r.Some? ==> exists i :: 0 <= i < |p| && p[i] == (key, r.value) && forall j :: 0 <= j < i ==> p[j].0 != key
    decreases |p|
  {
    if p == [] then None
    else if p[0].0 == key then Some(p[0].1)
    else
      assert forall i :: 1 <= i < |p| ==> p[i] == p[1..][i - 1];
      var r := Get(p[1..], key);
      assert r.Some? ==> exists i :: 0 <= i < |p| && p[i] == (key, r.value) && forall j :: 0 <= j < i ==> p[j].0 != key by {
        if r.Some? {
          var i :| 0 <= i < |p[1..]| && p[1..][i] == (key, r.value) && forall j :: 0 <= j < i ==> p[1..][j].0 != key;
          assert p[i + 1] == (key, r.value);
          assert forall j :: 0 <= j < i + 1 ==> p[j].0 != key by {
            forall j | 0 <= j < i + 1 ensures p[j].0 != key {
              if j > 0 { assert p[j] == p[1..][j - 1]; }
            }
          }
        }
      }
      r
  }

  /** `params.delete(key)`: every pair named `key` goes, the rest keep their
      order. */
  function Delete(p: Params, key: string): (r: Params)
    ensures forall i :: 0 <= i < |r| ==> r[i].0 != key
    ensures forall k :: k != key ==> Get(r, k) == Get(p, k)
    ensures |r| <= |p|
    decreases |p|
  {
    if p == [] then []
    else if p[0].0 == key then Delete(p[1..], key)
    else [p[0]] + Delete(p[1..], key)
  }

  /** `params.set(key, value)`: the first pair named `key` takes the value and
      any later ones go; with none, the pair is appended. */
  function Set(p: Params, key: string, value: string): (r: Params)
    ensures Get(r, key) == Some(value)
    ensures forall k :: k != key ==> Get(r, k) == Get(p, k)
    ensures (exists i :: 0 <= i < |p| && p[i].0 == key) ==> |r| <= |p|
    decreases |p|
  {
    if p == [] then [(key, value)]
    else if p[0].0 == key then
      var rest := Delete(p[1..], key);
      GetConsAll((key, value), rest);
      GetConsAll(p[0], p[1..]);
      [(key, value)] + rest
    else
      var rest := Set(p[1..], key, value);
      assert (exists i :: 0 <= i < |p| && p[i].0 == key) ==> exists i :: 0 <= i < |p[1..]| && p[1..][i].0 == key by {
        if exists i :: 0 <= i < |p| && p[i].0 == key {
          var i :| 0 <= i < |p| && p[i].0 == key;
          assert p[1..][i - 1].0 == key;
        }
      }
      GetConsAll(p[0], rest);
      GetConsAll(p[0], p[1..]);
      [p[0]] + rest
  }

  /** Reading a list that starts with a pair: that pair's value for its own
      name, and the rest's for every other name. */
  lemma GetConsAll(x: (string, string), rest: Params)
    ensures forall k :: Get([x] + rest, k) == if x.0 == k then Some(x.1) else Get(rest, k)
  {
    forall k ensures Get([x] + rest, k) == if x.0 == k then Some(x.1) else Get(rest, k) {
      assert ([x] + rest)[0] == x && ([x] + rest)[1..] == rest;
    }
  }

  /** One entry of an update record: `null` is `None`. */
  type Update = (string, Option<string>)

  /** The value an update leaves behind: `null` and `''` delete the key. */
  function Effective(v: Option<string>): (r: Option<string>)
    ensures r.Some? ==> r.value != ""
    ensures v.Some? && v.value != "" ==> r == v
  {
    if v.None? || v.value == "" then None else v
  }

  function ApplyUpdate(p: Params, u: Update): (r: Params)
    ensures Get(r, u.0) == Effective(u.1)
    ensures forall k :: k != u.0 ==> Get(r, k) == Get(p, k)
  {
    match Effective(u.1)
    case None => Delete(p, u.0)
    case Some(v) => Set(p, u.0, v)
  }

  /** `updateSearchParams(updates)`: the updates applied in order. */
  function Merge(p: Params, updates: seq<Update>): Params
    decreases |updates|
  {
    if updates == [] then p else Merge(ApplyUpdate(p, updates[0]), updates[1..])
  }

  predicate DistinctKeys(updates: seq<Update>) {
    forall i, j :: 0 <= i < j < |updates| ==> updates[i].0 != updates[j].0
  }

  /** After a merge, every updated key reads back as its update (absent for
      `null` and `''`), and every other key reads as before. The keys of an
      update record are distinct, being the keys of an object. */
  lemma {:induction false} MergeReadBack(p: Params, updates: seq<Update>, key: string)
    requires DistinctKeys(updates)
    ensures forall i :: 0 <= i < |updates| && updates[i].0 == key ==> Get(Merge(p, updates), key) == Effective(updates[i].1)
    ensures (forall i :: 0 <= i < |updates| ==> updates[i].0 != key) ==> Get(Merge(p, updates), key) == Get(p, key)
    decreases |updates|
  {
    if updates != [] {
      var q := ApplyUpdate(p, updates[0]);
      var tail := updates[1..];
      assert DistinctKeys(tail) by {
        forall i, j | 0 <= i < j < |tail| ensures tail[i].0 != tail[j].0 {
          assert tail[i] == updates[i + 1] && tail[j] == updates[j + 1];
        }
      }
      MergeReadBack(q, tail, key);
      assert forall i :: 1 <= i < |updates| ==> updates[i] == tail[i - 1];
      if updates[0].0 == key {
        assert forall i :: 0 <= i < |tail| ==> tail[i].0 != key by {
          forall i | 0 <= i < |tail| ensures tail[i].0 != key {
            assert tail[i] == updates[i + 1];
          }
        }
      }
    }
  }

  /** A single-update merge reads back like the update itself. */
  lemma MergeOne(p: Params, u: Update)
    ensures Merge(p, [u]) == ApplyUpdate(p, u)
  {
    assert [u][1..] == [];
  }

  // ---------------------------------------------------------------- decoding

  /** `parseStatusesFromParams`: no parameter or an empty one gives no
      statuses; otherwise the comma-separated pieces that name a status, in
      their order. */
  function ParseStatuses(param: Option<string>): (r: seq<AdStatus>)
    ensures param.None? || param == Some("") ==> r == []
    ensures param.Some? && param.value != "" ==>
      forall s :: s in r <==> StatusName(s) in Split(param.value, ',')
  {
    if param.None? || param.value == "" then []
    else
      var parts := Split(param.value, ',');
      assert forall s :: StatusName(s) in parts ==> s in KnownStatuses(parts) by {
        forall s | StatusName(s) in parts ensures s in KnownStatuses(parts) {
          ParseStatusName(s);
          var i :| 0 <= i < |parts| && parts[i] == StatusName(s);
        }
      }
      KnownStatuses(parts)
  }

  /** `.filter(isValidStatus)`, mapping each kept piece to its status. */
  function KnownStatuses(parts: seq<string>): (r: seq<AdStatus>)
    ensures |r| <= |parts|
    ensures forall i :: 0 <= i < |r| ==> StatusName(r[i]) in parts
    ensures forall i :: 0 <= i < |parts| && ParseStatus(parts[i]).Some? ==> ParseStatus(parts[i]).value in r
    decreases |parts|
  {
    if parts == [] then []
    else
      var rest := KnownStatuses(parts[1..]);
      assert forall x :: x in parts[1..] ==> x in parts;
      assert forall i :: 1 <= i < |parts| ==> parts[i] == parts[1..][i - 1];
      match ParseStatus(parts[0])
      case Some(s) => [s] + rest
      case None => rest
  }

  /** The filter works piece by piece: the statuses kept from two runs of
      pieces are those kept from the first followed by those kept from the
      second, so order and repetitions are preserved. */
  lemma {:induction false} KnownStatusesAppend(a: seq<string>, b: seq<string>)
    ensures KnownStatuses(a + b) == KnownStatuses(a) + KnownStatuses(b)
    decreases |a|
  {
    if a == [] {
      assert a + b == b;
    } else {
      assert (a + b)[0] == a[0];
      assert (a + b)[1..] == a[1..] + b;
      KnownStatusesAppend(a[1..], b);
    }
  }

  /** One piece is kept, as its status, exactly when it names a status. */
  lemma KnownStatusesOne(piece: string)
    ensures KnownStatuses([piece]) == if ParseStatus(piece).Some? then [ParseStatus(piece).value] else []
  {
    assert [piece][1..] == [];
  }

  /** A shared or hand-edited URL: `status=draft,foo,pending` selects the
      draft and pending statuses, in that order; the unknown piece is
      dropped. */
  lemma ParseStatusesExample()
    ensures ParseStatuses(Some("draft,foo,pending")) == [Draft, Pending]
  {
    ExampleSplit();
    ExampleKnown();
  }

  lemma ExampleSplit()
    ensures Split("draft,foo,pending", ',') == ["draft", "foo", "pending"]
  {
    ExamplePieces();
    SplitJoin(["draft", "foo", "pending"], ',');
  }

  lemma ExampleKnown()
    ensures KnownStatuses(["draft", "foo", "pending"]) == [Draft, Pending]
  {
    var d, f, p := ["draft"], ["foo"], ["pending"];
    calc {
      KnownStatuses(["draft", "foo", "pending"]);
      { assert ["draft", "foo", "pending"] == d + (f + p); }
      KnownStatuses(d + (f + p));
      { KnownStatusesAppend(d, f + p); KnownStatusesAppend(f, p); }
      KnownStatuses(d) + (KnownStatuses(f) + KnownStatuses(p));
      { KnownStatusesOne("draft"); KnownStatusesOne("foo"); KnownStatusesOne("pending"); }
      [Draft] + ([] + [Pending]);
    }
  }

  lemma ExamplePieces()
    ensures Join(["draft", "foo", "pending"], ',') == "draft,foo,pending"
    ensures forall i :: 0 <= i < 3 ==> ',' !in ["draft", "foo", "pending"][i]
  {
    var parts := ["draft", "foo", "pending"];
    assert parts[1..] == ["foo", "pending"];
    assert parts[1..][1..] == ["pending"];
  }

  function StatusNames(statuses: seq<AdStatus>): (names: seq<string>)
    ensures |names| == |statuses|
    ensures forall i :: 0 <= i < |names| ==> names[i] == StatusName(statuses[i])
  {
    seq(|statuses|, i requires 0 <= i < |statuses| => StatusName(statuses[i]))
  }

  /** The `status` parameter written for a status list: the names joined by
      commas, or nothing for an empty list. */
  function StatusParam(statuses: seq<AdStatus>): (r: Option<string>)
    ensures r.None? <==> statuses == []
    ensures r.Some? ==> r.value != ""
  {
    if statuses == [] then None
    else
      var joined := Join(StatusNames(statuses), ',');
      assert joined != "" by { JoinNonEmpty(StatusNames(statuses), ','); }
      Some(joined)
  }

  lemma JoinNonEmpty(names: seq<string>, sep: char)
    requires |names| >= 1 && forall i :: 0 <= i < |names| ==> names[i] != ""
    ensures Join(names, sep) != ""
  {
    if |names| > 1 {
      assert |Join(names, sep)| >= |names[0]|;
    }
  }

  /** Every piece is kept as its own status, so decoding the names gives the
      statuses back. */
  lemma {:induction false} KnownStatusNames(statuses: seq<AdStatus>)
    ensures KnownStatuses(StatusNames(statuses)) == statuses
    decreases |statuses|
  {
    if statuses != [] {
      var head, names := StatusName(statuses[0]), StatusNames(statuses);
      assert names == [head] + StatusNames(statuses[1..]);
      calc {
        KnownStatuses(names);
        { KnownStatusesAppend([head], StatusNames(statuses[1..])); }
        KnownStatuses([head]) + KnownStatuses(StatusNames(statuses[1..]));
        { KnownStatusesOne(head); ParseStatusName(statuses[0]); KnownStatusNames(statuses[1..]); }
        [statuses[0]] + statuses[1..];
      }
      assert [statuses[0]] + statuses[1..] == statuses;
    }
  }

  /** Decoding the written `status` parameter gives the status list back, for
      every list of statuses (duplicates and order included). */
  lemma StatusParamRoundTrip(statuses: seq<AdStatus>)
    ensures ParseStatuses(StatusParam(statuses)) == statuses
  {
    if statuses != [] {
      var names := StatusNames(statuses);
      forall i | 0 <= i < |names| ensures ',' !in names[i] {
        StatusNameHasNoComma(statuses[i]);
      }
      SplitJoin(names, ',');
      KnownStatusNames(statuses);
    }
  }

  /** `parseSortBy`: a valid field name, else `createdAt`. */
  function ParseSortBy(param: Option<string>): (r: SortBy)
    ensures r != CreatedAt ==> param == Some(SortByName(r))
  {
    if param == Some("price") then Price
    else if param == Some("priority") then Priority
    else CreatedAt
  }

  /** `parseSortOrder`: `asc` or `desc`, else `desc`. */
  function ParseSortOrder(param: Option<string>): (r: SortOrder)
    ensures r == Asc <==> param == Some("asc")
  {
    if param == Some("asc") then Asc else Desc
  }

  lemma SortRoundTrip(f: SortBy, o: SortOrder)
    ensures ParseSortBy(Some(SortByName(f))) == f
    ensures ParseSortOrder(Some(SortOrderName(o))) == o
  {
  }

  /** `Number(params.get('page')) || 1`: a missing, blank, zero or
      non-numeric page is page 1. A negative number is kept as it is. */
  function DecodePage(param: Option<string>): (page: int)
    ensures page != 0
    ensures param.None? ==> page == 1
    ensures param.Some? && NumberOf(param.value).Some? && NumberOf(param.value).value != 0 ==>
      page == NumberOf(param.value).value
    ensures param.Some? && (NumberOf(param.value).None? || NumberOf(param.value) == Some(0)) ==> page == 1
  {
    match param
    case None => 1
    case Some(s) =>
      match NumberOf(s)
      case None => 1
      case Some(n) => if n == 0 then 1 else n
  }

  /** The page written by a page change reads back as that page. */
  lemma DecodePageRoundTrip(page: int)
    requires page != 0
    ensures DecodePage(Some(IntToString(page))) == page
  {
    NumberOfIntToString(page);
  }

  /** The filters as the page holds them. The category is kept as the text it
      was chosen as; it is converted with `Number` when requests are built. */
  datatype Filters = Filters(
    search: string,
    statuses: seq<AdStatus>,
    categoryId: string,
    minPrice: string,
    maxPrice: string,
    sortBy: SortBy,
    sortOrder: SortOrder)

  /** The initial filter state read from the URL. */
  function InitialFilters(p: Params): (f: Filters)
    ensures f.statuses == ParseStatuses(Get(p, "status"))
    ensures f.sortBy == ParseSortBy(Get(p, "sortBy")) && f.sortOrder == ParseSortOrder(Get(p, "sortOrder"))
    ensures f.search == Get(p, "search").GetOr("")
    ensures f.categoryId == Get(p, "categoryId").GetOr("")
    ensures f.minPrice == Get(p, "minPrice").GetOr("") && f.maxPrice == Get(p, "maxPrice").GetOr("")
  {
    Filters(
      Get(p, "search").GetOr(""),
      ParseStatuses(Get(p, "status")),
      Get(p, "categoryId").GetOr(""),
      Get(p, "minPrice").GetOr(""),
      Get(p, "maxPrice").GetOr(""),
      ParseSortBy(Get(p, "sortBy")),
      ParseSortOrder(Get(p, "sortOrder")))
  }

  /** The state `handleResetFilters` sets. */
  const ResetFilters: Filters := Filters("", [], "", "", "", CreatedAt, Desc)

  /** Resetting empties the URL, and the reset state is exactly what an empty
      URL decodes to. */
  lemma ResetMatchesEmptyUrl()
    ensures InitialFilters([]) == ResetFilters
  {
  }

  // ---------------------------------------------------------------- handlers

  /** Every filter and sort change goes back to page 1. */
  const PageOne: Update := ("page", Some("1"))

  /** `value || null`. */
  function OrNull(value: string): (r: Option<string>)
    ensures r.None? <==> value == ""
  {
    if value == "" then None else Some(value)
  }

  /** An update record `{ key: value || null, page: '1' }` as the text
      filters write it: the key reads back as the text typed (a missing key
      reads as `''`), then the page goes back to 1. */
  predicate WritesText(updates: seq<Update>, key: string, value: string) {
    && |updates| == 2 && updates[1] == PageOne
    && updates[0].0 == key && Effective(updates[0].1).GetOr("") == value
  }

  /** `handleSearchChange`: the state takes the typed search and nothing else
      in it moves; the URL is given the search so that it reads back as
      typed, and page 1. */
  function SearchChange(f: Filters, value: string): (res: (Filters, seq<Update>))
    ensures res.0.search == value && res.0.(search := f.search) == f
    ensures WritesText(res.1, "search", value)
  {
    (f.(search := value), [("search", OrNull(value)), PageOne])
  }

  /** `statuses.includes(s) ? statuses.filter(x => x !== s) : [...statuses, s]`. */
  function ToggleStatus(statuses: seq<AdStatus>, s: AdStatus): (r: seq<AdStatus>)
    ensures s in r <==> s !in statuses
    ensures forall t :: t != s ==> (t in r <==> t in statuses)
    ensures s !in statuses ==> r == statuses + [s]
  {
    if s in statuses then Without(statuses, s) else statuses + [s]
  }

  /** `statuses.filter(x => x !== s)`. */
  function Without(statuses: seq<AdStatus>, s: AdStatus): (r: seq<AdStatus>)
    ensures s !in r
    ensures forall t :: t != s ==> (t in r <==> t in statuses)
    ensures s !in statuses ==> r == statuses
    decreases |statuses|
  {
    if statuses == [] then []
    else
      var rest := Without(statuses[1..], s);
      assert statuses == [statuses[0]] + statuses[1..];
      if statuses[0] == s then rest else [statuses[0]] + rest
  }

  /** `filter` works status by status: removing from two runs of statuses is
      removing from each, so the kept statuses stay in order with their
      repetitions. */
  lemma {:induction false} WithoutAppend(a: seq<AdStatus>, b: seq<AdStatus>, s: AdStatus)
    ensures Without(a + b, s) == Without(a, s) + Without(b, s)
    decreases |a|
  {
    if a == [] {
      assert a + b == b;
    } else {
      assert (a + b)[0] == a[0];
      assert (a + b)[1..] == a[1..] + b;
      WithoutAppend(a[1..], b, s);
    }
  }

  /** One status is dropped exactly when it is the one removed. */
  lemma WithoutOne(t: AdStatus, s: AdStatus)
    ensures Without([t], s) == if t == s then [] else [t]
  {
    assert [t][1..] == [];
  }

  /** Toggling twice restores the selected set; when the status was not
      selected it restores the very list. */
  lemma ToggleTwice(statuses: seq<AdStatus>, s: AdStatus)
    ensures forall t :: t in ToggleStatus(ToggleStatus(statuses, s), s) <==> t in statuses
    ensures s !in statuses ==> ToggleStatus(ToggleStatus(statuses, s), s) == statuses
  {
    if s !in statuses {
      WithoutAppended(statuses, s);
    }
  }

  lemma {:induction false} WithoutAppended(statuses: seq<AdStatus>, s: AdStatus)
    requires s !in statuses
    ensures Without(statuses + [s], s) == statuses
    decreases |statuses|
  {
    if statuses == [] {
      assert ([] + [s])[1..] == [];
    } else {
      assert (statuses + [s])[1..] == statuses[1..] + [s];
      WithoutAppended(statuses[1..], s);
    }
  }

  /** `handleStatusToggle`: the status flips in the selection and nothing
      else in the state moves; the new list is written as the `status`
      parameter (deleted when the list is empty) so that it decodes back to
      exactly that list, and the page goes back to 1. */
  function StatusToggle(f: Filters, s: AdStatus): (res: (Filters, seq<Update>))
    ensures res.0.(statuses := f.statuses) == f
    ensures s in res.0.statuses <==> s !in f.statuses
    ensures forall t :: t != s ==> (t in res.0.statuses <==> t in f.statuses)
    ensures |res.1| == 2 && res.1[1] == PageOne && res.1[0].0 == "status"
    ensures ParseStatuses(Effective(res.1[0].1)) == res.0.statuses
  {
    var statuses := ToggleStatus(f.statuses, s);
    StatusParamRoundTrip(statuses);
    (f.(statuses := statuses), [("status", StatusParam(statuses)), PageOne])
  }

  /** `handleCategoryChange`: the state takes the chosen category and
      nothing else moves; the URL is given it so that it reads back, and
      page 1. */
  function CategoryChange(f: Filters, value: string): (res: (Filters, seq<Update>))
    ensures res.0.categoryId == value && res.0.(categoryId := f.categoryId) == f
    ensures WritesText(res.1, "categoryId", value)
  {
    (f.(categoryId := value), [("categoryId", OrNull(value)), PageOne])
  }

  datatype PriceBound = Min | Max

  /** `handlePriceChange`: the chosen bound takes the typed text and
      nothing else in the state moves; the URL is given that bound so that it
      reads back, and page 1. */
  function PriceChange(f: Filters, bound: PriceBound, value: string): (res: (Filters, seq<Update>))
    ensures bound == Min ==> res.0.minPrice == value && res.0.(minPrice := f.minPrice) == f
    ensures bound == Min ==> WritesText(res.1, "minPrice", value)
    ensures bound == Max ==> res.0.maxPrice == value && res.0.(maxPrice := f.maxPrice) == f
    ensures bound == Max ==> WritesText(res.1, "maxPrice", value)
  {
    match bound
    case Min => (f.(minPrice := value), [("minPrice", OrNull(value)), PageOne])
    case Max => (f.(maxPrice := value), [("maxPrice", OrNull(value)), PageOne])
  }

  /** The order a click on a sort field selects: ascending only when the
      active field is clicked while descending. */
  function NextSortOrder(current: SortBy, order: SortOrder, field: SortBy): (r: SortOrder)
    ensures r == Asc <==> current == field && order == Desc
  {
    if current == field && order == Desc then Asc else Desc
  }

  /** `handleSortChange`: the clicked field becomes the sort field, the
      order turns ascending only on a second click of a descending field,
      and nothing else in the state moves; both are written to the URL so
      that they decode back, and the page goes back to 1. */
  function SortChange(f: Filters, field: SortBy): (res: (Filters, seq<Update>))
    ensures res.0.sortBy == field
    ensures res.0.sortOrder == Asc <==> f.sortBy == field && f.sortOrder == Desc
    ensures res.0.(sortBy := f.sortBy, sortOrder := f.sortOrder) == f
    ensures |res.1| == 3 && res.1[2] == PageOne && res.1[0].0 == "sortBy" && res.1[1].0 == "sortOrder"
    ensures ParseSortBy(Effective(res.1[0].1)) == field && ParseSortOrder(Effective(res.1[1].1)) == res.0.sortOrder
  {
    var order := NextSortOrder(f.sortBy, f.sortOrder, field);
    SortRoundTrip(field, order);
    (f.(sortBy := field, sortOrder := order),
     [("sortBy", Some(SortByName(field))), ("sortOrder", Some(SortOrderName(order))), PageOne])
  }

  /** Clicking the same field twice from descending goes ascending then back
      to descending. */
  lemma SortClickTwice(f: Filters)
    requires f.sortOrder == Desc
    ensures SortChange(f, f.sortBy).0.sortOrder == Asc
    ensures SortChange(SortChange(f, f.sortBy).0, f.sortBy).0.sortOrder == Desc
  {
  }

  /** The user's filter and sort changes. */
  datatype Change =
    | Search(value: string)
    | ToggleStatusOf(status: AdStatus)
    | Category(value: string)
    | PriceOf(bound: PriceBound, value: string)
    | SortOn(field: SortBy)

  function Handle(f: Filters, c: Change): (Filters, seq<Update>) {
    match c
    case Search(v) => SearchChange(f, v)
    case ToggleStatusOf(s) => StatusToggle(f, s)
    case Category(v) => CategoryChange(f, v)
    case PriceOf(b, v) => PriceChange(f, b, v)
    case SortOn(field) => SortChange(f, field)
  }

  lemma HandleDistinctKeys(f: Filters, c: Change)
    ensures DistinctKeys(Handle(f, c).1)
  {
  }

  /** A handler writes only parameters of the list page. */
  lemma HandleWritesPageKeys(f: Filters, c: Change)
    ensures forall i :: 0 <= i < |Handle(f, c).1| ==> PageKey(Handle(f, c).1[i].0)
  {
    match c
    case Search(v) =>
    case ToggleStatusOf(s) =>
    case Category(v) =>
    case PriceOf(b, v) =>
    case SortOn(field) =>
  }

  /** Every filter and sort handler resets the URL to page 1. */
  lemma HandlersResetPage(p: Params, f: Filters, c: Change)
    ensures Get(Merge(p, Handle(f, c).1), "page") == Some("1")
  {
    var updates := Handle(f, c).1;
    HandleDistinctKeys(f, c);
    MergeReadBack(p, updates, "page");
    assert updates[|updates| - 1] == PageOne;
  }

  /** The parameters the list page reads or writes. */
  predicate PageKey(key: string) {
    key in {"search", "status", "categoryId", "minPrice", "maxPrice", "sortBy", "sortOrder", "page"}
  }

  /** The URL decodes to exactly the filter state the page holds, so a
      reload restores it. */
  predicate InSync(q: Params, g: Filters) {
    InitialFilters(q) == g
  }

  /** Field by field agreement is agreement. */
  lemma DecodesTo(q: Params, g: Filters)
    requires Get(q, "search").GetOr("") == g.search
    requires ParseStatuses(Get(q, "status")) == g.statuses
    requires Get(q, "categoryId").GetOr("") == g.categoryId
    requires Get(q, "minPrice").GetOr("") == g.minPrice
    requires Get(q, "maxPrice").GetOr("") == g.maxPrice
    requires ParseSortBy(Get(q, "sortBy")) == g.sortBy
    requires ParseSortOrder(Get(q, "sortOrder")) == g.sortOrder
    ensures InSync(q, g)
  {
  }

  /** The value one of a batch of updates leaves behind. */
  lemma ReadBackAt(p: Params, updates: seq<Update>, i: nat)
    requires DistinctKeys(updates) && i < |updates|
    ensures Get(Merge(p, updates), updates[i].0) == Effective(updates[i].1)
  {
    MergeReadBack(p, updates, updates[i].0);
  }

  /** A key no update names keeps its value. */
  lemma ReadBackUntouched(p: Params, updates: seq<Update>, key: string)
    requires DistinctKeys(updates)
    requires forall i :: 0 <= i < |updates| ==> updates[i].0 != key
    ensures Get(Merge(p, updates), key) == Get(p, key)
  {
    MergeReadBack(p, updates, key);
  }

  /** What a handler's `{ key: value, page: '1' }` leaves behind at the key:
      its effective value. */
  lemma KeyAndPage(p: Params, key: string, v: Option<string>)
    requires key != "page"
    ensures Get(Merge(p, [(key, v), PageOne]), key) == Effective(v)
  {
    ReadBackAt(p, [(key, v), PageOne], 0);
  }

  /** Every key but the two reads as before. */
  lemma KeepsOther(p: Params, key: string, v: Option<string>, other: string)
    requires key != "page" && other != key && other != "page"
    ensures Get(Merge(p, [(key, v), PageOne]), other) == Get(p, other)
  {
    var updates := [(key, v), PageOne];
    assert updates[0].0 == key && updates[1].0 == "page";
    ReadBackUntouched(p, updates, other);
  }

  /** `value || null` reads back as `value`, with a missing key read as `''`. */
  lemma OrNullReadsBack(value: string)
    ensures Effective(OrNull(value)).GetOr("") == value
  {
  }

  /** What `{ key: value, page: '1' }` leaves behind at each key the page
      reads: the key its effective value, every other key what it held. */
  lemma OneKeyReadsBack(p: Params, key: string, v: Option<string>)
    requires key != "page"
    ensures var q := Merge(p, [(key, v), PageOne]);
      && Get(q, key) == Effective(v)
      && (key != "search" ==> Get(q, "search") == Get(p, "search"))
      && (key != "status" ==> Get(q, "status") == Get(p, "status"))
      && (key != "categoryId" ==> Get(q, "categoryId") == Get(p, "categoryId"))
      && (key != "minPrice" ==> Get(q, "minPrice") == Get(p, "minPrice"))
      && (key != "maxPrice" ==> Get(q, "maxPrice") == Get(p, "maxPrice"))
      && (key != "sortBy" ==> Get(q, "sortBy") == Get(p, "sortBy"))
      && (key != "sortOrder" ==> Get(q, "sortOrder") == Get(p, "sortOrder"))
  {
    KeyAndPage(p, key, v);
    if key != "search" { KeepsOther(p, key, v, "search"); }
    if key != "status" { KeepsOther(p, key, v, "status"); }
    if key != "categoryId" { KeepsOther(p, key, v, "categoryId"); }
    if key != "minPrice" { KeepsOther(p, key, v, "minPrice"); }
    if key != "maxPrice" { KeepsOther(p, key, v, "maxPrice"); }
    if key != "sortBy" { KeepsOther(p, key, v, "sortBy"); }
    if key != "sortOrder" { KeepsOther(p, key, v, "sortOrder"); }
  }

  /** A URL that moved only at `search` decodes to the state with only the
      search changed. */
  lemma SearchMoved(p: Params, q: Params, f: Filters, value: string)
    requires InSync(p, f)
    requires Get(q, "search").GetOr("") == value
    requires Get(q, "status") == Get(p, "status")
    requires Get(q, "categoryId") == Get(p, "categoryId")
    requires Get(q, "minPrice") == Get(p, "minPrice") && Get(q, "maxPrice") == Get(p, "maxPrice")
    requires Get(q, "sortBy") == Get(p, "sortBy") && Get(q, "sortOrder") == Get(p, "sortOrder")
    ensures InSync(q, f.(search := value))
  {
    DecodesTo(q, f.(search := value));
  }

  /** The same for `categoryId`. */
  lemma CategoryMoved(p: Params, q: Params, f: Filters, value: string)
    requires InSync(p, f)
    requires Get(q, "categoryId").GetOr("") == value
    requires Get(q, "search") == Get(p, "search") && Get(q, "status") == Get(p, "status")
    requires Get(q, "minPrice") == Get(p, "minPrice") && Get(q, "maxPrice") == Get(p, "maxPrice")
    requires Get(q, "sortBy") == Get(p, "sortBy") && Get(q, "sortOrder") == Get(p, "sortOrder")
    ensures InSync(q, f.(categoryId := value))
  {
    DecodesTo(q, f.(categoryId := value));
  }

  /** The same for `minPrice`. */
  lemma MinPriceMoved(p: Params, q: Params, f: Filters, value: string)
    requires InSync(p, f)
    requires Get(q, "minPrice").GetOr("") == value
    requires Get(q, "search") == Get(p, "search") && Get(q, "status") == Get(p, "status")
    requires Get(q, "categoryId") == Get(p, "categoryId") && Get(q, "maxPrice") == Get(p, "maxPrice")
    requires Get(q, "sortBy") == Get(p, "sortBy") && Get(q, "sortOrder") == Get(p, "sortOrder")
    ensures InSync(q, f.(minPrice := value))
  {
    DecodesTo(q, f.(minPrice := value));
  }

  /** The same for `maxPrice`. */
  lemma MaxPriceMoved(p: Params, q: Params, f: Filters, value: string)
    requires InSync(p, f)
    requires Get(q, "maxPrice").GetOr("") == value
    requires Get(q, "search") == Get(p, "search") && Get(q, "status") == Get(p, "status")
    requires Get(q, "categoryId") == Get(p, "categoryId") && Get(q, "minPrice") == Get(p, "minPrice")
    requires Get(q, "sortBy") == Get(p, "sortBy") && Get(q, "sortOrder") == Get(p, "sortOrder")
    ensures InSync(q, f.(maxPrice := value))
  {
    DecodesTo(q, f.(maxPrice := value));
  }

  /** The same for `status`, read back as a status list. */
  lemma StatusMoved(p: Params, q: Params, f: Filters, statuses: seq<AdStatus>)
    requires InSync(p, f)
    requires ParseStatuses(Get(q, "status")) == statuses
    requires Get(q, "search") == Get(p, "search") && Get(q, "categoryId") == Get(p, "categoryId")
    requires Get(q, "minPrice") == Get(p, "minPrice") && Get(q, "maxPrice") == Get(p, "maxPrice")
    requires Get(q, "sortBy") == Get(p, "sortBy") && Get(q, "sortOrder") == Get(p, "sortOrder")
    ensures InSync(q, f.(statuses := statuses))
  {
    DecodesTo(q, f.(statuses := statuses));
  }

  /** The same for the sort pair. */
  lemma SortMoved(p: Params, q: Params, f: Filters, field: SortBy, order: SortOrder)
    requires InSync(p, f)
    requires ParseSortBy(Get(q, "sortBy")) == field && ParseSortOrder(Get(q, "sortOrder")) == order
    requires Get(q, "search") == Get(p, "search") && Get(q, "status") == Get(p, "status")
    requires Get(q, "categoryId") == Get(p, "categoryId")
    requires Get(q, "minPrice") == Get(p, "minPrice") && Get(q, "maxPrice") == Get(p, "maxPrice")
    ensures InSync(q, f.(sortBy := field, sortOrder := order))
  {
    DecodesTo(q, f.(sortBy := field, sortOrder := order));
  }

  /** After a search change the URL decodes to the new state: the search
      reads back as typed and nothing else moves. */
  lemma SearchChangeInSync(p: Params, f: Filters, value: string)
    requires InSync(p, f)
    ensures InSync(Merge(p, SearchChange(f, value).1), SearchChange(f, value).0)
  {
    OneKeyReadsBack(p, "search", OrNull(value));
    OrNullReadsBack(value);
    SearchMoved(p, Merge(p, SearchChange(f, value).1), f, value);
  }

  /** After a category change the URL decodes to the new state. */
  lemma CategoryChangeInSync(p: Params, f: Filters, value: string)
    requires InSync(p, f)
    ensures InSync(Merge(p, CategoryChange(f, value).1), CategoryChange(f, value).0)
  {
    OneKeyReadsBack(p, "categoryId", OrNull(value));
    OrNullReadsBack(value);
    CategoryMoved(p, Merge(p, CategoryChange(f, value).1), f, value);
  }

  /** After a price change the URL decodes to the new state, for either
      bound. */
  lemma PriceChangeInSync(p: Params, f: Filters, bound: PriceBound, value: string)
    requires InSync(p, f)
    ensures InSync(Merge(p, PriceChange(f, bound, value).1), PriceChange(f, bound, value).0)
  {
    OrNullReadsBack(value);
    if bound == Min {
      OneKeyReadsBack(p, "minPrice", OrNull(value));
      MinPriceMoved(p, Merge(p, PriceChange(f, bound, value).1), f, value);
    } else {
      OneKeyReadsBack(p, "maxPrice", OrNull(value));
      MaxPriceMoved(p, Merge(p, PriceChange(f, bound, value).1), f, value);
    }
  }

  /** After a status toggle the URL decodes to the new state: the toggled
      list reads back exactly and nothing else moves. */
  lemma StatusToggleInSync(p: Params, f: Filters, s: AdStatus)
    requires InSync(p, f)
    ensures InSync(Merge(p, StatusToggle(f, s).1), StatusToggle(f, s).0)
  {
    var statuses := ToggleStatus(f.statuses, s);
    OneKeyReadsBack(p, "status", StatusParam(statuses));
    StatusParamRoundTrip(statuses);
    StatusMoved(p, Merge(p, StatusToggle(f, s).1), f, statuses);
  }

  /** What `{ sortBy, sortOrder, page: '1' }` leaves behind. */
  lemma SortAndPage(p: Params, field: SortBy, order: SortOrder)
    ensures var q := Merge(p, [("sortBy", Some(SortByName(field))), ("sortOrder", Some(SortOrderName(order))), PageOne]);
      && ParseSortBy(Get(q, "sortBy")) == field && ParseSortOrder(Get(q, "sortOrder")) == order
      && Get(q, "search") == Get(p, "search") && Get(q, "status") == Get(p, "status")
      && Get(q, "categoryId") == Get(p, "categoryId")
      && Get(q, "minPrice") == Get(p, "minPrice") && Get(q, "maxPrice") == Get(p, "maxPrice")
  {
    var updates := [("sortBy", Some(SortByName(field))), ("sortOrder", Some(SortOrderName(order))), PageOne];
    SortReadsBack(p, updates, field, order);
    SortKeepsOther(p, updates, "search");
    SortKeepsOther(p, updates, "status");
    SortKeepsOther(p, updates, "categoryId");
    SortKeepsOther(p, updates, "minPrice");
    SortKeepsOther(p, updates, "maxPrice");
  }

  lemma SortReadsBack(p: Params, updates: seq<Update>, field: SortBy, order: SortOrder)
    requires updates == [("sortBy", Some(SortByName(field))), ("sortOrder", Some(SortOrderName(order))), PageOne]
    ensures ParseSortBy(Get(Merge(p, updates), "sortBy")) == field
    ensures ParseSortOrder(Get(Merge(p, updates), "sortOrder")) == order
  {
    ReadBackAt(p, updates, 0);
    ReadBackAt(p, updates, 1);
    SortRoundTrip(field, order);
  }

  lemma SortKeepsOther(p: Params, updates: seq<Update>, other: string)
    requires |updates| == 3 && updates[0].0 == "sortBy" && updates[1].0 == "sortOrder" && updates[2].0 == "page"
    requires other != "sortBy" && other != "sortOrder" && other != "page"
    ensures Get(Merge(p, updates), other) == Get(p, other)
  {
    ReadBackUntouched(p, updates, other);
  }

  /** After a sort click the URL decodes to the new state: field and order
      read back and nothing else moves. */
  lemma SortChangeInSync(p: Params, f: Filters, field: SortBy)
    requires InSync(p, f)
    ensures InSync(Merge(p, SortChange(f, field).1), SortChange(f, field).0)
  {
    var g := SortChange(f, field).0;
    SortAndPage(p, field, g.sortOrder);
    SortMoved(p, Merge(p, SortChange(f, field).1), f, field, g.sortOrder);
  }

  /** After any filter or sort change the URL decodes to exactly the state
      the page holds, so a reload restores what the user chose. */
  lemma HandlersKeepUrlInSync(p: Params, f: Filters, c: Change)
    requires InSync(p, f)
    ensures InSync(Merge(p, Handle(f, c).1), Handle(f, c).0)
  {
    match c
    case Search(v) => SearchChangeInSync(p, f, v);
    case ToggleStatusOf(s) => StatusToggleInSync(p, f, s);
    case Category(v) => CategoryChangeInSync(p, f, v);
    case PriceOf(b, v) => PriceChangeInSync(p, f, b, v);
    case SortOn(field) => SortChangeInSync(p, f, field);
  }

  /** Parameters the page does not use are never touched by its handlers. */
  lemma HandlersKeepOtherParams(p: Params, f: Filters, c: Change, other: string)
    requires !PageKey(other)
    ensures Get(Merge(p, Handle(f, c).1), other) == Get(p, other)
  {
    var updates := Handle(f, c).1;
    HandleDistinctKeys(f, c);
    HandleWritesPageKeys(f, c);
    assert forall i :: 0 <= i < |updates| ==> updates[i].0 != other;
    MergeReadBack(p, updates, other);
  }

  /** `handlePageChange`: only the page is written. */
  function PageChange(page: int): (updates: seq<Update>)
    ensures |updates| == 1 && updates[0].0 == "page" && Effective(updates[0].1) == Some(IntToString(page))
  {
    [("page", Some(IntToString(page)))]
  }

  /** A page change to any non-zero page is read back as that page. */
  lemma PageChangeReadBack(p: Params, page: int)
    requires page != 0
    ensures DecodePage(Get(Merge(p, PageChange(page)), "page")) == page
  {
    MergeOne(p, PageChange(page)[0]);
    assert PageChange(page) == [PageChange(page)[0]];
    DecodePageRoundTrip(page);
  }
}
