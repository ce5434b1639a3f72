/** The request bookkeeping of the API client (`client.ts`): the registry of
    cancel handles keyed by request name, the keys each request registers,
    the query-string builder and the resulting request targets. The HTTP
    transport itself is not modelled; a handle is a number, and `owners`
    records for every handle ever issued the key it was issued under. */
module ApiClient {
  import opened Options
  import opened Text
  import Seqs

  /** `handles` is the `cancelTokens` map; handle `h` is the `h`-th cancel
      source created, issued under key `owners[h]`; `cancelled` holds the
      handles whose `cancel` has been called. */
  datatype Registry = Registry(handles: map<string, nat>, owners: seq<string>, cancelled: set<nat>)

  const Empty: Registry := Registry(map[], [], {})

  /** The map holds, for each key, the one handle issued under that key that
      has not been cancelled, and every handle not cancelled is held. */
  predicate Valid(r: Registry) {
    && (forall k :: k in r.handles ==>
          r.handles[k] < |r.owners| && r.owners[r.handles[k]] == k && r.handles[k] !in r.cancelled)
    && (forall h :: 0 <= h < |r.owners| && h !in r.cancelled ==>
          r.owners[h] in r.handles && r.handles[r.owners[h]] == h)
    && (forall h :: h in r.cancelled ==> h < |r.owners|)
  }

  /** A handle that has been issued and not cancelled. */
  predicate Live(r: Registry, h: nat) {
    h < |r.owners| && h !in r.cancelled
  }

  /** `createCancelToken(key)`: cancel the handle stored under `key`, if any,
      then store a new handle under `key`. Returns the new handle. */
  function Register(r: Registry, key: string): (res: (Registry, nat))
    ensures res.1 == |r.owners| && res.0.owners == r.owners + [key]
    ensures res.0.handles == r.handles[key := res.1]
    ensures key in r.handles ==> res.0.cancelled == r.cancelled + {r.handles[key]}
    ensures key !in r.handles ==> res.0.cancelled == r.cancelled
  {
    var h := |r.owners|;
    var cancelled := if key in r.handles then r.cancelled + {r.handles[key]} else r.cancelled;
    (Registry(r.handles[key := h], r.owners + [key], cancelled), h)
  }

  /** `cancelRequest(key)`: cancel and forget the handle under `key`; nothing
      happens when there is none. */
  function CancelRequest(r: Registry, key: string): (res: Registry)
    ensures key !in res.handles && res.owners == r.owners
    ensures forall k :: k != key ==> (k in res.handles <==> k in r.handles)
    ensures forall k :: k != key && k in r.handles ==> res.handles[k] == r.handles[k]
    ensures key in r.handles ==> res.cancelled == r.cancelled + {r.handles[key]}
    ensures key !in r.handles ==> res == r
  {
    if key in r.handles then
      Registry(r.handles - {key}, r.owners, r.cancelled + {r.handles[key]})
    else r
  }

  /** `cancelAllRequests`: cancel every stored handle and empty the map. */
  function CancelAll(r: Registry): (res: Registry)
    ensures res.handles == map[] && res.owners == r.owners
    ensures forall k :: k in r.handles ==> r.handles[k] in res.cancelled
    ensures forall h :: h in res.cancelled ==> h in r.cancelled || exists k :: k in r.handles && r.handles[k] == h
  {
    Registry(map[], r.owners, r.cancelled + r.handles.Values)
  }

  lemma EmptyValid()
    ensures Valid(Empty)
  {
  }

  lemma RegisterPreservesValid(r: Registry, key: string)
    requires Valid(r)
    ensures Valid(Register(r, key).0)
  {
    var s := Register(r, key).0;
    var h := |r.owners|;
    forall k | k in s.handles
      ensures s.handles[k] < |s.owners| && s.owners[s.handles[k]] == k && s.handles[k] !in s.cancelled
    {
      if k != key {
        assert s.handles[k] == r.handles[k] && s.owners[r.handles[k]] == r.owners[r.handles[k]];
        assert key in r.handles ==> r.handles[key] != r.handles[k];
      }
    }
    forall g | 0 <= g < |s.owners| && g !in s.cancelled
      ensures s.owners[g] in s.handles && s.handles[s.owners[g]] == g
    {
      if g < h {
        assert r.owners[g] in r.handles && r.handles[r.owners[g]] == g;
        assert s.owners[g] == r.owners[g];
      }
    }
  }

  lemma CancelRequestPreservesValid(r: Registry, key: string)
    requires Valid(r)
    ensures Valid(CancelRequest(r, key))
  {
    var s := CancelRequest(r, key);
    forall g | 0 <= g < |s.owners| && g !in s.cancelled
      ensures s.owners[g] in s.handles && s.handles[s.owners[g]] == g
    {
      assert r.owners[g] in r.handles && r.handles[r.owners[g]] == g;
    }
  }

  lemma CancelAllPreservesValid(r: Registry)
    requires Valid(r)
    ensures Valid(CancelAll(r))
  {
    var s := CancelAll(r);
    forall g | 0 <= g < |r.owners|
      ensures g in s.cancelled
    {
      if g !in r.cancelled {
        assert r.owners[g] in r.handles && r.handles[r.owners[g]] == g;
        assert g in r.handles.Values;
      }
    }
  }

  /** At most one live handle per key: two live handles issued under the same
      key are the same handle. */
  lemma OneLiveHandlePerKey(r: Registry, h1: nat, h2: nat)
    requires Valid(r) && Live(r, h1) && Live(r, h2) && r.owners[h1] == r.owners[h2]
    ensures h1 == h2
  {
    assert r.handles[r.owners[h1]] == h1;
  }

  /** Registering a key replaces its handle: the previous one is cancelled, the
      new one is live and held, and every other key keeps its handle. */
  lemma RegisterReplaces(r: Registry, key: string)
    requires Valid(r)
    ensures var (s, h) := Register(r, key);
      && Live(s, h) && s.handles[key] == h
      && (key in r.handles ==> !Live(s, r.handles[key]))
      && (forall k :: k != key && k in r.handles ==> k in s.handles && s.handles[k] == r.handles[k] && Live(s, r.handles[k]))
  {
    var (s, h) := Register(r, key);
    forall k | k != key && k in r.handles
      ensures Live(s, r.handles[k])
    {
      assert key in r.handles ==> r.owners[r.handles[key]] != r.owners[r.handles[k]];
    }
  }

  /** Cancelling one key ends its handle and leaves every other key's handle
      live and held. */
  lemma CancelRequestOthersUntouched(r: Registry, key: string)
    requires Valid(r)
    ensures var s := CancelRequest(r, key);
      && (key in r.handles ==> !Live(s, r.handles[key]))
      && (forall k :: k != key && k in r.handles ==> s.handles[k] == r.handles[k] && Live(s, r.handles[k]))
  {
    var s := CancelRequest(r, key);
    forall k | k != key && k in r.handles
      ensures Live(s, r.handles[k])
    {
      assert key in r.handles ==> r.owners[r.handles[key]] != r.owners[r.handles[k]];
    }
  }

  /** After cancelling everything no handle is live. */
  lemma CancelAllEndsEveryHandle(r: Registry, h: nat)
    requires Valid(r)
    ensures !Live(CancelAll(r), h)
  {
    if h < |r.owners| && h !in r.cancelled {
      assert r.owners[h] in r.handles && r.handles[r.owners[h]] == h;
      assert h in r.handles.Values;
    }
  }

  /** A scalar filter value and its `String(value)` text. */
  datatype Scalar = Str(s: string) | Num(n: int) | Bool(b: bool)

  function ScalarText(v: Scalar): string {
    match v
    case Str(s) => s
    case Num(n) => IntToString(n)
    case Bool(b) => if b then "true" else "false"
  }

  /** A value in a filter record: `undefined`, `null`, a scalar or an array. */
  datatype FilterValue = Undefined | Null | One(v: Scalar) | Many(items: seq<Scalar>)

  type Filters = seq<(string, FilterValue)>

  type Query = seq<(string, string)>

  /** `undefined`, `null` and `''` are left out of the query string. Note
      that `0`, `false` and the empty array are not. */
  predicate Skipped(v: FilterValue) {
    v.Undefined? || v.Null? || v == One(Str(""))
  }

  /** The pairs one filter entry contributes, in order. */
  function EntryPairs(key: string, v: FilterValue): (q: Query)
    ensures Skipped(v) ==> q == []
    ensures v.One? && !Skipped(v) ==> q == [(key, ScalarText(v.v))]
    ensures v.Many? ==> |q| == |v.items| && forall i :: 0 <= i < |q| ==> q[i] == (key, ScalarText(v.items[i]))
  {
    match v
    case Undefined => []
    case Null => []
    case One(x) => if x == Str("") then [] else [(key, ScalarText(x))]
    case Many(items) => seq(|items|, i requires 0 <= i < |items| => (key, ScalarText(items[i])))
  }

  /** `buildQueryString`, as the ordered list of appended pairs: each entry in
      turn, skipped values left out, arrays expanded item by item. */
  function BuildQuery(filters: Filters): (q: Query)
    decreases |filters|
  {
    if filters == [] then []
    else
      var head := EntryPairs(filters[0].0, filters[0].1);
      var rest := BuildQuery(filters[1..]);
      assert forall i :: 1 <= i < |filters| ==> filters[i] == filters[1..][i - 1];
      head + rest
  }

  /** Some entry of `filters` that is not skipped has key `key`. */
  predicate FromEntry(filters: Filters, key: string) {
    exists i :: 0 <= i < |filters| && filters[i].0 == key && !Skipped(filters[i].1)
  }

  /** Every pair's key is the key of an entry that is not skipped. */
  lemma {:induction false} BuildQueryKeys(filters: Filters)
    ensures forall j :: 0 <= j < |BuildQuery(filters)| ==> FromEntry(filters, BuildQuery(filters)[j].0)
    decreases |filters|
  {
    if filters != [] {
      BuildQueryKeys(filters[1..]);
      var head := EntryPairs(filters[0].0, filters[0].1);
      var rest := BuildQuery(filters[1..]);
      var q := BuildQuery(filters);
      assert q == head + rest;
      forall j | 0 <= j < |q|
        ensures FromEntry(filters, q[j].0)
      {
        if j < |head| {
          assert q[j] == head[j];
          assert filters[0].0 == q[j].0 && !Skipped(filters[0].1);
        } else {
          var k := j - |head|;
          assert q[j] == rest[k] && 0 <= k < |rest|;
          assert FromEntry(filters[1..], rest[k].0);
          var i :| 0 <= i < |filters[1..]| && filters[1..][i].0 == rest[k].0 && !Skipped(filters[1..][i].1);
          assert filters[i + 1] == filters[1..][i];
        }
      }
    }
  }

  /** The query is empty exactly when no entry contributes a pair: every
      entry is skipped or an empty array. */
  lemma {:induction false} BuildQueryEmpty(filters: Filters)
    ensures BuildQuery(filters) == [] <==>
      forall i :: 0 <= i < |filters| ==> Skipped(filters[i].1) || filters[i].1 == Many([])
    decreases |filters|
  {
    if filters != [] {
      BuildQueryEmpty(filters[1..]);
      assert forall i :: 1 <= i < |filters| ==> filters[i] == filters[1..][i - 1];
      var v := filters[0].1;
      assert EntryPairs(filters[0].0, v) == [] <==> Skipped(v) || v == Many([]);
    }
  }

  /** The query of two concatenated records is the concatenation of their
      queries, so every entry contributes its own pairs in place. */
  lemma {:induction false} BuildQueryAppend(a: Filters, b: Filters)
    ensures BuildQuery(a + b) == BuildQuery(a) + BuildQuery(b)
    decreases |a|
  {
    if a == [] {
      assert a + b == b;
    } else {
      Seqs.ConsAppend(a, b);
      BuildQueryCons(a[0], a[1..] + b);
      BuildQueryAppend(a[1..], b);
      Seqs.Assoc(EntryPairs(a[0].0, a[0].1), BuildQuery(a[1..]), BuildQuery(b));
    }
  }

  /** The first entry contributes its pairs ahead of the rest. */
  lemma BuildQueryCons(x: (string, FilterValue), rest: Filters)
    ensures BuildQuery([x] + rest) == EntryPairs(x.0, x.1) + BuildQuery(rest)
  {
    assert ([x] + rest)[1..] == rest;
  }

  /** A skipped entry can be removed from a record without changing the
      query. */
  lemma SkippedEntryIgnored(a: Filters, key: string, v: FilterValue, b: Filters)
    requires Skipped(v)
    ensures BuildQuery(a + [(key, v)] + b) == BuildQuery(a + b)
  {
    var e := [(key, v)];
    assert BuildQuery(e) == [] by {
      assert e[1..] == [];
      assert BuildQuery(e) == EntryPairs(key, v) + BuildQuery([]);
    }
    BuildQueryAppend(a + e, b);
    BuildQueryAppend(a, e);
    BuildQueryAppend(a, b);
    assert BuildQuery(a + e) == BuildQuery(a);
  }

  /** Every entry holds a scalar that is not skipped. */
  predicate AllScalars(filters: Filters) {
    forall i :: 0 <= i < |filters| ==> filters[i].1.One? && !Skipped(filters[i].1)
  }

  /** A record of set scalar values gives one pair per entry, in order. */
  lemma {:induction false} BuildQueryOfScalars(filters: Filters)
    requires AllScalars(filters)
    ensures |BuildQuery(filters)| == |filters|
    ensures forall i :: 0 <= i < |filters| ==> BuildQuery(filters)[i] == (filters[i].0, ScalarText(filters[i].1.v))
    decreases |filters|
  {
    if filters != [] {
      assert forall i :: 1 <= i < |filters| ==> filters[i] == filters[1..][i - 1];
      BuildQueryOfScalars(filters[1..]);
    }
  }

  /** Scalar entries at the front of a record give the first pairs of its
      query, one each, whatever follows them. */
  lemma QueryPrefix(a: Filters, b: Filters)
    requires AllScalars(a)
    ensures |BuildQuery(a + b)| >= |a|
    ensures forall i :: 0 <= i < |a| ==> BuildQuery(a + b)[i] == (a[i].0, ScalarText(a[i].1.v))
  {
    BuildQueryAppend(a, b);
    BuildQueryOfScalars(a);
  }

  /** After scalar entries at the front, the query continues with the query
      of the rest of the record. */
  lemma QueryAfterPrefix(a: Filters, b: Filters)
    requires AllScalars(a)
    ensures |BuildQuery(a + b)| == |a| + |BuildQuery(b)|
    ensures BuildQuery(a + b)[|a|..] == BuildQuery(b)
  {
    BuildQueryAppend(a, b);
    ScalarsQueryLength(a);
  }

  lemma ScalarsQueryLength(a: Filters)
    requires AllScalars(a)
    ensures |BuildQuery(a)| == |a|
  {
    BuildQueryOfScalars(a);
  }

  /** An array entry that follows scalar entries expands in place: its items
      become the pairs right after theirs. */
  lemma ArrayAfterPrefix(a: Filters, c: Filters, key: string, items: seq<Scalar>, b: Filters)
    requires AllScalars(a)
    requires AllScalars(c)
    ensures var q := BuildQuery(a + (c + ([(key, Many(items))] + b)));
      var start := |a| + |c|;
      |q| >= start + |items| && q[start..start + |items|] == EntryPairs(key, Many(items))
  {
    var e := [(key, Many(items))];
    var ac := a + c;
    Seqs.Assoc(a, c, e + b);
    ScalarsConcat(a, c);
    QueryAfterPrefix(ac, e + b);
    SingleEntry(key, Many(items));
    BuildQueryAppend(e, b);
    var q := BuildQuery(ac + (e + b));
    var n := |items|;
    assert q[|ac|..|ac| + n] == q[|ac|..][..n];
  }

  /** A one-entry record's query is that entry's pairs. */
  lemma SingleEntry(key: string, v: FilterValue)
    ensures BuildQuery([(key, v)]) == EntryPairs(key, v)
  {
    BuildQueryCons((key, v), []);
    assert [(key, v)] + [] == [(key, v)];
  }

  /** Scalar-only records stay scalar-only when concatenated. */
  lemma ScalarsConcat(a: Filters, c: Filters)
    requires AllScalars(a)
    requires AllScalars(c)
    ensures AllScalars(a + c)
  {
    forall i | 0 <= i < |a + c| ensures (a + c)[i].1.One? && !Skipped((a + c)[i].1) {
      if i < |a| { assert (a + c)[i] == a[i]; } else { assert (a + c)[i] == c[i - |a|]; }
    }
  }

  /** A request target: the path and the query pairs after it. */
  datatype Target = Target(path: string, query: Query)

  /** The `?` and the query string are added only when the query is not
      empty. The pairs are written `key=value` joined by `&`. */
  function Url(t: Target): (u: string)
    ensures t.query == [] ==> u == t.path
    ensures t.query != [] ==> |u| > |t.path| && u[..|t.path|] == t.path && u[|t.path|] == '?'
  {
    if t.query == [] then t.path else t.path + "?" + Encode(t.query)
  }

  function Encode(q: Query): string
    decreases |q|
  {
    if q == [] then ""
    else
      var pair := q[0].0 + "=" + q[0].1;
      if |q| == 1 then pair else pair + "&" + Encode(q[1..])
  }

  /** The client's requests. */
  datatype Request =
    | GetAds(filters: Filters)
    | GetAdById(id: int)
    | ApproveAd(id: int)
    | RejectAd(id: int)
    | RequestChanges(id: int)
    | GetStatsSummary(filters: Filters)
    | GetActivityChart(filters: Filters)
    | GetDecisionsChart(filters: Filters)
    | GetCategoriesChart(filters: Filters)
    | GetCurrentModerator

  /** The registry key a request registers; the moderation posts register
      none and cannot be cancelled. */
  function RequestKey(req: Request): (k: Option<string>)
    ensures k.None? <==> req.ApproveAd? || req.RejectAd? || req.RequestChanges?
  {
    match req
    case GetAds(_) => Some("getAds")
    case GetAdById(id) => Some("getAd-" + IntToString(id))
    case ApproveAd(_) => None
    case RejectAd(_) => None
    case RequestChanges(_) => None
    case GetStatsSummary(_) => Some("getStatsSummary")
    case GetActivityChart(_) => Some("getActivityChart")
    case GetDecisionsChart(_) => Some("getDecisionsChart")
    case GetCategoriesChart(_) => Some("getCategoriesChart")
    case GetCurrentModerator => Some("getCurrentModerator")
  }

  /** Where a request goes. */
  function RequestTarget(req: Request): Target {
    match req
    case GetAds(f) => Target("/ads", BuildQuery(f))
    case GetAdById(id) => Target("/ads/" + IntToString(id), [])
    case ApproveAd(id) => Target("/ads/" + IntToString(id) + "/approve", [])
    case RejectAd(id) => Target("/ads/" + IntToString(id) + "/reject", [])
    case RequestChanges(id) => Target("/ads/" + IntToString(id) + "/request-changes", [])
    case GetStatsSummary(f) => Target("/stats/summary", BuildQuery(f))
    case GetActivityChart(f) => Target("/stats/chart/activity", BuildQuery(f))
    case GetDecisionsChart(f) => Target("/stats/chart/decisions", BuildQuery(f))
    case GetCategoriesChart(f) => Target("/stats/chart/categories", BuildQuery(f))
    case GetCurrentModerator => Target("/moderators/me", [])
  }

  /** `getAds` with no surviving filter asks for exactly `/ads`. */
  lemma GetAdsWithoutFilters(f: Filters)
    requires forall i :: 0 <= i < |f| ==> Skipped(f[i].1)
    ensures Url(RequestTarget(GetAds(f))) == "/ads"
  {
    BuildQueryEmpty(f);
  }

  /** Loading two different ads registers two different keys, so opening one
      ad never cancels the load of another. */
  lemma AdKeysDistinct(a: int, b: int)
    requires a != b
    ensures RequestKey(GetAdById(a)) != RequestKey(GetAdById(b))
  {
    if RequestKey(GetAdById(a)) == RequestKey(GetAdById(b)) {
      var ka := "getAd-" + IntToString(a);
      var kb := "getAd-" + IntToString(b);
      assert ka[6..] == IntToString(a) && kb[6..] == IntToString(b);
      IntToStringInjective(a, b);
    }
  }

  /** Sending a request: register its key, if it has one. The registry is
      not touched when the request later settles. */
  function Send(r: Registry, req: Request): (s: Registry)
    ensures RequestKey(req).None? ==> s == r
    ensures RequestKey(req).Some? ==> RequestKey(req).value in s.handles
    ensures r.handles.Keys <= s.handles.Keys
  {
    match RequestKey(req)
    case None => r
    case Some(key) => Register(r, key).0
  }

  function SendAll(r: Registry, reqs: seq<Request>): Registry
    decreases |reqs|
  {
    if reqs == [] then r else SendAll(Send(r, reqs[0]), reqs[1..])
  }

  /** Entries persist: after a run of requests every key registered before,
      and every key any of the requests registered, is still in the map;
      only the cancel operations remove entries. */
  lemma {:induction false} SendAllKeepsKeys(r: Registry, reqs: seq<Request>)
    ensures r.handles.Keys <= SendAll(r, reqs).handles.Keys
    ensures forall i :: 0 <= i < |reqs| && RequestKey(reqs[i]).Some? ==>
      RequestKey(reqs[i]).value in SendAll(r, reqs).handles
    decreases |reqs|
  {
    if reqs != [] {
      var next := Send(r, reqs[0]);
      SendAllKeepsKeys(next, reqs[1..]);
      assert forall i :: 1 <= i < |reqs| ==> reqs[i] == reqs[1..][i - 1];
    }
  }

  /** Sending keeps the registry valid. */
  lemma SendPreservesValid(r: Registry, req: Request)
    requires Valid(r)
    ensures Valid(Send(r, req))
  {
    if RequestKey(req).Some? {
      RegisterPreservesValid(r, RequestKey(req).value);
    }
  }
}
