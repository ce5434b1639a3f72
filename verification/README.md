# Moderation front end: the decision logic, in Dafny

This project is a functional model of the decision logic of a moderation
front end for classified ads. It is a React application. The model covers
the parts that decide something. The React, DOM, storage and network
plumbing around them is left out. Each part is one module:

- `ListParams` covers the list page's URL state. The query string is an
  ordered list of name/value pairs with the `URLSearchParams` operations
  `get`, `set` and `delete`. The module decodes the statuses, sort field,
  sort order and page from it. It also has `updateSearchParams` and the
  parameter updates written by each filter, sort and page handler.
- `ListPage` covers the list page's own state. It models row selection and
  select-all, and the count of new ads found by the background poll. It
  models what a settled load does to the page, and the filter record
  `loadAds` sends. It also models the bulk approve/reject rule, the page
  change and the filter reset.
- `ApiClient` covers the request client:
  - the registry of cancel handles keyed by request name, with
    `createCancelToken`, `cancelRequest` and `cancelAllRequests`;
  - the key each request registers;
  - `buildQueryString` as an ordered list of pairs;
  - the URL each request targets.
- `Realtime` is the shared poll timer: a subscriber set plus at most one
  interval timer.
- `Presets` covers the filter presets:
  - the validator applied to stored data;
  - the initial list;
  - `savePreset`, `loadPreset` and `deletePreset`.
- `Moderation` covers the ad detail page and its rejection dialog:
  - the reason text and the reason validator;
  - the request payload;
  - what approve, reject and request-changes do to the page state;
  - neighbour navigation;
  - the keyboard guards and button-disable rules.

  The page exists in two near-identical versions. Where the two write a
  rule differently, both writings are modelled and proved equal on the
  inputs the page can give them. For the reason select these are its six
  options (`Moderation.SelectOptionAgrees`). The two versions read the listing from differently named fields
  of the server answer; the model gives both the same listing (see
  `Moderation.Navigate` under "Left out").
- `Keyboard` models the global keydown handler as a function of the key,
  the target kind and the callbacks supplied.
- `Stats` covers the statistics page:
  - the requests sent for a period;
  - what a settled load does;
  - the "total reviewed" figure;
  - the chart data.
- `Export` covers the CSV export: the row list and the file text.
- `Labels` holds the status, priority and action labels, with the key
  shown unchanged when it is unknown.
- `TimeFormat` is `formatTime`. `InputField` is the `Input` component's
  id and class list. `Theme` is the theme's initial value and toggle.
- `Text` holds the JavaScript string and number primitives the code relies
  on: `trim`, `toLowerCase`, `split`, `join`, `replace(/\s+/g, …)`,
  `String(n)` and `Number(s)`.
- `Domain` holds the shared enumerations. `Options` is an option type.
  `Seqs` has generic sequence facts.

Every operation is a pure function over immutable data. Effects are made
explicit:
- Server answers, timer firings, storage contents and generated ids are
  parameters.
- A request that may fail is given its outcome as an input: success with
  a value, or failure.
- `Promise.all` is an all-succeeded or some-failed outcome.

## Behaviour worth noting

These are facts about the code that a reader might not expect:

- A failed bulk action keeps the selection. It is not cleared.
- A second bulk action is not refused while one runs. Only the disabled
  buttons stand in the way.
- Registry entries are not removed when a request settles. Only the
  cancel operations remove them.
- The keys are `getAds`, `getAd-<id>` and the like. The poll and the page
  load both register `getAds`, so a poll cancels a pending page load
  (`ListPage.PollCancelsPendingLoad`).
- The list page has no error flag. A failed load leaves the previous ads
  on screen.
- Every filter and sort change writes `page=1`. The sort and the page are
  written even at their defaults.
- Select-all compares the selection's size with the number of ads shown.
- The new-ads count is replaced only by a positive count. A poll can
  lower it (5 to 2) but never clears it. A successful load resets it to 0,
  and so does the badge's refresh button, at the click and whatever the
  load that follows gives (`ListPage.RefreshClick`).
- A search change writes the URL at once. There is no debounce.
- The statistics page's "total reviewed" figure is the overall count for
  the `week` and `month` periods. The summary's week and month counters are
  never shown there (`Stats.TotalReviewedIgnoresPeriodCounts`).
- The arrow-key shortcuts check only that no action runs. They do not check
  that an ad is shown, while the previous and next buttons appear only with
  an ad. Without an ad the navigation finds no target.
- A bulk rejection sends the reason "Другое" with the comment
  "Массовое отклонение" for every selected ad. The moderator is not asked
  for a reason.

## Model

| member | source | states |
|---|---|---|
| `ListParams.Get` | src/pages/AddsList/AddsList.tsx:49-56 | `get` gives nothing exactly when no pair has the name. Otherwise it gives the value of the first pair with that name. |
| `ListParams.Delete` | src/pages/AddsList/AddsList.tsx:170-171 | `delete` leaves no pair with the name and never adds pairs. Every other name reads as before. |
| `ListParams.Set` | src/pages/AddsList/AddsList.tsx:172-173 | After `set` the name reads as the value. Every other name reads as before. |
| `ListParams.Effective` | src/pages/AddsList/AddsList.tsx:170 | The value written is never `''`: `null` and `''` leave the key absent. A non-empty value is kept. |
| `ListParams.ApplyUpdate` | src/pages/AddsList/AddsList.tsx:169-175 | One update: the key then reads as its effective value. Every other key is unchanged. |
| `ListParams.Merge` | src/pages/AddsList/AddsList.tsx:166-179 | `updateSearchParams` applies the updates in order. It has no contract of its own. What it leaves behind is stated by `ListParams.MergeReadBack`. |
| `ListParams.MergeReadBack` | src/pages/AddsList/AddsList.tsx:166-179 | After `updateSearchParams`, each updated key reads as its update, or is absent for `null` and `''`. Keys not updated read as before. |
| `ListParams.ParseStatuses` | src/pages/AddsList/AddsList.tsx:37-47 | A missing or empty `status` parameter decodes to no statuses. Otherwise a status is selected exactly when one of the comma-separated pieces is its name. Order and repetitions are stated by `ListParams.KnownStatusesAppend` and `ListParams.ParseStatusesExample`. |
| `ListParams.KnownStatuses` | src/pages/AddsList/AddsList.tsx:41-46 | The filter keeps only pieces that name a status. Every kept status came from a piece, and every piece that names a status is kept. |
| `ListParams.KnownStatusesAppend` | src/pages/AddsList/AddsList.tsx:46 | The filter works piece by piece. The statuses kept from two runs of pieces are those of the first run followed by those of the second, so order and repetitions are kept. |
| `ListParams.KnownStatusesOne` | src/pages/AddsList/AddsList.tsx:41-46 | One piece is kept, as its status, exactly when it names a status. |
| `ListParams.ParseStatusesExample` | src/pages/AddsList/AddsList.tsx:37-47 | `status=draft,foo,pending` selects draft and then pending. The unknown piece is dropped. |
| `ListParams.StatusParam` | src/pages/AddsList/AddsList.tsx:191-194 | The written `status` value is absent exactly for an empty list. Otherwise it is non-empty. |
| `ListParams.StatusParamRoundTrip` | src/pages/AddsList/AddsList.tsx:186-195 | Decoding the written `status` parameter gives back the status list, order and duplicates included. |
| `ListParams.ParseSortBy` | src/pages/AddsList/AddsList.tsx:58-66 | The result is a field other than `createdAt` only when the parameter names exactly that field. Anything else decodes to `createdAt`. |
| `ListParams.ParseSortOrder` | src/pages/AddsList/AddsList.tsx:68-70 | The result is `asc` exactly when the parameter is `asc`. Otherwise it is `desc`. |
| `ListParams.SortRoundTrip` | src/pages/AddsList/AddsList.tsx:58-70 | Every sort field and order written by the page decodes back to itself. |
| `ListParams.DecodePage` | src/pages/AddsList/AddsList.tsx:80 | The page is never 0. A missing, blank, zero or non-numeric page is 1. Any other number is kept. |
| `ListParams.DecodePageRoundTrip` | src/pages/AddsList/AddsList.tsx:233 | A non-zero page written with `String(page)` decodes back to that page. |
| `ListParams.InitialFilters` | src/pages/AddsList/AddsList.tsx:35-75 | Each of the seven initial fields is its URL parameter decoded: the statuses, sort field and sort order through their parsers, and search, category and prices as the text, with a missing parameter read as `''`. |
| `ListParams.ResetMatchesEmptyUrl` | src/pages/AddsList/AddsList.tsx:220-230 | The reset state is exactly what an empty URL decodes to. |
| `ListParams.OrNull` | src/pages/AddsList/AddsList.tsx:183 | `value \|\| null` is null exactly for the empty string. |
| `ListParams.SearchChange` | src/pages/AddsList/AddsList.tsx:181-184 | Only the search in the page state changes, and it becomes the typed text. The update record writes `search` so that it reads back as typed (an empty search removes it), then resets the page to `1`. Its partner is `ListParams.SearchChangeInSync`. |
| `ListParams.ToggleStatus` | src/pages/AddsList/AddsList.tsx:186-189 | The toggled status flips membership and no other status changes. A status that was absent is appended at the end. |
| `ListParams.Without` | src/pages/AddsList/AddsList.tsx:188 | Filtering out a status removes it and keeps every other status. A list without it is unchanged. Order and repetitions are stated by `ListParams.WithoutAppend`. |
| `ListParams.WithoutAppend` | src/pages/AddsList/AddsList.tsx:188 | `filter` works status by status. Removing from two runs is removing from each, so the kept statuses stay in order with their repetitions. |
| `ListParams.ToggleTwice` | src/pages/AddsList/AddsList.tsx:186-189 | Toggling twice restores the selected set. When the status was not selected, it restores the very list. |
| `ListParams.WithoutAppended` | src/pages/AddsList/AddsList.tsx:187-189 | Removing a status that was just appended gives back the original list. |
| `ListParams.StatusToggle` | src/pages/AddsList/AddsList.tsx:186-195 | The toggled status changes membership and every other status keeps its own. Nothing else in the state moves. The `status` update decodes back to exactly the new list, then the page is reset to `1`. Its partner is `ListParams.StatusToggleInSync`. |
| `ListParams.CategoryChange` | src/pages/AddsList/AddsList.tsx:197-201 | Only the category in the state changes, to the chosen one. The `categoryId` update reads back as chosen, then the page is reset to `1`. Its partner is `ListParams.CategoryChangeInSync`. |
| `ListParams.PriceChange` | src/pages/AddsList/AddsList.tsx:203-211 | Only the chosen bound changes in the state, to the typed text. Its update (`minPrice` or `maxPrice`) reads back as typed, then the page is reset to `1`. Its partner is `ListParams.PriceChangeInSync`. |
| `ListParams.NextSortOrder` | src/pages/AddsList/AddsList.tsx:214 | The new order is `asc` exactly when the active field is clicked while `desc`. |
| `ListParams.SortChange` | src/pages/AddsList/AddsList.tsx:213-218 | The clicked field becomes the sort field. The order turns ascending exactly when the same field was sorted descending. Nothing else moves. The `sortBy` and `sortOrder` updates decode back to the new field and order, then the page is reset to `1`. Its partner is `ListParams.SortChangeInSync`. |
| `ListParams.SortClickTwice` | src/pages/AddsList/AddsList.tsx:213-218 | Clicking the active field twice from `desc` gives `asc`, then `desc` again. |
| `ListParams.Handle` | src/pages/AddsList/AddsList.tsx:181-218 | Dispatches a change to its handler. It has no contract of its own. Its properties are stated by `ListParams.HandlersResetPage`, `ListParams.HandlersKeepUrlInSync` and `ListParams.HandlersKeepOtherParams`. |
| `ListParams.HandlersResetPage` | src/pages/AddsList/AddsList.tsx:181-218 | After any filter or sort change the URL's page is `1`. |
| `ListParams.HandleWritesPageKeys` | src/pages/AddsList/AddsList.tsx:181-218 | Every key a filter or sort handler writes is one of the list page's own parameters. |
| `ListParams.SearchChangeInSync` | src/pages/AddsList/AddsList.tsx:181-184 | After a search change the URL decodes to exactly the new filter state: the search reads back as typed and no other field moves. |
| `ListParams.CategoryChangeInSync` | src/pages/AddsList/AddsList.tsx:197-201 | After a category change the URL decodes to exactly the new filter state. |
| `ListParams.PriceChangeInSync` | src/pages/AddsList/AddsList.tsx:203-211 | After a change of either price bound the URL decodes to exactly the new filter state. |
| `ListParams.StatusToggleInSync` | src/pages/AddsList/AddsList.tsx:186-195 | After a status toggle the URL decodes to exactly the new filter state: the toggled list reads back and no other field moves. |
| `ListParams.SortChangeInSync` | src/pages/AddsList/AddsList.tsx:213-218 | After a sort click the URL decodes to exactly the new filter state: the field and order read back and no other field moves. |
| `ListParams.HandlersKeepUrlInSync` | src/pages/AddsList/AddsList.tsx:166-218 | If the URL decoded to the page's whole filter state before a filter or sort change, it decodes to the whole new state after it, so a reload restores it. |
| `ListParams.HandlersKeepOtherParams` | src/pages/AddsList/AddsList.tsx:166-179 | Parameters the page does not use are never changed by its handlers. |
| `ListParams.PageChangeReadBack` | src/pages/AddsList/AddsList.tsx:232-235 | After a change to any non-zero page the URL's page decodes to that page. |
| `ListParams.PageChange` | src/pages/AddsList/AddsList.tsx:232-235 | `handlePageChange` writes only the `page` key, and the page reads back as the given number. |
| `ListPage.SelectAd` | src/pages/AddsList/AddsList.tsx:245-253 | Selecting flips membership of exactly the one id. |
| `ListPage.SelectAdTwice` | src/pages/AddsList/AddsList.tsx:245-253 | Selecting the same id twice restores the selection. |
| `ListPage.SelectAll` | src/pages/AddsList/AddsList.tsx:237-243 | Select-all clears the selection when its size equals the number of ads shown. Otherwise it selects exactly the shown ids. |
| `ListPage.SelectAllAlternates` | src/pages/AddsList/AddsList.tsx:237-243 | With distinct ids, select-all from a selection of another size selects exactly the shown ids, and a second select-all clears it. |
| `ListPage.CountNew` | src/pages/AddsList/AddsList.tsx:143-145 | The count is at most the number polled. It is zero exactly when every polled id is shown. |
| `ListPage.CountNewIsDifference` | src/pages/AddsList/AddsList.tsx:143-145 | For distinct polled ids the count is the size of the set of polled ids not shown. |
| `ListPage.PollUpdate` | src/pages/AddsList/AddsList.tsx:142-148 | The count is replaced only when both lists are non-empty and some polled ad is new. Otherwise it is kept. |
| `ListPage.PollNeverClears` | src/pages/AddsList/AddsList.tsx:142-148 | A poll never clears a positive count. A poll with nothing new leaves the count as it was. |
| `ListPage.PollCancelsPendingLoad` | src/pages/AddsList/AddsList.tsx:133-140 | The poll registers the same key as the page load, so a poll sent during a load cancels that load's handle. |
| `ListPage.PollIsFreshFirstPage` | src/pages/AddsList/AddsList.tsx:133-138 | The poll sends exactly the filters the page loads from an empty URL: page 1 of ten, newest first, with no filter. |
| `ListPage.PollQuery` | src/pages/AddsList/AddsList.tsx:133-138 | The poll asks for `page=1&limit=10&sortBy=createdAt&sortOrder=desc`, in that order. |
| `ListPage.LoadAds` | src/pages/AddsList/AddsList.tsx:77-115 | The page number is decoded whatever the outcome, and the selection is kept. Success replaces the ads and totals and zeroes the new-ads count. Failure keeps them. Loading ends either way. |
| `ListPage.RefreshClick` | src/pages/AddsList/AddsList.tsx:358-361 | The refresh button leaves the new-ads count at 0 whatever the load gives. After a successful load the page is exactly as after a plain load. After a failed one it is as after a failed plain load, except that the count is 0. |
| `ListPage.LoadQueryStartsWithPageAndSort` | src/pages/AddsList/AddsList.tsx:83-88 | The load query starts with `page`, `limit=10`, `sortBy` and `sortOrder`, in that order. |
| `ListPage.LoadQueryStatuses` | src/pages/AddsList/AddsList.tsx:90-95 | With statuses selected, the query has one `status` pair per status, in order, right after the search. |
| `ListPage.LoadFilters` | src/pages/AddsList/AddsList.tsx:83-104 | The filter record `loadAds` sends. It has no contract of its own. Its layout is stated by `ListPage.LoadQueryStartsWithPageAndSort` and `ListPage.LoadQueryStatuses`. |
| `ListPage.NumberValue` | src/pages/AddsList/AddsList.tsx:99-104 | `Number(text)` as sent for the category and prices: the number, or `NaN` for text that is not one. It has no contract of its own. The reading is `Text.NumberOf`. |
| `ListPage.BulkAction` | src/pages/AddsList/AddsList.tsx:255-283 | The bulk action rule: <ul><li>An empty selection changes nothing and makes no call.</li><li>Otherwise there is one call per selected id and no other, and the bulk flag ends false.</li><li>A bulk rejection rejects every selected id with the fixed payload `ListPage.BulkRejectPayload`.</li><li>If all calls succeed, the selection is cleared and the list reloaded.</li><li>If any fails, only the flag changes.</li></ul> |
| `ListPage.BulkSelectionRule` | src/pages/AddsList/AddsList.tsx:259-270 | The selection ends empty exactly when it was empty or every call succeeded. A kept selection comes with the old ads. |
| `ListPage.BulkCalls` | src/pages/AddsList/AddsList.tsx:274-283 | Bulk approve makes an approve call for exactly the selected ids. Bulk reject makes a reject call for exactly the selected ids, each with reason "other" and the mass-rejection comment. |
| `ListPage.PageChange` | src/pages/AddsList/AddsList.tsx:232-235 | A page change clears the selection and writes the page. Every other parameter is unchanged. |
| `ListPage.PageChangeThenLoad` | src/pages/AddsList/AddsList.tsx:232-235 | After a page change the next load shows that page, with nothing selected. |
| `ListPage.Reset` | src/pages/AddsList/AddsList.tsx:220-230 | Reset gives the filters an empty URL decodes to, an empty URL and no selection. |
| `ApiClient.Register` | src/api/client.ts:44-56 | Registering cancels the handle held under the key, if any, and stores a fresh handle under it. Other keys are unchanged. |
| `ApiClient.CancelRequest` | src/api/client.ts:58-64 | Cancelling a key cancels and forgets its handle. Other keys are unchanged. An absent key changes nothing. |
| `ApiClient.CancelAll` | src/api/client.ts:66-71 | Cancel-all cancels every held handle, and nothing else, and empties the map. |
| `ApiClient.EmptyValid` | src/api/client.ts:19 | The empty registry satisfies the registry invariant. |
| `ApiClient.RegisterPreservesValid` | src/api/client.ts:44-56 | Registering keeps the invariant: one live handle per key, held under that key. |
| `ApiClient.CancelRequestPreservesValid` | src/api/client.ts:58-64 | Cancelling one key keeps the invariant. |
| `ApiClient.CancelAllPreservesValid` | src/api/client.ts:66-71 | Cancelling all keeps the invariant. |
| `ApiClient.OneLiveHandlePerKey` | src/api/client.ts:44-56 | At most one handle per key is live. |
| `ApiClient.RegisterReplaces` | src/api/client.ts:44-56 | After registering, the new handle is live and held, the previous one is dead, and other keys keep live handles. |
| `ApiClient.CancelRequestOthersUntouched` | src/api/client.ts:58-64 | Cancelling one key ends its handle and leaves every other key's handle live and held. |
| `ApiClient.CancelAllEndsEveryHandle` | src/api/client.ts:66-71 | After cancel-all no handle is live. |
| `ApiClient.EntryPairs` | src/api/client.ts:77-83 | `undefined`, `null` and `''` give no pairs. A scalar gives one pair. An array gives one pair per item, in order. |
| `ApiClient.BuildQuery` | src/api/client.ts:73-87 | `buildQueryString` as a list of pairs. It has no contract of its own. Its properties are stated by the `ApiClient.BuildQuery…` lemmas below. |
| `ApiClient.BuildQueryKeys` | src/api/client.ts:73-87 | Every pair comes from an entry of the record that is not skipped. |
| `ApiClient.BuildQueryEmpty` | src/api/client.ts:76-84 | The query is empty exactly when every entry is skipped or an empty array. |
| `ApiClient.BuildQueryAppend` | src/api/client.ts:76-84 | The query of two records in sequence is the first's pairs followed by the second's. |
| `ApiClient.SkippedEntryIgnored` | src/api/client.ts:77 | Inserting a skipped entry anywhere does not change the query. |
| `ApiClient.BuildQueryOfScalars` | src/api/client.ts:80-82 | A record of non-skipped scalars gives exactly one pair per entry, in order. |
| `ApiClient.QueryPrefix` | src/api/client.ts:76-84 | Leading scalar entries become the leading pairs, in order, whatever follows them. |
| `ApiClient.ArrayAfterPrefix` | src/api/client.ts:78-79 | An array after scalar entries expands in place into its item pairs. |
| `ApiClient.Url` | src/api/client.ts:92-93 | With no pairs the URL is the bare path. Otherwise it starts with the path followed by `?`. |
| `ApiClient.RequestKey` | src/api/client.ts:89-126 | Exactly approve, reject and request-changes register no key. |
| `ApiClient.RequestTarget` | src/api/client.ts:89-172 | The path and query each request asks for. It has no contract of its own. `ApiClient.GetAdsWithoutFilters` and `Stats.StatsRequestsDistinct` state what it asks for. |
| `ApiClient.GetAdsWithoutFilters` | src/api/client.ts:89-97 | `getAds` with no surviving filter asks for exactly `/ads`. |
| `ApiClient.AdKeysDistinct` | src/api/client.ts:99-103 | Loading two different ads registers two different keys. |
| `ApiClient.Send` | src/api/client.ts:89-97 | Sending registers the request's key, if it has one. A keyless request leaves the registry alone. No key is removed. |
| `ApiClient.SendAll` | src/api/client.ts:89-172 | Sends a run of requests in order. It has no contract of its own. What it keeps is stated by `ApiClient.SendAllKeepsKeys`. |
| `ApiClient.SendAllKeepsKeys` | src/api/client.ts:89-172 | After any run of requests every earlier key and every key registered along the way is still held. |
| `ApiClient.SendPreservesValid` | src/api/client.ts:89-97 | Sending keeps the registry invariant. |
| `Realtime.Start` | src/utils/realtime.ts:4-11 | Start adds the callback and creates a timer with its interval only when none exists. An existing timer is kept. |
| `Realtime.Stop` | src/utils/realtime.ts:13-19 | Stop removes the callback. The timer is gone exactly when there was none or nobody is left. |
| `Realtime.Tick` | src/utils/realtime.ts:7-9 | A firing calls only subscribers, and all of them when a timer runs. |
| `Realtime.StartPreservesValid` | src/utils/realtime.ts:4-11 | Start keeps the invariant that a timer runs exactly while somebody is subscribed. |
| `Realtime.StopPreservesValid` | src/utils/realtime.ts:13-19 | Stop keeps the same invariant. |
| `Realtime.TickCallsSubscribers` | src/utils/realtime.ts:8 | Under the invariant a tick calls exactly the subscribers. |
| `Realtime.StartTwiceOneTimer` | src/utils/realtime.ts:5-10 | Starting a callback twice stores it once and creates one timer, with the first interval. |
| `Realtime.TwoSubscribersOneTimer` | src/utils/realtime.ts:4-11 | Two callbacks share one timer, created by the first start. |
| `Realtime.StopKeepsTimerUntilLast` | src/utils/realtime.ts:13-19 | Stopping one of two subscribers keeps the timer. Stopping the last clears it. |
| `Realtime.RestartCreatesNewTimer` | src/utils/realtime.ts:6-17 | After the timer is cleared, the next start creates a new, distinct timer. |
| `Realtime.StoppedNotInvoked` | src/utils/realtime.ts:8-14 | A stopped callback is not called by a later tick. |
| `Realtime.RunValid` | src/utils/realtime.ts:1-19 | Every run of starts, stops and ticks keeps the invariant. |
| `Realtime.Run` | src/utils/realtime.ts:1-19 | A run of starts, stops and ticks. Its own contract bounds only the number of firings. Its properties are stated by `Realtime.RunValid` and `Realtime.RunTimerIsLatest`. |
| `Realtime.RunTimerIsLatest` | src/utils/realtime.ts:6-17 | Over any run, a running timer is the most recently created one. |
| `Presets.FromJson` | src/hooks/useFilterPresets.ts:18-34 | A value that passes the validator gives a preset whose filters are an object. |
| `Presets.IsValidPreset` | src/hooks/useFilterPresets.ts:18-34 | `isValidFilterPreset`. It has no contract of its own. `Presets.FromJson`, `Presets.ToJson` and `Presets.StorageRoundTrip` state what passing it means. |
| `Presets.ToJson` | src/hooks/useFilterPresets.ts:18-34 | A stored preset passes the validator. |
| `Presets.ValidPresets` | src/hooks/useFilterPresets.ts:44 | The filtered list is no longer than the array and holds only valid presets. |
| `Presets.InitialPresets` | src/hooks/useFilterPresets.ts:36-50 | Missing storage, unparsable text or a non-array gives `[]`. The list holds only valid presets. |
| `Presets.Serialize` | src/hooks/useFilterPresets.ts:60 | What is stored is an array with one element per preset. |
| `Presets.StorageRoundTrip` | src/hooks/useFilterPresets.ts:36-62 | Reading back a stored list of presets whose filters are objects gives the same list. |
| `Presets.InitialKeepsValid` | src/hooks/useFilterPresets.ts:43-45 | A valid element is kept in place and an invalid one is dropped. |
| `Presets.Save` | src/hooks/useFilterPresets.ts:52-63 | Saving appends one preset at the end and leaves the earlier ones unchanged. |
| `Presets.Load` | src/hooks/useFilterPresets.ts:65-71 | Loading gives the filters of the first preset with the id. It gives nothing exactly when no preset has the id. |
| `Presets.Delete` | src/hooks/useFilterPresets.ts:73-79 | Deleting removes every preset with the id and keeps every other preset. Order and repetitions are stated by `Presets.DeleteAppend`. |
| `Presets.DeleteAppend` | src/hooks/useFilterPresets.ts:73-79 | `deletePreset` is a filter. Deleting from two runs of presets is deleting from each, so the kept presets stay in order with their repetitions. |
| `Presets.DeleteOne` | src/hooks/useFilterPresets.ts:73-79 | One preset is dropped exactly when it has the id. |
| `Presets.LoadAfterSave` | src/hooks/useFilterPresets.ts:52-71 | Loading a fresh id right after saving it gives the saved filters. With a used id the older preset wins. |
| `Presets.SaveKeepsOtherLoads` | src/hooks/useFilterPresets.ts:52-71 | Saving does not change what other ids load. |
| `Presets.LoadAfterDelete` | src/hooks/useFilterPresets.ts:65-79 | After deleting an id nothing loads under it, and other ids load as before. |
| `Presets.DeleteIsFilter` | src/hooks/useFilterPresets.ts:73-79 | Deleting an id from a list followed by presets with other ids keeps that tail as it is, in order. |
| `Presets.SaveThenDelete` | src/hooks/useFilterPresets.ts:52-79 | Saving a fresh id and deleting it gives back the list. |
| `Moderation.ParseReason` | src/components/RejectionModal/RejectionModal.tsx:47-56 | A recognised value is exactly the text of the reason it names. |
| `Moderation.ParseReasonExactlyTexts` | src/components/RejectionModal/RejectionModal.tsx:47-56 | Every reason's text is recognised as that reason. Nothing but the six texts is recognised. |
| `Moderation.SelectReason` | src/components/RejectionModal/RejectionModal.tsx:45-60 | A recognised value selects its reason. Any other value leaves the selection unchanged. |
| `Moderation.SelectOptionAgrees` | src/components/RejectionModal/RejectionModal.tsx:45-59 | On every option the select offers, the checked handler picks the option's own reason. That is the reason the unchecked cast of the inline dialogs (`src/pages/AdDetail/AdDetail.tsx:345` and `:388`) stores, so the two writings agree. |
| `Moderation.RenderDialog` | src/components/RejectionModal/RejectionModal.tsx:68-86 | The free-text field is shown exactly for "Другое". The confirm button is disabled exactly while loading. |
| `Moderation.ReasonValue` | src/pages/AddDetail/AddDetail.tsx:71-73 | With "Другое" the reason text is the free text. Otherwise it is the selected reason's own text. |
| `Moderation.BuildPayload` | src/pages/AddDetail/AddDetail.tsx:90-99 | The payload rule: <ul><li>A blank reason text gives no payload.</li><li>Otherwise the payload carries the selected reason.</li><li>Its comment is the comment, or the reason text when the comment is empty.</li></ul> |
| `Moderation.OnlyBlankCustomReasonAborts` | src/pages/AdDetail/AdDetail.tsx:75-78 | The action is abandoned exactly when "Другое" is selected with a blank free text. |
| `Moderation.Settle` | src/pages/AddDetail/AddDetail.tsx:100-107 | Success replaces the ad, closes that dialog and clears the comment and free text. Failure changes nothing else. Loading ends either way. |
| `Moderation.SubmitModeration` | src/pages/AddDetail/AddDetail.tsx:80-108 | Without an ad or with a blank reason nothing is sent and nothing changes. Otherwise one call with the payload is sent and the state is settled. |
| `Moderation.SubmitApprove` | src/pages/AddDetail/AddDetail.tsx:56-69 | Without an ad nothing is sent. Otherwise the ad's id is sent, success replaces the ad, and loading ends either way. |
| `Moderation.RejectAndRequestChangesAgree` | src/pages/AdDetail/AdDetail.tsx:71-119 | Reject and request-changes send under the same conditions and differ only in the dialog they close. |
| `Moderation.FindIndex` | src/pages/AddDetail/AddDetail.tsx:134 | `findIndex` gives the first position of the id, or -1 exactly when it is absent. |
| `Moderation.NextAdId` | src/pages/AdDetail/AdDetail.tsx:133-136 | Next moves to the following id exactly when the current one is found and is not last. |
| `Moderation.PrevAdId` | src/pages/AdDetail/AdDetail.tsx:154-157 | Previous moves to the preceding id exactly when the current one is found and is not first. |
| `Moderation.AdjacentAd` | src/pages/AddDetail/AddDetail.tsx:134-143 | `loadAdjacentAd` as one function. It has no contract of its own. `Moderation.AdjacentAdAgrees` proves it equal to `Moderation.NextAdId` and `Moderation.PrevAdId`. |
| `Moderation.AdjacentAdAgrees` | src/pages/AddDetail/AddDetail.tsx:134-143 | The one-function writing of neighbour navigation agrees with the two-function writing on every list. |
| `Moderation.Navigate` | src/pages/AddDetail/AddDetail.tsx:122-147 | Without an ad or with a failed listing there is no navigation. Otherwise the target is the neighbour in the listing. |
| `Moderation.OnRejectKey` | src/pages/AddDetail/AddDetail.tsx:163-167 | The reject key opens the dialog exactly when its guard holds, and changes nothing else. |
| `Moderation.ShortcutsMatchButtons` | src/pages/AddDetail/AddDetail.tsx:158-199 | Each shortcut fires exactly when its button is enabled: approve and reject when their buttons are, reject only with the dialog closed, and the arrow keys exactly when the previous and next buttons are. |
| `Moderation.OnNavigateKey` | src/pages/AddDetail/AddDetail.tsx:168-177 | While no action runs, an arrow key goes where its button goes. While one runs it goes nowhere. Any target is an id of the listing. |
| `Keyboard.HandleKeyDown` | src/hooks/useKeyboardShortcuts.ts:12-46 | The default is prevented exactly for a recognised key. Its callback runs exactly when it was supplied. |
| `Keyboard.Match` | src/hooks/useKeyboardShortcuts.ts:14-43 | Which shortcut a key names on a target. It has no contract of its own. Its bindings are stated by `Keyboard.ApproveKeys`, `Keyboard.RejectKeys`, `Keyboard.NavigationKeys`, `Keyboard.TextFieldOnlySlash` and `Keyboard.OtherKeysIgnored`. |
| `Keyboard.TextFieldOnlySlash` | src/hooks/useKeyboardShortcuts.ts:14-20 | On a text field only `/` has an effect. |
| `Keyboard.ApproveKeys` | src/hooks/useKeyboardShortcuts.ts:22-26 | Approve is bound to `a` and `A`, and to nothing else. |
| `Keyboard.RejectKeys` | src/hooks/useKeyboardShortcuts.ts:27-30 | Reject is bound to `d` and `D`, and to nothing else. |
| `Keyboard.NavigationKeys` | src/hooks/useKeyboardShortcuts.ts:31-42 | The arrows select next and previous. `/` focuses the search field. |
| `Keyboard.OtherKeysIgnored` | src/hooks/useKeyboardShortcuts.ts:22-43 | An unrecognised key prevents nothing and calls nothing. |
| `Stats.CategoriesChartInvertible` | src/pages/Stats/Stats.tsx:65 | The category entries can be read back from the chart data. |
| `Stats.TotalReviewed` | src/pages/Stats/Stats.tsx:77-87 | The four arms of the switch collapse to two cases: `today` shows the today count, and `week`, `month` and every other period show the overall count. Its partners are `Stats.TotalReviewedIgnoresPeriodCounts` and `Export.TotalReviewedInExport`. |
| `Stats.TotalReviewedIgnoresPeriodCounts` | src/pages/Stats/Stats.tsx:77-87 | The figure shown never depends on the week or month counters of the summary, even for the `week` and `month` periods. |
| `Stats.DecisionsChart` | src/pages/Stats/Stats.tsx:89-93 | Three entries, approved, rejected and sent back, in that order, under three different captions. Looking the figures up by caption gives back the decision counts (`Stats.ReadDecisions`). Its partner is `Export.DecisionRowsMatchChart`. |
| `Stats.CategoriesChart` | src/pages/Stats/Stats.tsx:65 | One entry per category entry, in order, with its name and count. That nothing is lost is carried by `Stats.CategoriesChartInvertible`. |
| `Stats.LoadStats` | src/pages/Stats/Stats.tsx:50-71 | Success replaces all four data sets and the chart. Failure keeps the previous data. Loading ends either way. |
| `Stats.LoadStatsKeepsChartInSync` | src/pages/Stats/Stats.tsx:61-65 | A load keeps the chart data in step with the categories held, whatever the outcome. |
| `Stats.StatsRequests` | src/pages/Stats/Stats.tsx:53-59 | Its own contract gives only the count. The keys and queries are stated by `Stats.StatsRequestsDistinct`. |
| `Stats.StatsRequestsDistinct` | src/pages/Stats/Stats.tsx:53-59 | The four requests register four different keys, so none cancels another. For a non-empty period each asks for exactly `period=<p>`. |
| `Export.LabelledRow` | src/utils/export.ts:14-21 | A labelled line has no line break when its caption and unit have none. |
| `Export.SummaryRows` | src/utils/export.ts:13-21 | Its own contract gives only the count of eight lines. The fields of each line are stated by `Export.SummaryRowFields`. |
| `Export.SummaryRowFields` | src/utils/export.ts:14-21 | Each summary line splits into its caption and its figure with the unit. A count reads back as the number. |
| `Export.DecisionRows` | src/utils/export.ts:30-32 | Three decision lines, none with a line break. |
| `Export.DecisionRowsMatchChart` | src/utils/export.ts:29-32 | Each exported decision line splits into the name and value of the matching decision-chart entry, with `%`. |
| `Export.TotalReviewedInExport` | src/pages/Stats/Stats.tsx:77-87 | The total the page shows for a period is the figure on the export's first summary line, or on the second for `today`. |
| `Export.ActivityRows` | src/utils/export.ts:25-27 | One line per day, in input order. |
| `Export.CategoryRows` | src/utils/export.ts:36-38 | One line per category entry, in entry order. |
| `Export.CsvRows` | src/utils/export.ts:9-38 | The row list has exactly 22 + days + categories rows. |
| `Export.CsvRowsLayout` | src/utils/export.ts:11-38 | The title, the summary, the day lines, the decision lines and the category lines each sit at their fixed positions. |
| `Export.CsvContent` | src/utils/export.ts:40-41 | The file text starts with the byte order mark. |
| `Export.ActivityRowRoundTrip` | src/utils/export.ts:26 | A day line reads back as the day, when the date has no comma. |
| `Export.CategoryRowRoundTrip` | src/utils/export.ts:37 | A category line reads back as the entry, when the name has no comma. |
| `Export.CsvLines` | src/utils/export.ts:40 | Splitting the text after the byte order mark on newlines gives back every row, when no date or name holds a newline. |
| `Labels.LabelOfKnown` | src/utils/status.ts:10 | In a well-formed table a known key shows its row's label. |
| `Labels.LabelIsKeyIffUnknown` | src/utils/status.ts:10 | In a well-formed table the label is the key itself exactly when the key is unknown. |
| `Labels.LabelOf` | src/utils/status.ts:10 | `map[key] \|\| key`. It has no contract of its own. `Labels.LabelOfKnown` and `Labels.LabelIsKeyIffUnknown` state it. |
| `Labels.StatusLabel` | src/utils/status.ts:3-11 | `getStatusLabel`. It has no contract of its own. `Labels.StatusLabels` states it. |
| `Labels.PriorityLabel` | src/utils/status.ts:13-19 | `getPriorityLabel`. It has no contract of its own. `Labels.PriorityLabels` states it. |
| `Labels.ActionLabel` | src/utils/status.ts:21-28 | `getActionLabel`. It has no contract of its own. `Labels.ActionLabels` states it. |
| `Labels.StatusLabels` | src/utils/status.ts:3-11 | The four statuses get their fixed labels. Exactly the other strings are shown unchanged. |
| `Labels.PriorityLabels` | src/utils/status.ts:13-19 | The two priorities get their fixed labels. Exactly the other strings are shown unchanged. |
| `Labels.ActionLabels` | src/utils/status.ts:21-28 | The three actions get their fixed labels. Exactly the other strings are shown unchanged. |
| `TimeFormat.MinutesSeconds` | src/utils/format.ts:36-37 | The seconds split into minutes and a remainder under 60 that recombine to the input. |
| `TimeFormat.FormatTime` | src/utils/format.ts:35-39 | `formatTime` on whole seconds. It has no contract of its own. `TimeFormat.ParseFormatTime` and `TimeFormat.FormatTimeExamples` state it. |
| `TimeFormat.ParseTime` | src/utils/format.ts:35-39 | The reading of `<m>м <r>с` back into seconds. It is the partner of `TimeFormat.FormatTime` in `TimeFormat.ParseFormatTime`. |
| `TimeFormat.ParseFormatTime` | src/utils/format.ts:35-39 | `<m>м <r>с` reads back as the number of seconds. |
| `TimeFormat.FormatTimeExamples` | src/__tests__/utils/format.test.ts:52-54 | 60 gives `1м 0с`, 125 gives `2м 5с` and 30 gives `0м 30с`. |
| `InputField.InputId` | src/components/Input/Input.tsx:11 | The id rule: <ul><li>An explicit id wins.</li><li>With neither an id nor a label there is no id.</li><li>Otherwise the id is the label's slug, `InputField.LabelSlug`.</li></ul> |
| `InputField.LabelSlug` | src/components/Input/Input.tsx:11 | The slug starts with `input-` and holds no whitespace after it. How it reads each run is stated by `InputField.SlugRun`. |
| `InputField.SlugRun` | src/components/Input/Input.tsx:11 | The slug reads a label run by run. A whitespace-free head is lower-cased, the whitespace run after it becomes one `-` however long it is, and the rest is read the same way. |
| `InputField.InputIdOfPlainLabel` | src/components/Input/Input.tsx:11 | A label without whitespace is only lower-cased. |
| `InputField.SlugOfTwoWords` | src/components/Input/Input.tsx:11 | Two words with one space give the lower-cased words joined by `-`. |
| `InputField.InputIdExample` | src/__tests__/components/Input.test.tsx:17-18 | `Test Label` gives `input-test-label`. |
| `InputField.ClassList` | src/components/Input/Input.tsx:12-14 | No class entry is empty. A truthy error adds the error class. Without an error only the base and extra classes remain. |
| `InputField.NonEmpty` | src/components/Input/Input.tsx:13 | `filter(Boolean)` keeps exactly the non-empty entries. |
| `InputField.ErrorClassIffError` | src/components/Input/Input.tsx:12-14 | A distinct error class is present exactly when the error prop is truthy. |
| `InputField.ClassName` | src/components/Input/Input.tsx:12-14 | The class list joined by spaces. It has no contract of its own. `InputField.ClassList` and `InputField.ErrorClassIffError` state the list. |
| `Theme.InitialTheme` | src/hooks/useTheme.ts:8-11 | A non-empty stored value is used as it is. Otherwise the theme is `light`. |
| `Theme.Toggle` | src/hooks/useTheme.ts:18-20 | The toggle gives `dark` exactly from `light`, and `light` otherwise. |
| `Theme.ToggleTwice` | src/hooks/useTheme.ts:18-20 | Toggling twice restores `light` or `dark`. |
| `Theme.ToggleTwiceUnknown` | src/hooks/useTheme.ts:18-20 | An unknown stored theme becomes `light`, then `dark`. |
| `Domain.ParseStatus` | src/pages/AddsList/AddsList.tsx:41-45 | A recognised status is exactly the one its name denotes. |
| `Domain.ParseStatusName` | src/pages/AddsList/AddsList.tsx:41-45 | Every status name is recognised as its own status. |
| `Text.Trim` | src/pages/AddDetail/AddDetail.tsx:91 | `trim()` is empty exactly for a blank string. Otherwise it neither starts nor ends with whitespace. |
| `Text.ToLower` | src/components/Input/Input.tsx:11 | `toLowerCase` maps each character and keeps the length. |
| `Text.Split` | src/pages/AddsList/AddsList.tsx:46 | `split` gives at least one piece, and no piece holds the separator. |
| `Text.JoinSplit` | src/pages/AddsList/AddsList.tsx:46 | Joining the pieces of a split gives back the string. |
| `Text.SplitJoin` | src/pages/AddsList/AddsList.tsx:192 | Splitting a join gives back the pieces, when none holds the separator. |
| `Text.CollapseWhitespace` | src/components/Input/Input.tsx:11 | A non-empty blank string becomes a single dash. The general case is stated by `Text.CollapseRun` and `Text.CollapseLeavesNoWhitespace`. |
| `Text.CollapseRun` | src/components/Input/Input.tsx:11 | A whitespace run followed by a non-whitespace character, or by nothing, becomes one dash, however long the run is. |
| `Text.CollapseLeavesNoWhitespace` | src/components/Input/Input.tsx:11 | After `replace(/\s+/g, '-')` no whitespace is left. |
| `Text.CollapseWords` | src/components/Input/Input.tsx:11 | Two words separated by one space are joined by the dash. |
| `Text.CollapseWithoutWhitespace` | src/components/Input/Input.tsx:11 | A string without whitespace is unchanged by the replacement. |
| `Text.ParseNatToString` | src/utils/format.ts:38 | The decimal rendering of a natural number reads back as that number. |
| `Text.NumberOfIntToString` | src/pages/AddsList/AddsList.tsx:80 | `Number(String(i))` is `i`. |
| `Text.IntToStringInjective` | src/api/client.ts:100 | Different integers have different renderings. |
| `Text.NumberOf` | src/pages/AddsList/AddsList.tsx:80 | `Number` of a blank string is 0. |

## Left out

- Moderation.SelectOptionAgrees: the inline dialogs of `src/pages/AdDetail/AdDetail.tsx:345,388` cast the select's value to a reason without a check. The model states the agreement only for the six values the select offers, because a select reports nothing else. A value from outside the list cannot be written as a `RejectionReason`, so the cast of such a value is not modelled.
- Rendering is left out: JSX, CSS classes beyond the `Input` class list, the presentational components and routing.
- The HTTP transport is left out: axios, interceptors and the actual calls. A request's result is an input. The percent-encoding `URLSearchParams.toString` applies (section 5 of the WHATWG URL Standard) is not modelled. A query is its list of pairs, and `Url` writes them without encoding.
- Asynchrony is reduced to outcomes. `Promise.all` is all-succeeded or some-failed. `setInterval` is a timer record plus an explicit tick. The order in which concurrent requests settle is not modelled.
- React state, effects and the unmount hooks of `useApi.ts` are left out. They only call the registry operations modelled here.
- `localStorage`, `JSON.parse` and `JSON.stringify` are left out. The parsed value is an input. JSON object member order is not modelled, because objects are maps.
- Preset ids come from `Date.now()` and are passed in as parameters. `handleSavePreset` and `handleLoadPreset` of the list page are left out: they only assemble a filter record for the preset operations modelled here.
- `Number(s)` is modelled for optionally signed decimal integers with surrounding whitespace, and for the blank string. Fractions, exponents, hex, `Infinity` and the like are read as not-a-number. Filter values are integers.
- `Text.ToLower`: only the Latin and basic Russian alphabets are lower-cased. Other characters are kept as they are.
- Statistics figures are integers. The floating-point percentages and average time, `formatPercentage`, the other locale formatting and `formatTime` on negative or fractional input are left out.
- `exportStatsToPDF` is left out, and so are the CSV file download, the Blob, the link and the date in the file name.
- The `!adId` guard of the detail page's `loadAd` is not modelled, and neither is its loading flag.
- The insertion order of the cancel-handle `Map` is not modelled. Cancel-all cancels a set of handles.
- Inherited object property names are not modelled. A key that happens to be an `Object.prototype` member, such as `toString`, is treated like any unknown key in the label tables and the preset validator.
- The list page keeps the category as the text chosen. It is converted with `Number` when the load request is built, which is what the page sends.
- `Stats.StatsRequests`: its own contract gives only the count. The keys and queries are stated by `Stats.StatsRequestsDistinct`.
- `Realtime.Run`: its own contract gives only a bound on the number of firings. The run's properties are stated by `Realtime.RunValid` and `Realtime.RunTimerIsLatest`.
- `Moderation.Navigate`: both detail pages are given the same listing of ids. The version in `src/pages/AddDetail/AddDetail.tsx:134-142` reads the listing from `response.adds` and the one in `src/pages/AdDetail/AdDetail.tsx:133,154` from `response.ads`. With one and the same server answer, one of the two finds no listing and does not navigate. The model does not tell the two field names apart, so `Moderation.AdjacentAdAgrees` holds for the same listing only.
