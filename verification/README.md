# MariannePV photo viewer: a Dafny model of its core

MariannePV is an iOS photo viewer. It pages through the Lorem Picsum
listing (`https://picsum.photos/v2/list`) and keeps the records locally.
It shows them in a masonry grid and caches the images in memory and on disk.
This project models the logic behind that, as pure Dafny functions over
immutable data, and proves what the code promises:

- `url_path.dfy` (`UrlPath`): the disk file name of an image URL, the last
  non-empty `/`-segment or `"default"`.
- `photo_cache.dfy` (`PhotoCache`): `CollectionViewPhotoService`. Memory map
  keyed by full URL, files keyed by last segment, 3600 s life time,
  placeholder plus one load on a miss.
- `photo_layout.dfy` (`PhotoLayout`): `PhotoLayout.prepare` and its queries,
  in integers, with a closed form of every frame.
- `page_request.dfy` (`PageRequest`): the page request both network layers
  build.
- `network_service.dfy` (`NetworkService`): `ItemNetworkClient` and
  `NetworkService` with its `nextFromPage` counter.
- `network_manager.dfy` (`NetworkManager`): the older `NetworkManager`
  singleton.
- `network_revisions.dfy` (`NetworkRevisions`): where the two network
  layers agree and where they differ.
- `record_store.dfy` (`RecordStore`), `key_sets.dfy` (`KeySets`): the Realm
  records as a map from id to record, with upsert, delete-all and the
  sorted `photos` view. The id type is abstract (`Common.PhotoId`), and
  the order `sorted(byKeyPath: "id")` uses is a parameter: any strict
  total order.
- `pagination.dfy` (`Pagination`): screen state, events, the prefetch
  trigger and the collection-view data source shared by both screens.
- `list_screen.dfy` (`ListScreen`): `ListViewController` as a state machine.
- `main_screen.dfy` (`MainScreen`): the older `MainViewController` and its
  collection-view extension.
- `screen_revisions.dfy` (`ScreenRevisions`): how the two screens differ.
- `common.dfy` (`Common`): `Option`, `Result`, the error cases, photo
  records and their abstract id type.

Foreign calls are parameters:
- the clock and whether a caches directory exists (`PhotoCache.Env`);
- image decoding, PNG encoding and URL parsing (`PhotoCache.Codecs`);
- the data task's outcome (`Common.Transport`);
- the JSON decoder and the `as? [PhotoElement]` cast (function parameters).

Dispatch to background and main queues is sequentialised: each event is
one step. This fixes one interleaving of the background blocks; see
"## Left out".

`CollectionViewPhotoService` never evicts an image from memory. The
constant `Int.imagesToKeepInRAMCache` is declared but not used anywhere.
`PhotoCache.StepNeverEvicts` proves the memory map only grows.

## Model

| member | source | states |
|---|---|---|
| UrlPath.SplitFrom | MariannePV/MariannePV/App/BusinessLogic/CollectionViewPhotoService.swift:96 | every piece produced is non-empty and slash-free, and the pieces already closed are kept as a prefix |
| UrlPath.Split | MariannePV/MariannePV/App/BusinessLogic/CollectionViewPhotoService.swift:96 | `split(separator: "/")` yields only non-empty, slash-free pieces |
| UrlPath.FileName | MariannePV/MariannePV/App/BusinessLogic/CollectionViewPhotoService.swift:96 | the disk file name is always a non-empty, slash-free piece (the last one, or "default") |
| UrlPath.SplitFromPlain | MariannePV/MariannePV/App/BusinessLogic/CollectionViewPhotoService.swift:96 | a slash-free segment is split into itself |
| UrlPath.SplitFromLast | MariannePV/MariannePV/App/BusinessLogic/CollectionViewPhotoService.swift:96 | after a separator, a final slash-free segment is the last piece of the split |
| UrlPath.FileNameOfLastSegment | MariannePV/MariannePV/App/BusinessLogic/CollectionViewPhotoService.swift:96 | the file name of `p + x` is `x` whenever `x` is a segment and `p` is empty or ends with "/" |
| UrlPath.SplitFromTrailingSlash | MariannePV/MariannePV/App/BusinessLogic/CollectionViewPhotoService.swift:96 | a trailing separator does not change the split |
| UrlPath.FileNameIgnoresTrailingSlash | MariannePV/MariannePV/App/BusinessLogic/CollectionViewPhotoService.swift:96 | `url` and `url + "/"` share one file name |
| UrlPath.SplitFromAddsNothing | MariannePV/MariannePV/App/BusinessLogic/CollectionViewPhotoService.swift:96 | the split adds no piece exactly when only separators remain |
| UrlPath.FallbackIffOnlySlashes | MariannePV/MariannePV/App/BusinessLogic/CollectionViewPhotoService.swift:96 | the fallback "default" is used exactly for strings made of separators only |
| UrlPath.RelativePath | MariannePV/MariannePV/App/BusinessLogic/CollectionViewPhotoService.swift:97 | the path string is `images/` followed by one non-empty, slash-free name; for the names `.` and `..` that string denotes a directory rather than a file |
| UrlPath.RelativePathInjective | MariannePV/MariannePV/App/BusinessLogic/CollectionViewPhotoService.swift:96-97 | two URLs get the same file path exactly when they get the same file name |
| UrlPath.SharedFileName | MariannePV/MariannePV/App/BusinessLogic/CollectionViewPhotoService.swift:96-97 | URLs that differ only before their last segment share one disk file |
| PhotoCache.FilePath | MariannePV/MariannePV/App/BusinessLogic/CollectionViewPhotoService.swift:92-98 | there is a path exactly when the caches directory exists, and it is `images/<file name>` |
| PhotoCache.Fresh | MariannePV/MariannePV/App/BusinessLogic/CollectionViewPhotoService.swift:114-116 | a file counts while its age, now minus its modification time, is at most 3600 s |
| PhotoCache.ReadFile | MariannePV/MariannePV/App/BusinessLogic/CollectionViewPhotoService.swift:108-118 | the disk read succeeds exactly when the file exists, is at most 3600 s old and decodes, and returns the decoded file |
| PhotoCache.Resolve | MariannePV/MariannePV/App/BusinessLogic/CollectionViewPhotoService.swift:46-63 | memory hit first, unchanged state; else a fresh disk file, promoted to memory under the full URL; else the "loadingBarSmile" placeholder and exactly one load for (slot, url) when the URL parses; disk never written |
| PhotoCache.SaveFile | MariannePV/MariannePV/App/BusinessLogic/CollectionViewPhotoService.swift:100-106 | overwrites the URL's file with the PNG data stamped now; does nothing without a caches directory or PNG data; memory untouched |
| PhotoCache.Complete | MariannePV/MariannePV/App/BusinessLogic/CollectionViewPhotoService.swift:69-87 | a failed fetch or undecodable bytes change nothing and reload nothing; a decoded image goes to memory under the URL, reloads exactly its slot, and is saved to disk |
| PhotoCache.Step | MariannePV/MariannePV/App/BusinessLogic/CollectionViewPhotoService.swift:46-87 | a lookup never touches the files and a memory hit changes nothing; a failed or undecodable load changes nothing; a decoded load stores its image under the requested URL and keeps every other memory entry |
| PhotoCache.StepNeverEvicts | MariannePV/MariannePV/App/BusinessLogic/CollectionViewPhotoService.swift:46-124 | no event removes a memory entry or a file, so the memory map only grows |
| PhotoCache.FailedLoadChangesNothing | MariannePV/MariannePV/App/BusinessLogic/CollectionViewPhotoService.swift:74-77 | a failed fetch leaves both tiers as they were |
| PhotoCache.LoadThenHit | MariannePV/MariannePV/App/BusinessLogic/CollectionViewPhotoService.swift:80-85 | after a successful load the same URL is a memory hit with no new load |
| PhotoCache.DiskHitPromotes | MariannePV/MariannePV/App/BusinessLogic/CollectionViewPhotoService.swift:114-123 | a disk hit is stored in memory, so the next lookup is a memory hit |
| PhotoCache.StaleFileIsMiss | MariannePV/MariannePV/App/BusinessLogic/CollectionViewPhotoService.swift:114-118 | a file older than the life time is a miss and is not deleted |
| PhotoCache.SharedFileSeparateMemory | MariannePV/MariannePV/App/BusinessLogic/CollectionViewPhotoService.swift:80-105 | two URLs with one last segment get two memory entries but one file, holding the later image |
| PhotoCache.DiskServesOtherUrl | MariannePV/MariannePV/App/BusinessLogic/CollectionViewPhotoService.swift:96-118 | a fresh service serves a URL from the file saved for another URL with the same last segment |
| PhotoCache.PicsumScenario | MariannePV/MariannePV/App/BusinessLogic/CollectionViewPhotoService.swift:46-85 | first lookup: placeholder and one load; after it succeeds: a memory hit on the loaded image |
| PhotoLayout.CeilDiv | MariannePV/MariannePV/Core/Layouts/PhotoLayout.swift:35 | `ceil(width / columns)`: the least multiple count covering the width |
| PhotoLayout.Prepare | MariannePV/MariannePV/Core/Layouts/PhotoLayout.swift:25-71 | the loop leaves exactly the closed-form layout: frames for items 0..n-1 and height `rows * cellHeight`, or an empty cache and the old height without a view or items |
| PhotoLayout.AttributesForItem | MariannePV/MariannePV/Core/Layouts/PhotoLayout.swift:79-81 | an item has attributes exactly when it is cached, and they are the cached ones |
| PhotoLayout.Intersects | MariannePV/MariannePV/Core/Layouts/PhotoLayout.swift:75 | `CGRect.intersects`: the two rectangles overlap in both axes with positive extent |
| PhotoLayout.AttributesInRect | MariannePV/MariannePV/Core/Layouts/PhotoLayout.swift:73-77 | returns exactly the cached attributes whose frame intersects the rectangle |
| PhotoLayout.ContentSize | MariannePV/MariannePV/Core/Layouts/PhotoLayout.swift:83-85 | the content is the view's width (0 without a view) by `totalCellHeight` |
| PhotoLayout.IsBigIffLastOfGroup | MariannePV/MariannePV/Core/Layouts/PhotoLayout.swift:44 | `(i + 1) % (columns + 1) == 0` exactly for the last item of each group |
| PhotoLayout.EndsGroupRowIff | MariannePV/MariannePV/Core/Layouts/PhotoLayout.swift:58 | `(i + 2) % (columns + 1) == 0` exactly for the last small item of each group |
| PhotoLayout.LookupAfterPrepare | MariannePV/MariannePV/Core/Layouts/PhotoLayout.swift:40-81 | after `prepare()` exactly the items 0..n-1 have attributes, each its closed-form frame |
| PhotoLayout.EmptyPrepareKeepsHeight | MariannePV/MariannePV/Core/Layouts/PhotoLayout.swift:27-32 | without a view or with no items the cache is emptied and the content height kept |
| PhotoLayout.BigCellShape | MariannePV/MariannePV/Core/Layouts/PhotoLayout.swift:44-51 | a big cell sits at x = 0 with the full width, and the next item is one cell lower at x = 0 |
| PhotoLayout.SmallCellShape | MariannePV/MariannePV/Core/Layouts/PhotoLayout.swift:53-56 | a small cell is `ceil(width / columns)` wide at x = its position in the group times that width |
| PhotoLayout.RowBreak | MariannePV/MariannePV/Core/Layouts/PhotoLayout.swift:58-63 | after the last small cell of a group the next item starts one cell lower at x = 0 |
| PhotoLayout.SameRow | MariannePV/MariannePV/Core/Layouts/PhotoLayout.swift:64-66 | inside a row the next small cell sits one small width to the right |
| PhotoLayout.RowStep | MariannePV/MariannePV/Core/Layouts/PhotoLayout.swift:40-67 | the row index grows by 0 or 1 from one item to the next |
| PhotoLayout.RowMonotone | MariannePV/MariannePV/Core/Layouts/PhotoLayout.swift:40-67 | the row index never decreases with the item index |
| PhotoLayout.YMonotone | MariannePV/MariannePV/Core/Layouts/PhotoLayout.swift:40-67 | y never decreases with the item index |
| PhotoLayout.LastRow | MariannePV/MariannePV/Core/Layouts/PhotoLayout.swift:58-70 | the last item lies on the last counted row |
| PhotoLayout.FramesWithinContent | MariannePV/MariannePV/Core/Layouts/PhotoLayout.swift:40-70 | every frame lies within the content height, and the last one reaches it |
| PhotoLayout.EarlierRowAbove | MariannePV/MariannePV/Core/Layouts/PhotoLayout.swift:40-67 | an item on an earlier row ends above any item on a later row |
| PhotoLayout.SameRowLeftOf | MariannePV/MariannePV/Core/Layouts/PhotoLayout.swift:53-66 | of two items on one row the earlier ends left of the later |
| PhotoLayout.NoOverlap | MariannePV/MariannePV/Core/Layouts/PhotoLayout.swift:40-67 | frames of distinct items never overlap |
| PhotoLayout.ContentSizeAfterPrepare | MariannePV/MariannePV/Core/Layouts/PhotoLayout.swift:70-85 | after preparing n > 0 items the content is width by `rows * cellHeight` |
| PageRequest.DecimalString | MariannePV/MariannePV/App/BusinessLogic/Services/Network/NetworkService.swift:50 | `"\(page)"` is a non-empty string of digits without a leading zero |
| PageRequest.ParseDecimalString | MariannePV/MariannePV/App/BusinessLogic/Services/Network/NetworkService.swift:50 | the page number written into the query reads back unchanged |
| PageRequest.DecimalStringInjective | MariannePV/MariannePV/App/BusinessLogic/Services/Network/NetworkService.swift:50 | distinct pages give distinct query values |
| PageRequest.ForPage | MariannePV/MariannePV/App/BusinessLogic/Services/Network/NetworkService.swift:40-56 | a request exists exactly for page >= 1: GET, https, picsum.photos, /v2/list, then page=<page> and limit=30 |
| PageRequest.QueryString | MariannePV/MariannePV/App/BusinessLogic/Services/Network/NetworkService.swift:50-53 | the query items rendered as `name=value` pairs joined by `&` |
| PageRequest.UrlString | MariannePV/MariannePV/App/BusinessLogic/Services/Network/NetworkService.swift:53 | `urlConstructor.url`: scheme, `://`, host, path, `?` and the query items joined by `&` |
| PageRequest.ForPageUrl | MariannePV/MariannePV/App/BusinessLogic/Services/Network/NetworkService.swift:43-53 | the request renders as `https://picsum.photos/v2/list?page=<page>&limit=30` |
| NetworkService.ClientRequest | MariannePV/MariannePV/App/BusinessLogic/Services/Network/NetworkService.swift:38-76 | nothing sent and no completion below page 1; decodable data gives (photos, nil), undecodable (nil, failureInJSONDecoding), an error (nil, error), neither: no completion |
| NetworkService.Forward | MariannePV/MariannePV/App/BusinessLogic/Services/Network/NetworkService.swift:103-108 | an error wins unchanged; else a castable response gives (items, nil) and anything else (nil, badResponse); exactly one of items and error |
| NetworkService.FetchItems | MariannePV/MariannePV/App/BusinessLogic/Services/Network/NetworkService.swift:99-110 | always asks the client for page 1 and forwards its reply |
| NetworkService.FetchPaginatedItems | MariannePV/MariannePV/App/BusinessLogic/Services/Network/NetworkService.swift:112-124 | asks for the given page, forwards the reply, and sets the counter to page + 1 whatever the outcome |
| NetworkService.ErrorPassesThrough | MariannePV/MariannePVTests/NetworkServiceTests.swift:128-147 | a stub error reaches the caller unchanged with no items, for both fetches |
| NetworkService.StubItemsPassThrough | MariannePV/MariannePVTests/NetworkServiceTests.swift:38-47 | a stub array of photos reaches the caller as it is |
| NetworkService.PageBelowOneNeverCompletes | MariannePV/MariannePV/App/BusinessLogic/Services/Network/NetworkService.swift:40 | a partial fetch below page 1 never completes yet still moves the counter |
| NetworkService.EndToEnd | MariannePV/MariannePV/App/BusinessLogic/Services/Network/NetworkService.swift:60-74 | over the app's client each data-task outcome reaches the caller as classified |
| NetworkService.CounterFollowsLastPage | MariannePV/MariannePV/App/BusinessLogic/Services/Network/NetworkService.swift:123 | after a run of partial fetches the counter is one past the last page asked for |
| NetworkManager.Request | MariannePV/MariannePV/App/BusinessLogic/Network/NetworkManager.swift:74-114 | nothing sent and no completion below page 1; decodable data succeeds, undecodable fails with failureInJSONdecoding, an error fails with it, neither never completes |
| NetworkManager.Adapt | MariannePV/MariannePV/App/BusinessLogic/Network/NetworkManager.swift:49-53 | a success stays a success of the cast payload or []; any failure becomes .incorrectData |
| NetworkManager.LoadPhotos | MariannePV/MariannePV/App/BusinessLogic/Network/NetworkManager.swift:44-55 | always page 1, with the adapted completion |
| NetworkManager.LoadPartPhotos | MariannePV/MariannePV/App/BusinessLogic/Network/NetworkManager.swift:57-70 | asks for the given page, adapts the completion, and sets the shared counter to page + 1 |
| NetworkManager.OnlyIncorrectData | MariannePV/MariannePV/App/BusinessLogic/Network/NetworkManager.swift:51-53 | no load ever reports an error other than .incorrectData |
| NetworkManager.DecodedAlwaysSucceeds | MariannePV/MariannePV/App/BusinessLogic/Network/NetworkManager.swift:50 | decodable data whose payload does not cast succeeds with [] |
| NetworkManager.PartBelowOne | MariannePV/MariannePV/App/BusinessLogic/Network/NetworkManager.swift:57-78 | below page 1 a partial load sends nothing, never completes, and still moves the counter |
| NetworkRevisions.SameRequest | MariannePV/MariannePV/App/BusinessLogic/Network/NetworkManager.swift:78-94 | both revisions send the same request for a page, and none below page 1 |
| NetworkRevisions.AgreeOnItems | MariannePV/MariannePV/App/BusinessLogic/Services/Network/NetworkService.swift:99-110 | data that decodes and casts gives the same items in both revisions |
| NetworkRevisions.DifferOnCast | MariannePV/MariannePV/App/BusinessLogic/Services/Network/NetworkService.swift:105-108 | an uncastable payload is badResponse for the service but an empty success for the manager |
| NetworkRevisions.DifferOnDecoding | MariannePV/MariannePV/App/BusinessLogic/Services/Network/NetworkService.swift:65-67 | undecodable data keeps its decoding error in the service but becomes .incorrectData in the manager |
| NetworkRevisions.DifferOnTransportError | MariannePV/MariannePV/App/BusinessLogic/Services/Network/NetworkService.swift:68-73 | a transport error reaches the service caller unchanged but the manager caller as .incorrectData |
| NetworkRevisions.NeitherCompletesOnSilence | MariannePV/MariannePV/App/BusinessLogic/Services/Network/NetworkService.swift:60-74 | neither revision completes when the data task brings neither data nor error |
| NetworkRevisions.SameCounter | MariannePV/MariannePV/App/BusinessLogic/Network/NetworkManager.swift:28 | both counters start at 2 and move to page + 1 |
| KeySets.LeastExists | MariannePV/MariannePV/App/Flow/Screens/ListViewController.swift:17 | under any strict total order, a non-empty set of ids has a least element |
| KeySets.LeastUnique | MariannePV/MariannePV/App/Flow/Screens/ListViewController.swift:17 | under a strict total order that least element is unique, so sorting by id is determined |
| KeySets.Least | MariannePV/MariannePV/App/Flow/Screens/ListViewController.swift:17 | the least id of a non-empty set in the id order |
| KeySets.SortedKeys | MariannePV/MariannePV/App/Flow/Screens/ListViewController.swift:17 | the ids in ascending order: same elements, same count, strictly ascending in the id order |
| RecordStore.Upsert | MariannePV/MariannePV/App/BusinessLogic/Services/Realm/RealmManager.swift:38-41 | the stored ids grow by exactly the page's ids, and every record stays under its own id |
| RecordStore.UpsertKeeps | MariannePV/MariannePV/App/BusinessLogic/Services/Realm/RealmManager.swift:38-41 | records whose id is not on the page are kept unchanged |
| RecordStore.UpsertLastWins | MariannePV/MariannePV/App/BusinessLogic/Services/Realm/RealmManager.swift:38-41 | the last record of the page carrying an id is the one stored under it |
| RecordStore.UpsertIdempotent | MariannePV/MariannePV/App/BusinessLogic/Services/Realm/RealmManager.swift:38-41 | adding the same page twice is the same as adding it once |
| RecordStore.Replace | MariannePV/MariannePV/App/BusinessLogic/Services/Realm/RealmManager.swift:54-58 | `deleteAll()` then `add(objects:)`: exactly the page's ids, last record of each id wins |
| RecordStore.SortedView | MariannePV/MariannePV/App/Flow/Screens/ListViewController.swift:15-18 | `photos` lists every stored record exactly once, in strictly ascending order of the id type's order |
| RecordStore.RecordsInOrder | MariannePV/MariannePV/App/Flow/Screens/ListViewController.swift:17 | records read under ascending ids come out in id order |
| RecordStore.RecordsCover | MariannePV/MariannePV/App/Flow/Screens/ListViewController.swift:15-18 | records read under every stored id include every stored id |
| RecordStore.PhotoAt | MariannePV/MariannePV/App/Flow/Screens/ListViewController.swift:164 | row i exists exactly for 0 <= i < count, and shows the stored record with exactly i ids before it in the id order |
| RecordStore.RankOfRow | MariannePV/MariannePV/App/Flow/Screens/ListViewController.swift:15-18 | the record on row i has exactly i stored records whose id comes before it in the id order |
| RecordStore.RankInOrder | MariannePV/MariannePV/App/Flow/Screens/ListViewController.swift:17 | in an ascending listing of a key set, row i has i keys before it |
| RecordStore.IndexImageSize | MariannePV/MariannePV/App/Flow/Screens/ListViewController.swift:17 | distinct rows of an ascending listing carry distinct ids |
| Pagination.MaxRow | MariannePV/MariannePV/App/Flow/Screens/ListViewController.swift:278 | the maximum of the prefetched rows, or nothing for no rows |
| Pagination.ShouldPrefetch | MariannePV/MariannePV/App/Flow/Screens/ListViewController.swift:278-281 | the prefetch trigger: the largest prefetched row is past `count - 6` and nothing is loading |
| Pagination.ShouldPrefetchIff | MariannePV/MariannePV/App/Flow/Screens/ListViewController.swift:276-284 | the trigger fires exactly when some row is past `count - 6`, the rows are non-empty and nothing is loading |
| Pagination.AddPage | MariannePV/MariannePV/App/Flow/Screens/ListViewController.swift:81 | a partial page is upserted: ids grow by the page's, others kept; nothing without a store |
| Pagination.ReplaceWithPage | MariannePV/MariannePV/App/Flow/Screens/ListViewController.swift:121-124 | a full page replaces the store: exactly its ids, last record of each id wins |
| Pagination.NumberOfItems | MariannePV/MariannePV/App/Flow/Screens/MainViewController+CollectionView.swift:18-21 | the item count is the stored record count; no store traps |
| Pagination.RowAt | MariannePV/MariannePV/App/Flow/Screens/MainViewController+CollectionView.swift:23-48 | cell and selection of row i use the record of rank i in the id order; past the end, or without a store, there is none |
| Pagination.EveryRecordOnItsRankRow | MariannePV/MariannePV/App/Flow/Screens/ListViewController.swift:158-186 | every stored record is shown on the row of its rank |
| Pagination.ServiceOnViewLoad | MariannePV/MariannePV/App/Flow/Screens/ListViewController.swift:48-50 | the service `viewDidLoad` creates has an empty memory and the same files as the service before it |
| ListScreen.ClearImages | MariannePV/MariannePV/App/Flow/Screens/ListViewController.swift:120 | `images.removeAll()` empties memory and keeps the files |
| ListScreen.Step | MariannePV/MariannePV/App/Flow/Screens/ListViewController.swift:44-287 | loads start only at view load over an empty store, on a prefetch near the end while idle, or on refresh, each raising isLoading; the view load creates a new image service over the same files and changes nothing else; a starting prefetch only raises the flag and moves the counter past its page; completions lower the flag; failures change nothing else; a partial page is upserted and nothing else changes; a full page replaces the store and empties the memory tier, keeping the files; refresh resets the counter to 2 and changes nothing else |
| ListScreen.StepKeepsGood | MariannePV/MariannePV/App/Flow/Screens/ListViewController.swift:248-284 | a step keeps the counter at 2 or more and every record under its own id |
| ListScreen.RunKeepsGood | MariannePV/MariannePV/App/Flow/Screens/ListViewController.swift:248-284 | every screen reached from a new one keeps that invariant |
| ListScreen.PartialLoadsAreSent | MariannePV/MariannePV/App/Flow/Screens/ListViewController.swift:276-284 | every partial load a reachable screen starts asks for page 2 or later, so its request is sent |
| ListScreen.NoPrefetchWhileLoading | MariannePV/MariannePV/App/Flow/Screens/ListViewController.swift:280-283 | while isLoading is true a prefetch starts nothing and changes nothing |
| ListScreen.SecondPrefetchSuppressed | MariannePV/MariannePV/App/Flow/Screens/ListViewController.swift:65-97 | a prefetch that starts a load suppresses the next prefetch until a completion |
| ListScreen.CounterAsNetworkManager | MariannePV/MariannePV/App/BusinessLogic/Network/NetworkManager.swift:57-70 | the screen's counter after a partial start is the one `loadPartPhotos` leaves |
| ListScreen.RefreshRestartsPaging | MariannePV/MariannePV/App/Flow/Screens/ListViewController.swift:248-253 | after a refresh and its full load, the next triggering prefetch asks for page 2 |
| ListScreen.FullLoadForgetsImages | MariannePV/MariannePV/App/Flow/Screens/ListViewController.swift:116-128 | after a full load no image is served from memory; only a disk file can serve one |
| MainScreen.Step | MariannePV/MariannePV/App/Flow/Screens/MainViewController.swift:41-140 | isLoading is never raised; the view load creates a new image service over the same files; a starting prefetch only moves the counter past its page and one that starts nothing changes nothing; failures change nothing; successes update the store and lower the flag; a full load leaves the image service alone; refresh resets the counter to 2 |
| MainScreen.NeverLoading | MariannePV/MariannePV/App/Flow/Screens/MainViewController.swift:28 | isLoading is false in every screen reached from one where it is false |
| MainScreen.StepKeepsGood | MariannePV/MariannePV/App/Flow/Screens/MainViewController.swift:58-88 | a step keeps the counter at 2 or more and every record under its own id |
| MainScreen.RunKeepsGood | MariannePV/MariannePV/App/Flow/Screens/MainViewController.swift:58-88 | every screen reached from a good, idle one keeps that invariant and is still idle |
| MainScreen.ReachablePrefetchIgnoresFlag | MariannePV/MariannePV/App/Flow/Screens/MainViewController+CollectionView.swift:57-65 | in every reachable screen a prefetch starts a load exactly when the rows reach past `count - 6`, whatever loads are outstanding, and the page it asks for is 2 or later, so its request is sent |
| MainScreen.RepeatedPrefetchesLoadAgain | MariannePV/MariannePV/App/Flow/Screens/MainViewController+CollectionView.swift:57-65 | two triggering prefetches with no completion in between both start a load; with each background block run at once, of pages p and p + 1 |
| ScreenRevisions.SameEffectsWhileIdle | MariannePV/MariannePV/App/Flow/Screens/ListViewController.swift:44-140 | while nothing is loading both revisions start the same loads and keep the same store and counter |
| ScreenRevisions.DifferOnRepeatedPrefetch | MariannePV/MariannePV/App/Flow/Screens/ListViewController.swift:73 | a second prefetch before a completion is suppressed by the newer revision only |
| ScreenRevisions.DifferOnFullLoad | MariannePV/MariannePV/App/Flow/Screens/ListViewController.swift:120 | a successful full load empties the memory tier in the newer revision only |
| ScreenRevisions.ViewLoadServesFromDisk | MariannePV/MariannePV/App/BusinessLogic/CollectionViewPhotoService.swift:108-123 | in both revisions, an image file the old service could read is served from disk by the service the view load creates |
| ScreenRevisions.DifferOnFailure | MariannePV/MariannePV/App/Flow/Screens/ListViewController.swift:86-130 | a failed partial or full load lowers isLoading in the newer revision and changes nothing in the older |

## Left out

- File system, URLSession, JSON decoding, `UIImage` decoding and PNG encoding are oracles. No byte or pixel round trip is claimed.
- Threading and `[weak self]` lifetimes are not modelled. Each dispatch hop is folded into one sequential step, which fixes one interleaving:
  - the memory promotion after a disk hit, which the source defers to the main queue;
  - the `isLoading = false` that `ListViewController` runs on the network callback's queue;
  - the whole `loadPartPhotos` call, request and counter update together, which both screens run in a block on a background queue (ListViewController.swift:75-76, MainViewController.swift:71-72). The model runs that block as part of the prefetch that dispatches it. In the source, a later prefetch or refresh can run before the block does.
- MainScreen.RepeatedPrefetchesLoadAgain: the pages p and p + 1 hold only for the folded interleaving. If the second prefetch reads `NetworkManager.shared.nextFromPage` before the first block has run, both loads ask for page p.
- ListScreen.RefreshRestartsPaging: holds only for the folded interleaving. A partial-load block still pending when the refresh resets the counter to 2 can run afterwards and set it to its own page + 1.
- Floating point: `CGFloat` frames and `TimeInterval` ages are integers. `ceil(width / columns)` is integer ceiling division.
- `Intersects` treats rectangles that only touch at an edge as not intersecting.
- `PhotoElementData` is not part of this model. Its id type is the abstract `Common.PhotoId`, and the order of `sorted(byKeyPath: "id")` is a parameter of the members that read the store sorted. They are proved for every strict total order, so nothing depends on whether ids compare as numbers or as strings.
- Realm write failures (`try?`) are not modelled; writes always succeed. A database that fails to open is modelled as a screen with no store (`photos == nil`).
- `RealmManager`'s `add(object:)`, `delete(object:)`, `update(closure:)` and `refresh()` are not used by the modelled screens.
- `ListViewController` is handed a `NetworkManager`, but `NetworkManager` has a `private init()` (NetworkManager.swift:14), so `NetworkManager.shared` is the only instance there is. The counter its prefetch reads (`NetworkManager.shared.nextFromPage`) and the one its refresh resets (`networkManager.nextFromPage`) are therefore the same, and the model keeps one counter per screen.
- `SceneDelegate` builds `ListViewController(networkService:realmManager:)`, an initializer the modelled file does not have. The modelled file is the one over `NetworkManager`; `NetworkService` is modelled on its own.
- NetworkService.FetchPaginatedItems: pages and the `nextFromPage` counter are unbounded integers. The Swift `page + 1` at NetworkService.swift:123 traps at `Int.max`, and that trap is not modelled.
- NetworkManager.LoadPartPhotos: the same holds for `NetworkManager.shared.nextFromPage = page + 1` at NetworkManager.swift:69, which traps at `Int.max`; the model adds 1 to any page.
- PhotoCache.SaveFile: every write succeeds in the model. In the source, a failed `createFile` is ignored and leaves no file. That happens when the file name is `.` or `..` (the path then names a directory), when the name is longer than the file system allows, or when the disk is full. Those URLs are never served from disk. The model stores and serves them, and so `PhotoCache.DiskServesOtherUrl` and `PhotoCache.DiskHitPromotes` overstate the disk tier for such names.
- Creating the `images` directory in the caches directory is not modelled; the directory name is always `images`.
- Pagination.ServiceOnViewLoad: the first view load of a new screen starts from no image files. Files left in the caches directory by an earlier run of the app are not modelled. From then on, every new service sees the files of the one before it.
- UrlPath.Split: splits on the character '/'. Swift's `split(separator: "/")` compares extended grapheme clusters, so a '/' followed by a combining mark (such as U+0338) is one character that is not a separator there. The model would split at that '/'.
- `URLComponents.url` is taken to succeed, as it does for these constant parts.
- Alerts, logging, navigation, refresh-control styling, `endRefreshing` completions, collection-view reloads other than the image service's slot reload, and Auto Layout are UI only.
- Traps (`fatalError` and reading `photos[row]` past the end) are modelled as `None` / `OutOfRange` / `NoStore` results.
- `MockNetworkClient`, used by the unit tests, is not part of this model. The tests' stubs are modelled as constant client functions.

## Findings

| source | as written | input that shows it | evidently intended | confidence | as-written member | corrected member |
|---|---|---|---|---|---|---|
| MariannePV/MariannePV/App/Flow/Screens/MainViewController+CollectionView.swift:57-65 | `MainViewController` checks `isLoading` before a partial load but never sets it to true, so the guard never holds | two prefetches near the end of the list before the first load completes: both start a load, of pages p and p + 1, or of page p twice when the second prefetch runs before the first background block | raise `isLoading` when a load starts, as `ListViewController` does at its lines 73 and 111 | high for the double start; not executed | MainScreen.RepeatedPrefetchesLoadAgain | ListScreen.SecondPrefetchSuppressed |
