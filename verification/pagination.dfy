/**
  What both revisions of the list screen share: the events a screen reacts
  to, the loads it starts, the infinite-scrolling trigger of its
  `prefetchItemsAt` handler, and its collection-view data source over the
  local records (`photos`, the records sorted by id).

  The record store is `None` when `RealmManager.shared` could not open its
  database, in which case `photos` is `nil`.
 */
module Pagination {
  import opened Common
  import KeySets
  import RecordStore
  import PhotoCache
  import PageRequest
  import NetworkManager

  /** `Int.decrementToDefineStartLoading`: how close to the end a prefetch must reach. */
  const DecrementToDefineStartLoading: int := 6

  /**
    The screen's inputs, one at a time: the view loading, a prefetch or its
    cancellation for some rows, the completion of a partial or a full load
    as delivered by the network layer, and a pull to refresh.
   */
  datatype Event =
    | ViewLoad
    | Prefetch(rows: seq<int>)
    | CancelPrefetch(rows: seq<int>)
    | PartialLoaded(result: Result<seq<Photo>>)
    | FullLoaded(result: Result<seq<Photo>>)
    | Refresh

  /** The load a step starts, if any: `loadData` (page 1) or `loadPartData(from:)`. */
  datatype Effect = NoEffect | StartFull | StartPartial(page: int)

  /**
    A screen's state: the local records, the `isLoading` flag, the shared
    network manager's counter, and the image service the view creates when
    it loads.
   */
  datatype Screen = Screen(realm: Option<RecordStore.Store>, isLoading: bool,
                           manager: NetworkManager.Manager, photoService: Option<PhotoCache.Cache>)

  /**
    The image service `viewDidLoad` creates: a new `CollectionViewPhotoService`
    starts with an empty memory over whatever image files the caches
    directory holds, which are those the previous service saw.
   */
  function ServiceOnViewLoad(previous: Option<PhotoCache.Cache>): (c: PhotoCache.Cache)
    ensures c.images == map[]
    ensures previous.Some? ==> c.files == previous.value.files
    ensures previous.None? ==> c.files == map[]
  {
    PhotoCache.Cache(map[], if previous.Some? then previous.value.files else map[])
  }

  /** A new screen over the records at hand, before its view has loaded. */
  function Initial(realm: Option<RecordStore.Store>): Screen {
    Screen(realm, false, NetworkManager.Shared, None)
  }

  /**
    What holds in every screen reached from a new one: the counter never
    drops below the first partial page, and the store keeps every record
    under its own id.
   */
  predicate Good(s: Screen) {
    && s.manager.nextFromPage >= PageRequest.NextPageAfterFirst
    && (s.realm.Some? ==> RecordStore.WellKeyed(s.realm.value))
  }

  /** `indexPaths.map { $0.row }.max()`: the largest row, or nothing for no rows. */
  function MaxRow(rows: seq<int>): (m: Option<int>)
    ensures m.None? <==> rows == []
    ensures m.Some? ==> (exists i :: 0 <= i < |rows| && rows[i] == m.value)
                        && forall i :: 0 <= i < |rows| ==> rows[i] <= m.value
    decreases |rows|
  {
    if rows == [] then None
    else
      match MaxRow(rows[1..])
      case None => Some(rows[0])
      case Some(m) =>
        assert forall i :: 1 <= i < |rows| ==> rows[i] == rows[1..][i - 1];
        if rows[0] >= m then Some(rows[0]) else Some(m)
  }

  /**
    The prefetch trigger: with `count` records shown, a prefetch of `rows`
    starts a partial load exactly when some prefetched row lies among the
    last six (`maxIndex > count - 6`) and no load is marked in progress.
   */
  predicate ShouldPrefetch(count: int, rows: seq<int>, isLoading: bool)
  {
    match MaxRow(rows)
    case None => false
    case Some(m) => m > count - DecrementToDefineStartLoading && !isLoading
  }

  /** The trigger, stated without the maximum: some row is past the threshold. */
  lemma ShouldPrefetchIff(count: int, rows: seq<int>, isLoading: bool)
    ensures ShouldPrefetch(count, rows, isLoading)
            <==> rows != [] && !isLoading
                 && exists i :: 0 <= i < |rows| && rows[i] > count - DecrementToDefineStartLoading
  {
    if rows != [] && !isLoading && ShouldPrefetch(count, rows, isLoading) {
      var i :| 0 <= i < |rows| && rows[i] == MaxRow(rows).value;
      assert rows[i] > count - DecrementToDefineStartLoading;
    }
  }

  // ---------------------------------------------------------------------------
  // Store updates on a load's success.

  /**
    `try? realmManager?.add(objects:)` after a partial load: the page is
    upserted into the store; without a store nothing happens.
   */
  function AddPage(realm: Option<RecordStore.Store>, page: seq<Photo>): (r: Option<RecordStore.Store>)
    ensures r.Some? <==> realm.Some?
    ensures r.Some? ==> r.value.Keys == realm.value.Keys + RecordStore.Ids(page)
    ensures r.Some? ==> forall k :: k in realm.value && k !in RecordStore.Ids(page) ==> r.value[k] == realm.value[k]
    ensures r.Some? && RecordStore.WellKeyed(realm.value) ==> RecordStore.WellKeyed(r.value)
  {
    match realm
    case None => None
    case Some(store) =>
      var r := RecordStore.Upsert(store, page);
      forall k | k in store && k !in RecordStore.Ids(page) ensures r[k] == store[k] {
        RecordStore.UpsertKeeps(store, page, k);
      }
      Some(r)
  }

  /**
    `try? realmManager?.deleteAll()` then `try? realmManager?.add(objects:)`
    after a full load: the store then holds exactly the page's records.
   */
  function ReplaceWithPage(realm: Option<RecordStore.Store>, page: seq<Photo>): (r: Option<RecordStore.Store>)
    ensures r.Some? <==> realm.Some?
    ensures r.Some? ==> r.value.Keys == RecordStore.Ids(page) && RecordStore.WellKeyed(r.value)
    ensures r.Some? ==> forall i :: 0 <= i < |page| && RecordStore.LastOfId(page, i) ==> r.value[page[i].id] == page[i]
  {
    match realm
    case None => None
    case Some(_) => Some(RecordStore.Replace(page))
  }

  // ---------------------------------------------------------------------------
  // Data source.

  /** `numberOfSections(in:)`. */
  const NumberOfSections: int := 1

  /**
    `collectionView(_:numberOfItemsInSection:)`: the number of stored records;
    without a store the screen traps (`fatalError`), modelled as `None`.
   */
  function NumberOfItems(realm: Option<RecordStore.Store>): (n: Option<nat>)
    ensures n.None? <==> realm.None?
    ensures n.Some? ==> n.value == |realm.value.Keys|
  {
    match realm
    case None => None
    case Some(store) => Some(|store|)
  }

  /** What a row maps to: a record, a row past the end (`photos[row]` traps), or no store at all. */
  datatype Row = Record(photo: Photo) | OutOfRange | NoStore

  /**
    `photos[indexPath.row]`, as read by `cellForItemAt` (which traps on
    `NoStore` and `OutOfRange`) and by `didSelectItemAt` (which returns on
    `NoStore`, traps on `OutOfRange`, and otherwise configures the detail
    screen from the record). `lt` is the order of the id type.
   */
  function RowAt(realm: Option<RecordStore.Store>, lt: (PhotoId, PhotoId) -> bool, row: int): (r: Row)
    requires realm.Some? ==> RecordStore.WellKeyed(realm.value)
    requires KeySets.StrictTotalOrder(lt)
    ensures r.NoStore? <==> realm.None?
    ensures r.Record? <==> realm.Some? && 0 <= row < |realm.value|
    ensures r.Record? ==> r.photo.id in realm.value && realm.value[r.photo.id] == r.photo
    ensures r.Record? ==> |set k | k in realm.value && lt(k, r.photo.id)| == row
  {
    match realm
    case None => NoStore
    case Some(store) =>
      match RecordStore.PhotoAt(store, lt, row)
      case Some(p) => Record(p)
      case None => OutOfRange
  }

  /** Every stored record is shown on exactly one row: the row of its rank. */
  lemma EveryRecordOnItsRankRow(store: RecordStore.Store, lt: (PhotoId, PhotoId) -> bool, k: PhotoId)
    requires RecordStore.WellKeyed(store) && KeySets.StrictTotalOrder(lt) && k in store
    ensures var row := |set j | j in store && lt(j, k)|;
            RowAt(Some(store), lt, row) == Record(store[k])
  {
    var v := RecordStore.SortedView(store, lt);
    var i :| 0 <= i < |v| && v[i].id == k;
    RecordStore.RankOfRow(store, lt, i);
  }
}
