/**
  The local photo records (`RealmManager` over `PhotoElementData`), as a map
  from id to record: `add(objects:)` is an upsert keyed by the primary key,
  `deleteAll()` empties it, and the screens read it through `photos`, the
  records sorted by id ascending.
 */
module RecordStore {
  import opened Common
  import KeySets

  type Store = map<PhotoId, Photo>

  /** Every record is stored under its own id. */
  predicate WellKeyed(store: Store) {
    forall k :: k in store ==> store[k].id == k
  }

  function Ids(page: seq<Photo>): set<PhotoId> {
    set i | 0 <= i < |page| :: page[i].id
  }

  /** Record `i` of the page is the last one carrying its id. */
  predicate LastOfId(page: seq<Photo>, i: int)
    requires 0 <= i < |page|
  {
    forall j :: i < j < |page| ==> page[j].id != page[i].id
  }

  /** The ids of a page are those of all but its last record, plus the last one's. */
  lemma IdsSnoc(page: seq<Photo>)
    requires page != []
    ensures Ids(page) == Ids(page[..|page| - 1]) + {page[|page| - 1].id}
  {
    var init := page[..|page| - 1];
    forall k | k in Ids(page) ensures k in Ids(init) + {page[|page| - 1].id} {
      var i :| 0 <= i < |page| && page[i].id == k;
      if i < |page| - 1 { assert init[i] == page[i]; }
    }
    forall k | k in Ids(init) ensures k in Ids(page) {
      var i :| 0 <= i < |init| && init[i].id == k;
      assert page[i] == init[i];
    }
  }

  /**
    `add(objects:)` with `update: .all`: each record of the page replaces the
    stored record with its id, in page order. The stored ids grow by exactly
    the page's ids, and every record stays under its own id.
   */
  function Upsert(store: Store, page: seq<Photo>): (r: Store)
    ensures r.Keys == store.Keys + Ids(page)
    ensures WellKeyed(store) ==> WellKeyed(r)
    decreases |page|
  {
    if page == [] then store
    else
      IdsSnoc(page);
      Upsert(store, page[..|page| - 1])[page[|page| - 1].id := page[|page| - 1]]
  }

  /** Records whose id is not on the page are kept as they were. */
  lemma {:induction false} UpsertKeeps(store: Store, page: seq<Photo>, k: PhotoId)
    requires k in store && k !in Ids(page)
    ensures Upsert(store, page)[k] == store[k]
    decreases |page|
  {
    if page != [] {
      IdsSnoc(page);
      UpsertKeeps(store, page[..|page| - 1], k);
    }
  }

  /** The last record of the page carrying an id is the one stored under it. */
  lemma {:induction false} UpsertLastWins(store: Store, page: seq<Photo>, i: int)
    requires 0 <= i < |page| && LastOfId(page, i)
    ensures Upsert(store, page)[page[i].id] == page[i]
    decreases |page|
  {
    var init := page[..|page| - 1];
    if i < |page| - 1 {
      assert LastOfId(init, i) && init[i] == page[i];
      UpsertLastWins(store, init, i);
    }
  }

  /** `deleteAll()` followed by `add(objects:)`: the store then holds exactly the page. */
  function Replace(page: seq<Photo>): (r: Store)
    ensures r.Keys == Ids(page)
    ensures forall i :: 0 <= i < |page| && LastOfId(page, i) ==> r[page[i].id] == page[i]
    ensures WellKeyed(r)
  {
    var r := Upsert(map[], page);
    forall i | 0 <= i < |page| && LastOfId(page, i) ensures r[page[i].id] == page[i] {
      UpsertLastWins(map[], page, i);
    }
    r
  }

  /** Upserting a page twice is the same as upserting it once. */
  lemma {:induction false} UpsertIdempotent(store: Store, page: seq<Photo>)
    ensures Upsert(Upsert(store, page), page) == Upsert(store, page)
  {
    var once := Upsert(store, page);
    var twice := Upsert(once, page);
    forall k | k in twice.Keys ensures k in once && twice[k] == once[k] {
      if k in Ids(page) {
        var i := LastIndexOf(page, k);
        UpsertLastWins(store, page, i);
        UpsertLastWins(once, page, i);
      } else {
        UpsertKeeps(once, page, k);
      }
    }
    assert twice.Keys == once.Keys;
  }

  /** The position of the last record carrying `id`. */
  lemma LastIndexOf(page: seq<Photo>, id: PhotoId) returns (i: int)
    requires id in Ids(page)
    ensures 0 <= i < |page| && page[i].id == id && LastOfId(page, i)
  {
    var j :| 0 <= j < |page| && page[j].id == id;
    i := j;
    while i + 1 < |page| && exists k :: i < k < |page| && page[k].id == id
      invariant 0 <= i < |page| && page[i].id == id
      decreases |page| - i
    {
      var k :| i < k < |page| && page[k].id == id;
      i := k;
    }
  }

  /**
    `photos`: the records sorted by id ascending, in the order `lt` of the
    id type. It lists every stored record exactly once, in strictly
    ascending id order.
   */
  function SortedView(store: Store, lt: (PhotoId, PhotoId) -> bool): (v: seq<Photo>)
    requires WellKeyed(store) && KeySets.StrictTotalOrder(lt)
    ensures |v| == |store|
    ensures forall i :: 0 <= i < |v| ==> v[i].id in store && store[v[i].id] == v[i]
    ensures forall k :: k in store ==> exists i :: 0 <= i < |v| && v[i].id == k
    ensures forall i, j :: 0 <= i < j < |v| ==> lt(v[i].id, v[j].id)
  {
    var ids := KeySets.SortedKeys(lt, store.Keys);
    var v := Records(store, ids);
    RecordsInOrder(store, lt, ids, v);
    RecordsCover(store, ids, v);
    v
  }

  /** The stored records under the given ids, in that order. */
  function Records(store: Store, ids: seq<PhotoId>): (v: seq<Photo>)
    requires forall i :: 0 <= i < |ids| ==> ids[i] in store
    ensures |v| == |ids|
    ensures forall i :: 0 <= i < |ids| ==> v[i] == store[ids[i]]
  {
    if ids == [] then [] else [store[ids[0]]] + Records(store, ids[1..])
  }

  /** Records read under ascending ids carry those ids, so they come out in id order. */
  lemma RecordsInOrder(store: Store, lt: (PhotoId, PhotoId) -> bool, ids: seq<PhotoId>, v: seq<Photo>)
    requires WellKeyed(store) && KeySets.Ascending(lt, ids)
    requires forall i :: 0 <= i < |ids| ==> ids[i] in store
    requires |v| == |ids| && forall i :: 0 <= i < |ids| ==> v[i] == store[ids[i]]
    ensures forall i :: 0 <= i < |v| ==> v[i].id == ids[i]
    ensures forall i :: 0 <= i < |v| ==> v[i].id in store && store[v[i].id] == v[i]
    ensures forall i, j :: 0 <= i < j < |v| ==> lt(v[i].id, v[j].id)
  {
    assert forall i :: 0 <= i < |v| ==> v[i].id == ids[i];
  }

  /** Records read under every stored id include every stored id. */
  lemma RecordsCover(store: Store, ids: seq<PhotoId>, v: seq<Photo>)
    requires WellKeyed(store)
    requires forall k :: k in store.Keys <==> k in ids
    requires forall i :: 0 <= i < |ids| ==> ids[i] in store
    requires |v| == |ids| && forall i :: 0 <= i < |ids| ==> v[i] == store[ids[i]]
    ensures forall k :: k in store ==> exists i :: 0 <= i < |v| && v[i].id == k
  {
    forall k | k in store ensures exists i :: 0 <= i < |v| && v[i].id == k {
      var i :| 0 <= i < |ids| && ids[i] == k;
      assert v[i].id == k;
    }
  }

  /** `photos[indexPath.row]`: the record shown on a row; reading past the end traps. */
  function PhotoAt(store: Store, lt: (PhotoId, PhotoId) -> bool, row: int): (r: Option<Photo>)
    requires WellKeyed(store) && KeySets.StrictTotalOrder(lt)
    ensures r.Some? <==> 0 <= row < |store|
    ensures r.Some? ==> r.value.id in store && store[r.value.id] == r.value
    ensures r.Some? ==> |set k | k in store && lt(k, r.value.id)| == row
  {
    var v := SortedView(store, lt);
    if 0 <= row < |v| then
      RankOfRow(store, lt, row);
      Some(v[row])
    else None
  }

  /** The record on row `i` has exactly `i` stored records with a smaller id. */
  lemma RankOfRow(store: Store, lt: (PhotoId, PhotoId) -> bool, row: int)
    requires WellKeyed(store) && KeySets.StrictTotalOrder(lt) && 0 <= row < |store|
    ensures var v := SortedView(store, lt);
            |set k | k in store && lt(k, v[row].id)| == row
  {
    var v := SortedView(store, lt);
    RankInOrder(store.Keys, lt, v, row);
    assert (set k | k in store && lt(k, v[row].id)) == (set k | k in store.Keys && lt(k, v[row].id));
  }

  /** In a listing of a key set in ascending id order, row `i` has `i` smaller keys. */
  lemma RankInOrder(keys: set<PhotoId>, lt: (PhotoId, PhotoId) -> bool, v: seq<Photo>, row: int)
    requires KeySets.StrictTotalOrder(lt) && 0 <= row < |v|
    requires forall i :: 0 <= i < |v| ==> v[i].id in keys
    requires forall k :: k in keys ==> exists i :: 0 <= i < |v| && v[i].id == k
    requires forall i, j :: 0 <= i < j < |v| ==> lt(v[i].id, v[j].id)
    ensures |set k | k in keys && lt(k, v[row].id)| == row
  {
    var smaller := set k | k in keys && lt(k, v[row].id);
    var before := set i | 0 <= i < row :: v[i].id;
    assert forall j :: row < j < |v| ==> lt(v[row].id, v[j].id);
    forall k | k in smaller ensures k in before {
      var i :| 0 <= i < |v| && v[i].id == k;
    }
    forall k | k in before ensures k in smaller {
      var i :| 0 <= i < row && v[i].id == k;
      assert lt(v[i].id, v[row].id);
    }
    assert smaller == before;
    IndexImageSize(v, lt, row);
  }

  /** Distinct positions of an ascending id sequence give distinct ids. */
  lemma {:induction false} IndexImageSize(v: seq<Photo>, lt: (PhotoId, PhotoId) -> bool, n: int)
    requires KeySets.StrictTotalOrder(lt) && 0 <= n <= |v|
    requires forall i, j :: 0 <= i < j < |v| ==> lt(v[i].id, v[j].id)
    ensures |set i | 0 <= i < n :: v[i].id| == n
    decreases n
  {
    if n > 0 {
      IndexImageSize(v, lt, n - 1);
      var s := set i | 0 <= i < n - 1 :: v[i].id;
      assert (set i | 0 <= i < n :: v[i].id) == s + {v[n - 1].id};
      assert v[n - 1].id !in s;
    }
  }
}
