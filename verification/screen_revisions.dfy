/**
  How the two revisions of the list screen differ on the same events from
  the same state: `ListScreen` (`ListViewController`) and `MainScreen`
  (`MainViewController`).
 */
module ScreenRevisions {
  import opened Common
  import RecordStore
  import PhotoCache
  import ListScreen
  import MainScreen
  import opened Pagination

  /** Both revisions start the same loads from the same events, as long as nothing is loading. */
  lemma SameEffectsWhileIdle(s: Screen, e: Event)
    requires !s.isLoading
    ensures ListScreen.Step(s, e).1 == MainScreen.Step(s, e).1
    ensures ListScreen.Step(s, e).0.manager == MainScreen.Step(s, e).0.manager
    ensures ListScreen.Step(s, e).0.realm == MainScreen.Step(s, e).0.realm
  {
  }

  /**
    A second prefetch near the end, before the first load completes, is
    suppressed by the newer revision but starts a second load in the older.
   */
  lemma DifferOnRepeatedPrefetch(s: Screen, rows1: seq<int>, rows2: seq<int>)
    requires !s.isLoading && s.realm.Some?
    requires ShouldPrefetch(|s.realm.value|, rows1, false)
    requires ShouldPrefetch(|s.realm.value|, rows2, false)
    ensures ListScreen.Step(ListScreen.Step(s, Prefetch(rows1)).0, Prefetch(rows2)).1 == NoEffect
    ensures MainScreen.Step(MainScreen.Step(s, Prefetch(rows1)).0, Prefetch(rows2)).1.StartPartial?
  {
  }

  /** A successful full load empties the memory tier in the newer revision only. */
  lemma DifferOnFullLoad(s: Screen, page: seq<Photo>)
    requires s.photoService.Some?
    ensures ListScreen.Step(s, FullLoaded(Success(page))).0.photoService.value.images == map[]
    ensures MainScreen.Step(s, FullLoaded(Success(page))).0.photoService == s.photoService
  {
  }

  /**
    A failed load, partial or full, lowers the flag in the newer revision
    and changes nothing in the older.
   */
  lemma DifferOnFailure(s: Screen, e: Error)
    ensures ListScreen.Step(s, PartialLoaded(Failure(e))).0 == s.(isLoading := false)
    ensures MainScreen.Step(s, PartialLoaded(Failure(e))).0 == s
    ensures ListScreen.Step(s, FullLoaded(Failure(e))).0 == s.(isLoading := false)
    ensures MainScreen.Step(s, FullLoaded(Failure(e))).0 == s
  {
  }

  /**
    In both revisions, a URL whose fresh file the old image service could
    read is served from that file by the service the view load creates.
   */
  lemma ViewLoadServesFromDisk(s: Screen, slot: PhotoCache.Slot, url: PhotoCache.Url,
                               env: PhotoCache.Env, codecs: PhotoCache.Codecs)
    requires s.photoService.Some?
    requires PhotoCache.ReadFile(s.photoService.value, url, env, codecs).Some?
    ensures var image := PhotoCache.ReadFile(s.photoService.value, url, env, codecs).value;
            && PhotoCache.Resolve(ListScreen.Step(s, ViewLoad).0.photoService.value, slot, url, env, codecs).shown
               == PhotoCache.Picture(image)
            && PhotoCache.Resolve(MainScreen.Step(s, ViewLoad).0.photoService.value, slot, url, env, codecs).shown
               == PhotoCache.Picture(image)
  {
  }
}
