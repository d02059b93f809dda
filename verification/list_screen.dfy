/**
  The photo list screen (`ListViewController`) as a state machine over
  `Pagination.Event`s and `Pagination.Screen`s.

  Dispatch hops are sequentialised: a load's start, including the whole
  background block that calls `loadPartPhotos` and so moves the counter, is
  one step; its completion is a later `PartialLoaded` / `FullLoaded` event.
 */
module ListScreen {
  import opened Common
  import RecordStore
  import PhotoCache
  import PageRequest
  import NetworkManager
  import opened Pagination

  /** `images.removeAll()` on the image service, when there is one; its files stay. */
  function ClearImages(service: Option<PhotoCache.Cache>): (r: Option<PhotoCache.Cache>)
    ensures r.Some? <==> service.Some?
    ensures r.Some? ==> r.value.images == map[] && r.value.files == service.value.files
  {
    match service
    case None => None
    case Some(c) => Some(c.(images := map[]))
  }

  /** One event. */
  function Step(s: Screen, e: Event): (r: (Screen, Effect))
    // A load is started only by the view loading over an empty store, by a
    // prefetch near the end while nothing is loading, or by a refresh; every
    // start marks the screen as loading.
    ensures r.1 != NoEffect ==> r.0.isLoading
    ensures r.1.StartPartial? ==> e.Prefetch? && !s.isLoading && s.realm.Some?
                                  && r.1.page == s.manager.nextFromPage
                                  && r.0.manager.nextFromPage == r.1.page + 1
    ensures r.1.StartFull? ==> e.Refresh? || (e.ViewLoad? && s.realm.Some? && |s.realm.value| == 0)
    // The view loading creates a new image service over the same files and
    // changes nothing else, apart from raising the flag when it starts a load.
    ensures e.ViewLoad? ==> (r.1.StartFull? <==> s.realm.Some? && |s.realm.value| == 0)
                            && r.0 == s.(photoService := Some(ServiceOnViewLoad(s.photoService)),
                                         isLoading := s.isLoading || r.1.StartFull?)
    ensures e.Prefetch? ==>
              (r.1.StartPartial? <==> s.realm.Some? && ShouldPrefetch(|s.realm.value|, e.rows, s.isLoading))
    // A prefetch that starts a load raises the flag and moves the counter past
    // the page it asks for; one that does not changes nothing.
    ensures e.Prefetch? && r.1.StartPartial? ==>
              r.0 == s.(isLoading := true, manager := NetworkManager.Manager(r.1.page + 1))
    ensures e.Prefetch? && r.1.NoEffect? ==> r.0 == s
    ensures e.CancelPrefetch? ==> r == (s, NoEffect)
    // A completion never starts anything and always clears the flag; a
    // failure changes nothing else.
    ensures (e.PartialLoaded? || e.FullLoaded?) ==> r.1.NoEffect? && !r.0.isLoading
                                                    && r.0.manager == s.manager
    ensures (e.PartialLoaded? && e.result.Failure?) || (e.FullLoaded? && e.result.Failure?) ==>
              r.0 == s.(isLoading := false)
    // A partial page is upserted; nothing else changes.
    ensures e.PartialLoaded? && e.result.Success? ==>
              r.0 == s.(realm := AddPage(s.realm, e.result.value), isLoading := false)
    // A full page replaces the store and empties the memory tier, keeping the files.
    ensures e.FullLoaded? && e.result.Success? ==>
              r.0 == s.(realm := ReplaceWithPage(s.realm, e.result.value),
                        photoService := ClearImages(s.photoService), isLoading := false)
    // A refresh restarts paging from page 2 and reloads page 1.
    ensures e.Refresh? ==> r == (s.(manager := NetworkManager.Shared, isLoading := true), StartFull)
  {
    match e
    case ViewLoad =>
      var s' := s.(photoService := Some(ServiceOnViewLoad(s.photoService)));
      if s.realm.Some? && |s.realm.value| == 0 then (s'.(isLoading := true), StartFull)
      else (s', NoEffect)
    case Prefetch(rows) =>
      if s.realm.Some? && ShouldPrefetch(|s.realm.value|, rows, s.isLoading) then
        var page := s.manager.nextFromPage;
        (s.(isLoading := true, manager := NetworkManager.Manager(page + 1)), StartPartial(page))
      else (s, NoEffect)
    case CancelPrefetch(_) => (s, NoEffect)
    case PartialLoaded(Success(items)) =>
      (s.(realm := AddPage(s.realm, items), isLoading := false), NoEffect)
    case PartialLoaded(Failure(_)) => (s.(isLoading := false), NoEffect)
    case FullLoaded(Success(items)) =>
      (s.(realm := ReplaceWithPage(s.realm, items), photoService := ClearImages(s.photoService),
          isLoading := false), NoEffect)
    case FullLoaded(Failure(_)) => (s.(isLoading := false), NoEffect)
    case Refresh =>
      (s.(manager := NetworkManager.Shared, isLoading := true), StartFull)
  }

  /** The screen after a sequence of events. */
  function Run(s: Screen, events: seq<Event>): Screen
    decreases |events|
  {
    if events == [] then s else Run(Step(s, events[0]).0, events[1..])
  }

  lemma StepKeepsGood(s: Screen, e: Event)
    requires Good(s)
    ensures Good(Step(s, e).0)
  {
  }

  lemma {:induction false} RunKeepsGood(s: Screen, events: seq<Event>)
    requires Good(s)
    ensures Good(Run(s, events))
    decreases |events|
  {
    if events != [] {
      StepKeepsGood(s, events[0]);
      RunKeepsGood(Step(s, events[0]).0, events[1..]);
    }
  }

  /**
    Every partial load a reachable screen starts asks for page 2 or later,
    so the network layer always sends its request.
   */
  lemma PartialLoadsAreSent(realm: Option<RecordStore.Store>, events: seq<Event>, e: Event)
    requires realm.Some? ==> RecordStore.WellKeyed(realm.value)
    ensures var r := Step(Run(Initial(realm), events), e);
            r.1.StartPartial? ==> r.1.page >= PageRequest.NextPageAfterFirst
                                  && PageRequest.ForPage(r.1.page).Some?
  {
    RunKeepsGood(Initial(realm), events);
  }

  /** While a load is marked in progress, no prefetch starts another. */
  lemma NoPrefetchWhileLoading(s: Screen, rows: seq<int>)
    requires s.isLoading
    ensures Step(s, Prefetch(rows)) == (s, NoEffect)
  {
  }

  /** A prefetch that starts a load suppresses the next prefetch until a completion arrives. */
  lemma SecondPrefetchSuppressed(s: Screen, rows1: seq<int>, rows2: seq<int>)
    requires Step(s, Prefetch(rows1)).1.StartPartial?
    ensures var s1 := Step(s, Prefetch(rows1)).0;
            Step(s1, Prefetch(rows2)) == (s1, NoEffect)
  {
  }

  /** The counter the screen keeps is the one `loadPartPhotos` leaves, whatever the transport. */
  lemma CounterAsNetworkManager<Q>(s: Screen, rows: seq<int>, transport: Transport,
                                   decode: Bytes -> Option<Q>, cast: Q -> Option<seq<Photo>>)
    requires Step(s, Prefetch(rows)).1.StartPartial?
    ensures var r := Step(s, Prefetch(rows));
            r.0.manager == NetworkManager.LoadPartPhotos(s.manager, r.1.page, transport, decode, cast).0
  {
  }

  /**
    A pull to refresh followed by a prefetch that triggers asks for page 2,
    whatever page the scrolling had reached, provided no partial-load block
    is still pending (each runs as part of its prefetch here).
   */
  lemma RefreshRestartsPaging(s: Screen, page: seq<Photo>, rows: seq<int>)
    requires s.realm.Some? && ShouldPrefetch(|RecordStore.Ids(page)|, rows, false)
    ensures var s2 := Step(Step(s, Refresh).0, FullLoaded(Success(page))).0;
            Step(s2, Prefetch(rows)).1 == StartPartial(PageRequest.NextPageAfterFirst)
  {
    var s2 := Step(Step(s, Refresh).0, FullLoaded(Success(page))).0;
    assert |s2.realm.value| == |s2.realm.value.Keys|;
  }

  /**
    After a full load succeeds, no URL is served from memory any more: the
    next image lookup goes to the disk tier or the network.
   */
  lemma FullLoadForgetsImages(s: Screen, page: seq<Photo>, slot: PhotoCache.Slot, url: string,
                              env: PhotoCache.Env, codecs: PhotoCache.Codecs)
    requires s.photoService.Some?
    ensures var c := Step(s, FullLoaded(Success(page))).0.photoService.value;
            var found := PhotoCache.Resolve(c, slot, url, env, codecs);
            found.shown.Picture? ==> PhotoCache.ReadFile(c, url, env, codecs) == Some(found.shown.image)
  {
  }
}
