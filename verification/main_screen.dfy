/**
  The older revision of the list screen (`MainViewController` and
  `MainViewController+CollectionView`) as a state machine over the same
  events and states as `ListScreen`. It never marks a load as in progress,
  its failures only show an alert, and its full load leaves the image
  service alone.
 */
module MainScreen {
  import opened Common
  import RecordStore
  import PhotoCache
  import PageRequest
  import NetworkManager
  import opened Pagination

  /** One event. */
  function Step(s: Screen, e: Event): (r: (Screen, Effect))
    // Nothing here ever raises the flag: a step keeps it or lowers it.
    ensures r.0.isLoading ==> s.isLoading
    ensures r.1.StartPartial? ==> e.Prefetch? && !s.isLoading && s.realm.Some?
                                  && r.1.page == s.manager.nextFromPage
                                  && r.0.manager.nextFromPage == r.1.page + 1
    ensures r.1.StartFull? ==> e.Refresh? || (e.ViewLoad? && s.realm.Some? && |s.realm.value| == 0)
    ensures e.ViewLoad? ==> (r.1.StartFull? <==> s.realm.Some? && |s.realm.value| == 0)
                            && r.0 == s.(photoService := Some(ServiceOnViewLoad(s.photoService)))
    ensures e.Prefetch? ==>
              (r.1.StartPartial? <==> s.realm.Some? && ShouldPrefetch(|s.realm.value|, e.rows, s.isLoading))
    ensures e.Prefetch? ==> r.0.realm == s.realm && r.0.isLoading == s.isLoading
                            && r.0.photoService == s.photoService
    // A prefetch that starts a load only moves the counter past the page it
    // asks for; one that does not changes nothing.
    ensures e.Prefetch? && r.1.StartPartial? ==>
              r.0 == s.(manager := NetworkManager.Manager(r.1.page + 1))
    ensures e.Prefetch? && r.1.NoEffect? ==> r.0 == s
    ensures e.CancelPrefetch? ==> r == (s, NoEffect)
    // A failed load only shows an alert.
    ensures (e.PartialLoaded? || e.FullLoaded?) && e.result.Failure? ==> r == (s, NoEffect)
    // A successful load updates the store and lowers the flag, and nothing else.
    ensures e.PartialLoaded? && e.result.Success? ==>
              r == (s.(realm := AddPage(s.realm, e.result.value), isLoading := false), NoEffect)
    ensures e.FullLoaded? && e.result.Success? ==>
              r == (s.(realm := ReplaceWithPage(s.realm, e.result.value), isLoading := false), NoEffect)
    ensures e.Refresh? ==> r == (s.(manager := NetworkManager.Shared), StartFull)
  {
    match e
    case ViewLoad =>
      var s' := s.(photoService := Some(ServiceOnViewLoad(s.photoService)));
      (s', if s.realm.Some? && |s.realm.value| == 0 then StartFull else NoEffect)
    case Prefetch(rows) =>
      if s.realm.Some? && ShouldPrefetch(|s.realm.value|, rows, s.isLoading) then
        var page := s.manager.nextFromPage;
        (s.(manager := NetworkManager.Manager(page + 1)), StartPartial(page))
      else (s, NoEffect)
    case CancelPrefetch(_) => (s, NoEffect)
    case PartialLoaded(Success(items)) =>
      (s.(realm := AddPage(s.realm, items), isLoading := false), NoEffect)
    case FullLoaded(Success(items)) =>
      (s.(realm := ReplaceWithPage(s.realm, items), isLoading := false), NoEffect)
    case PartialLoaded(Failure(_)) => (s, NoEffect)
    case FullLoaded(Failure(_)) => (s, NoEffect)
    case Refresh => (s.(manager := NetworkManager.Shared), StartFull)
  }

  /** The screen after a sequence of events. */
  function Run(s: Screen, events: seq<Event>): Screen
    decreases |events|
  {
    if events == [] then s else Run(Step(s, events[0]).0, events[1..])
  }

  /** `isLoading` starts false and is never set, so it is false in every reachable screen. */
  lemma {:induction false} NeverLoading(s: Screen, events: seq<Event>)
    requires !s.isLoading
    ensures !Run(s, events).isLoading
    decreases |events|
  {
    if events != [] {
      NeverLoading(Step(s, events[0]).0, events[1..]);
    }
  }

  lemma StepKeepsGood(s: Screen, e: Event)
    requires Good(s)
    ensures Good(Step(s, e).0)
  {
  }

  /** Every screen reached from a good, idle one is good and idle. */
  lemma {:induction false} RunKeepsGood(s: Screen, events: seq<Event>)
    requires Good(s) && !s.isLoading
    ensures Good(Run(s, events)) && !Run(s, events).isLoading
    decreases |events|
  {
    if events != [] {
      StepKeepsGood(s, events[0]);
      RunKeepsGood(Step(s, events[0]).0, events[1..]);
    }
  }

  /**
    In every reachable screen the prefetch trigger ignores the flag: rows
    near the end start a partial load of the current page, every time, and
    that page is 2 or later, so the network layer sends its request.
   */
  lemma ReachablePrefetchIgnoresFlag(realm: Option<RecordStore.Store>, events: seq<Event>, rows: seq<int>)
    requires realm.Some? ==> RecordStore.WellKeyed(realm.value)
    ensures var s := Run(Initial(realm), events);
            var r := Step(s, Prefetch(rows));
            && (r.1.StartPartial? <==> s.realm.Some? && ShouldPrefetch(|s.realm.value|, rows, false))
            && (r.1.StartPartial? ==> r.1.page >= PageRequest.NextPageAfterFirst
                                      && PageRequest.ForPage(r.1.page).Some?)
  {
    RunKeepsGood(Initial(realm), events);
  }

  /**
    Two prefetches near the end, with no completion in between, start two
    loads. With each background `loadPartPhotos` block run as part of its
    prefetch, they ask for consecutive pages; when the second prefetch runs
    before the first block, both ask for the same page.
   */
  lemma RepeatedPrefetchesLoadAgain(s: Screen, rows1: seq<int>, rows2: seq<int>)
    requires !s.isLoading && s.realm.Some?
    requires ShouldPrefetch(|s.realm.value|, rows1, false)
    requires ShouldPrefetch(|s.realm.value|, rows2, false)
    ensures var (s1, e1) := Step(s, Prefetch(rows1));
            var (s2, e2) := Step(s1, Prefetch(rows2));
            e1 == StartPartial(s.manager.nextFromPage)
            && e2 == StartPartial(s.manager.nextFromPage + 1)
  {
  }
}
