/**
  How the two network revisions differ for the same data-task outcome:
  the newer `NetworkService` over `ItemNetworkClient`, and the older
  `NetworkManager`.
 */
module NetworkRevisions {
  import opened Common
  import PageRequest
  import NetworkService
  import NetworkManager

  /** Both revisions send the same request for the same page, and none below page 1. */
  lemma SameRequest<Q>(page: int, transport: Transport, decode: Bytes -> Option<Q>)
    ensures NetworkService.ClientRequest(page, transport, decode).request
            == NetworkManager.Request(page, transport, decode).request
            == PageRequest.ForPage(page)
  {
  }

  /** Data that decodes and casts reaches the caller as the same items in both. */
  lemma AgreeOnItems<Q>(transport: Transport, decode: Bytes -> Option<Q>, cast: Q -> Option<seq<Photo>>)
    requires transport.data.Some? && decode(transport.data.value).Some?
    requires cast(decode(transport.data.value).value).Some?
    ensures var items := cast(decode(transport.data.value).value).value;
            && NetworkService.FetchItems(NetworkService.ItemClient(transport, decode), cast).reply
               == NetworkService.Reply(Some(items), None)
            && NetworkManager.LoadPhotos(transport, decode, cast).completion == Some(Success(items))
  {
  }

  /** A payload that does not cast is `badResponse` for the service but an empty success for the manager. */
  lemma DifferOnCast<Q>(transport: Transport, decode: Bytes -> Option<Q>, cast: Q -> Option<seq<Photo>>)
    requires transport.data.Some? && decode(transport.data.value).Some?
    requires cast(decode(transport.data.value).value).None?
    ensures NetworkService.FetchItems(NetworkService.ItemClient(transport, decode), cast).reply
            == NetworkService.Reply(None, Some(BadResponse))
    ensures NetworkManager.LoadPhotos(transport, decode, cast).completion == Some(Success([]))
  {
  }

  /** Undecodable data keeps its decoding error in the service but becomes `.incorrectData` in the manager. */
  lemma DifferOnDecoding<Q>(transport: Transport, decode: Bytes -> Option<Q>, cast: Q -> Option<seq<Photo>>)
    requires transport.data.Some? && decode(transport.data.value).None?
    ensures NetworkService.FetchItems(NetworkService.ItemClient(transport, decode), cast).reply
            == NetworkService.Reply(None, Some(ClientDecodingFailure))
    ensures NetworkManager.LoadPhotos(transport, decode, cast).completion == Some(Failure(IncorrectData))
  {
  }

  /** A transport error reaches the service's caller unchanged but the manager's as `.incorrectData`. */
  lemma DifferOnTransportError<Q>(transport: Transport, decode: Bytes -> Option<Q>,
                                  cast: Q -> Option<seq<Photo>>)
    requires transport.data.None? && transport.error.Some?
    ensures NetworkService.FetchItems(NetworkService.ItemClient(transport, decode), cast).reply
            == NetworkService.Reply(None, transport.error)
    ensures NetworkManager.LoadPhotos(transport, decode, cast).completion == Some(Failure(IncorrectData))
  {
  }

  /** Neither completes when the data task delivers neither data nor error. */
  lemma NeitherCompletesOnSilence<Q>(page: int, transport: Transport, decode: Bytes -> Option<Q>,
                                     cast: Q -> Option<seq<Photo>>, s: NetworkService.Service,
                                     m: NetworkManager.Manager)
    requires transport.data.None? && transport.error.None?
    ensures NetworkService.FetchPaginatedItems(s, page, NetworkService.ItemClient(transport, decode), cast).1.reply
            == NetworkService.NoReply
    ensures NetworkManager.LoadPartPhotos(m, page, transport, decode, cast).1.completion == None
  {
  }

  /** Both counters start at 2 and move to `page + 1` on a partial load. */
  lemma SameCounter<Q>(page: int, transport: Transport, decode: Bytes -> Option<Q>,
                       cast: Q -> Option<seq<Photo>>, s: NetworkService.Service, m: NetworkManager.Manager)
    ensures NetworkService.Initial.nextFromPage == NetworkManager.Shared.nextFromPage == 2
    ensures NetworkService.FetchPaginatedItems(s, page, NetworkService.ItemClient(transport, decode), cast).0.nextFromPage
            == NetworkManager.LoadPartPhotos(m, page, transport, decode, cast).0.nextFromPage
  {
  }
}
