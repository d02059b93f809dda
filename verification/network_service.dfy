/**
  The newer network layer: `ItemNetworkClient` issues the page request and
  turns the data task's outcome into a `(response?, error?)` pair;
  `NetworkService` forwards a client's pair as `([PhotoElement]?, Error?)`
  and keeps the `nextFromPage` counter.

  The JSON decoder and the `as? [PhotoElement]` cast are oracles; a client is
  a function from the page asked for to the reply it delivers.
 */
module NetworkService {
  import opened Common
  import PageRequest

  /** What a client passes to its completion, or `NoReply` when it never calls it. */
  datatype Reply<+R> = NoReply | Reply(response: Option<R>, error: Option<Error>)

  /** One `networkRequest(for:completion:)`: the request sent, if any, and the reply. */
  datatype Call<+R> = Call(request: Option<PageRequest.Request>, reply: Reply<R>)

  /**
    `ItemNetworkClient.networkRequest(for:completion:)`. Below page 1 nothing
    is sent and the completion is never called. Otherwise data that decodes
    gives `(photos, nil)`, data that does not gives
    `(nil, failureInJSONDecoding)`, no data with an error gives
    `(nil, error)`, and neither data nor error never completes.
   */
  function ClientRequest<Q>(page: int, transport: Transport, decode: Bytes -> Option<Q>): (c: Call<Q>)
    ensures c.request.Some? <==> page >= 1
    ensures c.request.Some? ==> c.request == PageRequest.ForPage(page)
    ensures page < 1 ==> c.reply == NoReply
    ensures page >= 1 && transport.data.Some? && decode(transport.data.value).Some? ==>
              c.reply == Reply(decode(transport.data.value), None)
    ensures page >= 1 && transport.data.Some? && decode(transport.data.value).None? ==>
              c.reply == Reply(None, Some(ClientDecodingFailure))
    ensures page >= 1 && transport.data.None? && transport.error.Some? ==>
              c.reply == Reply(None, transport.error)
    ensures transport.data.None? && transport.error.None? ==> c.reply == NoReply
  {
    match PageRequest.ForPage(page)
    case None => Call(None, NoReply)
    case Some(request) =>
      var reply :=
        match transport.data
        case Some(data) =>
          (match decode(data)
           case Some(photos) => Reply(Some(photos), None)
           case None => Reply(None, Some(ClientDecodingFailure)))
        case None =>
          (match transport.error
           case Some(e) => Reply(None, Some(e))
           case None => NoReply);
      Call(Some(request), reply)
  }

  /**
    The completion `NetworkService` wraps around a client's: an error wins and
    is passed on unchanged; otherwise a response castable to `[PhotoElement]`
    gives `(items, nil)` and anything else `(nil, badResponse)`. Every reply it
    delivers carries exactly one of items and error.
   */
  function Forward<R>(reply: Reply<R>, cast: R -> Option<seq<Photo>>): (r: Reply<seq<Photo>>)
    ensures reply.NoReply? <==> r.NoReply?
    ensures r.Reply? ==> (r.response.Some? <==> r.error.None?)
    ensures reply.Reply? && reply.error.Some? ==> r == Reply(None, reply.error)
    ensures reply.Reply? && reply.error.None? ==>
              if reply.response.Some? && cast(reply.response.value).Some?
              then r == Reply(cast(reply.response.value), None)
              else r == Reply(None, Some(BadResponse))
  {
    match reply
    case NoReply => NoReply
    case Reply(response, error) =>
      if error.Some? then Reply(None, error)
      else
        match response
        case Some(value) =>
          (match cast(value)
           case Some(items) => Reply(Some(items), None)
           case None => Reply(None, Some(BadResponse)))
        case None => Reply(None, Some(BadResponse))
  }

  /** The service's state: the page the next partial load starts from. */
  datatype Service = Service(nextFromPage: int)

  const Initial: Service := Service(PageRequest.NextPageAfterFirst)

  /** One fetch: the page asked of the client and the reply delivered to the caller. */
  datatype Fetch = Fetch(page: int, reply: Reply<seq<Photo>>)

  /** `fetchItems(completion:)`: always page 1, counter untouched. */
  function FetchItems<R>(client: int -> Reply<R>, cast: R -> Option<seq<Photo>>): (f: Fetch)
    ensures f.page == PageRequest.FirstPage
    ensures f.reply == Forward(client(PageRequest.FirstPage), cast)
  {
    Fetch(1, Forward(client(1), cast))
  }

  /**
    `fetchPaginatedItems(from:completion:)`: asks for `page` and sets the
    counter to `page + 1`, whatever the outcome and even below page 1.
   */
  function FetchPaginatedItems<R>(s: Service, page: int, client: int -> Reply<R>,
                                  cast: R -> Option<seq<Photo>>): (r: (Service, Fetch))
    ensures r.0.nextFromPage == page + 1
    ensures r.1.page == page && r.1.reply == Forward(client(page), cast)
  {
    (Service(page + 1), Fetch(page, Forward(client(page), cast)))
  }

  /** The client the app uses, for a given data-task outcome. */
  function ItemClient<Q>(transport: Transport, decode: Bytes -> Option<Q>): int -> Reply<Q> {
    page => ClientRequest(page, transport, decode).reply
  }

  // ---------------------------------------------------------------------------
  // Properties.

  /** A stub error is handed to the caller unchanged, with no items, for both fetches. */
  lemma ErrorPassesThrough<R>(s: Service, page: int, e: Error, response: Option<R>,
                              cast: R -> Option<seq<Photo>>)
    ensures var client := (p: int) => Reply(response, Some(e));
            && FetchItems(client, cast).reply == Reply(None, Some(e))
            && FetchPaginatedItems(s, page, client, cast).1.reply == Reply(None, Some(e))
  {
  }

  /** A stub response that is an array of photos reaches the caller as is. */
  lemma StubItemsPassThrough(s: Service, page: int, items: seq<Photo>)
    ensures var client := (p: int) => Reply(Some(items), None);
            var cast := (xs: seq<Photo>) => Some(xs);
            && FetchItems(client, cast).reply == Reply(Some(items), None)
            && FetchPaginatedItems(s, page, client, cast).1.reply == Reply(Some(items), None)
  {
  }

  /**
    Over the app's client, a partial fetch below page 1 never completes but
    still moves the counter to `page + 1`.
   */
  lemma PageBelowOneNeverCompletes<Q>(s: Service, page: int, transport: Transport,
                                      decode: Bytes -> Option<Q>, cast: Q -> Option<seq<Photo>>)
    requires page < 1
    ensures var r := FetchPaginatedItems(s, page, ItemClient(transport, decode), cast);
            r.1.reply == NoReply && r.0.nextFromPage == page + 1
  {
  }

  /**
    Over the app's client: decodable data that casts gives the items;
    undecodable data reaches the caller as `failureInJSONDecoding`; a
    transport error reaches it unchanged.
   */
  lemma EndToEnd<Q>(transport: Transport, decode: Bytes -> Option<Q>, cast: Q -> Option<seq<Photo>>)
    ensures var f := FetchItems(ItemClient(transport, decode), cast);
            && (transport.data.Some? && decode(transport.data.value).Some?
                && cast(decode(transport.data.value).value).Some? ==>
                  f.reply == Reply(cast(decode(transport.data.value).value), None))
            && (transport.data.Some? && decode(transport.data.value).None? ==>
                  f.reply == Reply(None, Some(ClientDecodingFailure)))
            && (transport.data.None? && transport.error.Some? ==>
                  f.reply == Reply(None, transport.error))
            && (transport.data.None? && transport.error.None? ==> f.reply == NoReply)
  {
  }

  /** After a run of partial fetches from the initial state the counter is one past the last page. */
  function FetchRun<R>(s: Service, pages: seq<int>, client: int -> Reply<R>,
                       cast: R -> Option<seq<Photo>>): Service
    decreases |pages|
  {
    if pages == [] then s
    else FetchRun(FetchPaginatedItems(s, pages[0], client, cast).0, pages[1..], client, cast)
  }

  lemma {:induction false} CounterFollowsLastPage<R>(s: Service, pages: seq<int>, client: int -> Reply<R>,
                                                     cast: R -> Option<seq<Photo>>)
    ensures pages == [] ==> FetchRun(s, pages, client, cast) == s
    ensures pages != [] ==> FetchRun(s, pages, client, cast).nextFromPage == pages[|pages| - 1] + 1
    decreases |pages|
  {
    if pages != [] {
      var s' := FetchPaginatedItems(s, pages[0], client, cast).0;
      CounterFollowsLastPage(s', pages[1..], client, cast);
      if |pages| > 1 {
        assert pages[1..][|pages[1..]| - 1] == pages[|pages| - 1];
      }
    }
  }
}
