/**
  The older network layer (`NetworkManager`, a shared singleton): a private
  `networkRequest` delivering `Result<[Any], Error>`, and `loadPhotos` /
  `loadPartPhotos` that collapse every failure into `.incorrectData` and
  every success into `.success`, an uncastable payload becoming `[]`.
 */
module NetworkManager {
  import opened Common
  import PageRequest

  /** One request: what was sent, if anything, and the completion, if it is ever called. */
  datatype Call<+R> = Call(request: Option<PageRequest.Request>, completion: Option<Result<R>>)

  /**
    The private `networkRequest(for:completion:)`. Below page 1 nothing is
    sent and nothing completes; data that decodes gives `.success`, data that
    does not gives `.failure(failureInJSONdecoding)`, no data with an error
    gives `.failure(error)`, and neither never completes.
   */
  function Request<Q>(page: int, transport: Transport, decode: Bytes -> Option<Q>): (c: Call<Q>)
    ensures c.request.Some? <==> page >= 1
    ensures c.request.Some? ==> c.request == PageRequest.ForPage(page)
    ensures page < 1 ==> c.completion == None
    ensures page >= 1 && transport.data.Some? && decode(transport.data.value).Some? ==>
              c.completion == Some(Success(decode(transport.data.value).value))
    ensures page >= 1 && transport.data.Some? && decode(transport.data.value).None? ==>
              c.completion == Some(Failure(ManagerDecodingFailure))
    ensures page >= 1 && transport.data.None? && transport.error.Some? ==>
              c.completion == Some(Failure(transport.error.value))
    ensures transport.data.None? && transport.error.None? ==> c.completion == None
  {
    match PageRequest.ForPage(page)
    case None => Call(None, None)
    case Some(request) =>
      var completion :=
        match transport.data
        case Some(data) =>
          (match decode(data)
           case Some(photos) => Some(Success(photos))
           case None => Some(Failure(ManagerDecodingFailure)))
        case None =>
          (match transport.error
           case Some(e) => Some(Failure(e))
           case None => None);
      Call(Some(request), completion)
  }

  /**
    The completion `loadPhotos` / `loadPartPhotos` put around the request's:
    any success is `.success` of the payload cast to `[PhotoElement]`, or `[]`;
    any failure, whatever its cause, is `.failure(.incorrectData)`.
   */
  function Adapt<Q>(completion: Option<Result<Q>>, cast: Q -> Option<seq<Photo>>): (r: Option<Result<seq<Photo>>>)
    ensures completion.None? <==> r.None?
    ensures r.Some? && r.value.Failure? ==> r.value.error == IncorrectData
    ensures completion.Some? ==> (completion.value.Success? <==> r.value.Success?)
    ensures completion.Some? && completion.value.Success? ==>
              r.value.value == (if cast(completion.value.value).Some?
                                then cast(completion.value.value).value else [])
  {
    match completion
    case None => None
    case Some(Success(photos)) =>
      Some(Success(match cast(photos) case Some(items) => items case None => []))
    case Some(Failure(_)) => Some(Failure(IncorrectData))
  }

  /** The manager's state: the shared `nextFromPage` counter. */
  datatype Manager = Manager(nextFromPage: int)

  const Shared: Manager := Manager(PageRequest.NextPageAfterFirst)

  datatype Load = Load(request: Option<PageRequest.Request>, completion: Option<Result<seq<Photo>>>)

  /** `loadPhotos(completion:)`: always page 1; the counter is not touched. */
  function LoadPhotos<Q>(transport: Transport, decode: Bytes -> Option<Q>,
                         cast: Q -> Option<seq<Photo>>): (l: Load)
    ensures l.request == PageRequest.ForPage(PageRequest.FirstPage)
    ensures l.completion == Adapt(Request(PageRequest.FirstPage, transport, decode).completion, cast)
  {
    var c := Request(1, transport, decode);
    Load(c.request, Adapt(c.completion, cast))
  }

  /**
    `loadPartPhotos(from:completion:)`: asks for `page`, then sets the shared
    counter to `page + 1` whatever happens to the request.
   */
  function LoadPartPhotos<Q>(m: Manager, page: int, transport: Transport, decode: Bytes -> Option<Q>,
                             cast: Q -> Option<seq<Photo>>): (r: (Manager, Load))
    ensures r.0.nextFromPage == page + 1
    ensures r.1.request == PageRequest.ForPage(page)
    ensures r.1.completion == Adapt(Request(page, transport, decode).completion, cast)
  {
    var c := Request(page, transport, decode);
    (Manager(page + 1), Load(c.request, Adapt(c.completion, cast)))
  }

  // ---------------------------------------------------------------------------
  // Properties.

  /** A load never reports any error but `.incorrectData`. */
  lemma OnlyIncorrectData<Q>(m: Manager, page: int, transport: Transport, decode: Bytes -> Option<Q>,
                             cast: Q -> Option<seq<Photo>>, e: Error)
    ensures LoadPhotos(transport, decode, cast).completion == Some(Failure(e)) ==> e == IncorrectData
    ensures LoadPartPhotos(m, page, transport, decode, cast).1.completion == Some(Failure(e)) ==>
              e == IncorrectData
  {
  }

  /** Decodable data always succeeds, with an empty list when the payload does not cast. */
  lemma DecodedAlwaysSucceeds<Q>(transport: Transport, decode: Bytes -> Option<Q>,
                                 cast: Q -> Option<seq<Photo>>)
    requires transport.data.Some? && decode(transport.data.value).Some?
    requires cast(decode(transport.data.value).value).None?
    ensures LoadPhotos(transport, decode, cast).completion == Some(Success([]))
  {
  }

  /** Below page 1 a partial load sends nothing and never completes, yet moves the counter. */
  lemma PartBelowOne<Q>(m: Manager, page: int, transport: Transport, decode: Bytes -> Option<Q>,
                        cast: Q -> Option<seq<Photo>>)
    requires page < 1
    ensures var r := LoadPartPhotos(m, page, transport, decode, cast);
            r.1 == Load(None, None) && r.0.nextFromPage == page + 1
  {
  }
}
