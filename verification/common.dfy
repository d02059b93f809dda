/**
  Types shared by the image cache, the two network revisions and the list
  screens of the photo viewer.
 */
module Common {

  /** Swift's `Optional`. */
  datatype Option<+T> = None | Some(value: T)

  /** Swift's `Result<Success, Failure>` as used by the older network manager. */
  datatype Result<+T> = Success(value: T) | Failure(error: Error)

  /** Raw bytes as handed over by the transport or read from a file. */
  type Bytes = seq<bv8>

  /**
    Every error value that flows through the network layer. A transport error
    (an `URLSession` error, or whatever error a stub client reports) is
    identified by an opaque code; the rest are the enum cases declared in the
    two network revisions.
   */
  datatype Error =
    | TransportError(code: int)
      // ItemNetworkClient.DecoderError.failureInJSONDecoding
    | ClientDecodingFailure
      // NetworkService.ServiceError.badResponse
    | BadResponse
      // NetworkManager.DecoderError.failureInJSONdecoding
    | ManagerDecodingFailure
      // NetworkManager.NetworkError.incorrectData
    | IncorrectData

  /**
    What the data task hands to its completion handler: optional body data and
    an optional error (the `URLResponse` argument is ignored by both revisions).
   */
  datatype Transport = Transport(data: Option<Bytes>, error: Option<Error>)

  /**
    The primary key of a photo record. Its type, and the order in which the
    store sorts by it, belong to `PhotoElementData`, which is not part of
    this model: the type is left abstract and the order is a parameter of
    every member that reads the store sorted.
   */
  type PhotoId(==, !new)

  /** One photo record of the listing (`PhotoElement` / `PhotoElementData`). */
  datatype Photo = Photo(id: PhotoId, downloadUrl: Option<string>)

  /** Some element of a non-empty set, for proofs. */
  ghost function Any<T>(s: set<T>): (x: T)
    requires s != {}
    ensures x in s
  {
    var x :| x in s; x
  }

  /** Some element of a non-empty set. */
  method Pick<T>(s: set<T>) returns (x: T)
    requires s != {}
    ensures x in s
  {
    x :| x in s;
  }
}
