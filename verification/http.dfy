/** What the client does with an HTTP response before looking at its content
    (`_get` and `refreshAccessToken`): a status outside 2xx is an error
    carrying that status, otherwise the body must parse. */
module Http {
  import opened Wrappers

  /** The client's error taxonomy. */
  datatype Error =
    | MissingId(message: string)  // getContact called without an `id` property
    | Transport                   // socket or response stream error
    | BadStatus(status: int)
    | MalformedBody               // JSON.parse threw

  /** The text `getContact` hands to its callback when `id` is missing. */
  const MissingIdMessage := "No id found in params"

  /** The success range both request paths test. */
  predicate IsSuccessStatus(status: int) {
    200 <= status < 300
  }

  /** The outcome of one response: the status is checked before the body, so
      a non-2xx status wins even over an unparseable body. */
  function HandleResponse<T>(status: int, body: Option<T>): (r: Result<T, Error>)
    ensures r.Success? <==> IsSuccessStatus(status) && body.Some?
    ensures r.Success? ==> r.value == body.value
    ensures !IsSuccessStatus(status) ==> r == Failure(BadStatus(status))
    ensures IsSuccessStatus(status) && body.None? ==> r == Failure(MalformedBody)
  {
    if !IsSuccessStatus(status) then Failure(BadStatus(status))
    else match body
      case Some(b) => Success(b)
      case None => Failure(MalformedBody)
  }
}
