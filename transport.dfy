/**
  The two marketplace calls the controller makes, as oracles: the offers list of a
  collection, and the price update of portalsCheckOfferPositionUpdatePrice, whose reply the
  controller classifies itself.
*/
module Transport {
  import opened Wrappers

  /** Why a remote call failed: the request itself threw (network, credentials, a body that
      is not JSON), or the update endpoint answered with a non-OK status. */
  datatype TransportError = RequestFailed | HttpStatus(status: int)

  /** How one async step of the controller ended. */
  datatype Outcome = Done | Failed(error: TransportError)

  /** What the update endpoint sent back. `parsed` is what JSON.parse makes of `text`, None
      when it throws; `NoResponse` is a fetch (or token fetch) that threw. */
  datatype UpdateReply<J> =
    | NoResponse
    | Response(ok: bool, status: int, text: string, parsed: Option<J>)

  /** portalsCheckOfferPositionUpdatePrice after the request: a non-OK status throws, an empty
      body or one that is not JSON gives null (None), anything else the parsed JSON. */
  function ClassifyUpdateReply<J>(reply: UpdateReply<J>): (r: Result<Option<J>, TransportError>)
    ensures r.Failure? <==> reply.NoResponse? || !reply.ok
    ensures r.Failure? ==> r.error == if reply.NoResponse? then RequestFailed else HttpStatus(reply.status)
    ensures r.Success? ==> (r.value.Some? <==> reply.text != "" && reply.parsed.Some?)
    ensures r.Success? && r.value.Some? ==> r.value == reply.parsed
  {
    match reply
    case NoResponse => Failure(RequestFailed)
    case Response(ok, status, text, parsed) =>
      if !ok then Failure(HttpStatus(status))
      else if text == "" then Success(None)
      else Success(parsed)
  }
}
