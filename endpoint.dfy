/**
 * The request pipeline of src/endpoint.rs: `Endpoint::new(f)` wraps a
 * handler into a closure that reads the whole body, decodes it as the
 * handler's request type, runs the handler and turns every outcome into a
 * response.
 *
 * Reading, decoding and encoding are parameters: `read` is the outcome of
 * `body.into_vec()` (the error's description on failure), `decode` stands
 * for `serde_json::from_slice`, and `encode` for `serde_json::to_vec` of the
 * handler's result: `Some` of the JSON value it writes, or `None` when
 * serialisation fails and `unwrap` panics. A message is a JSON value, which
 * always serialises, so `error_response` cannot panic.
 */
module Endpoint {
  import opened Wrappers
  import opened Http

  /** What the closure's future resolves to: a response, or a panic in `success_response`. */
  datatype Outcome = Responded(response: Response) | Panicked

  /** The outcome of the closure. */
  function Respond<Rq, Rs>(
    read: Result<seq<byte>, string>,
    decode: seq<byte> -> Result<Rq, string>,
    handler: Rq -> Result<Rs, WebError>,
    encode: Rs -> Option<Json>): Outcome
  {
    match read
    case Failure(description) => Responded(ErrorResponse(JString(description), INTERNAL_SERVER_ERROR))
    case Success(bytes) =>
      match decode(bytes)
      case Failure(description) => Responded(ErrorResponse(JString(description), BAD_REQUEST))
      case Success(req) =>
        match handler(req)
        case Success(res) =>
          (match encode(res)
           case Some(json) => Responded(SuccessResponse(json))
           case None => Panicked)
        case Failure(e) => Responded(ErrorResponse(e.msg, e.code))
  }

  /** A failed read is a 500 carrying the read error's description. */
  lemma ReadFailureIs500<Rq, Rs>(
    description: string, decode: seq<byte> -> Result<Rq, string>,
    handler: Rq -> Result<Rs, WebError>, encode: Rs -> Option<Json>)
    ensures var r := Respond(Failure(description), decode, handler, encode);
      r.Responded? && r.response.status == INTERNAL_SERVER_ERROR &&
      r.response.body == JsonBody(JString(description))
  {
  }

  /** A body that does not decode is a 400 carrying the decoder's description. */
  lemma DecodeFailureIs400<Rq, Rs>(
    bytes: seq<byte>, decode: seq<byte> -> Result<Rq, string>,
    handler: Rq -> Result<Rs, WebError>, encode: Rs -> Option<Json>)
    requires decode(bytes).Failure?
    ensures var r := Respond(Success(bytes), decode, handler, encode);
      r.Responded? && r.response.status == BAD_REQUEST &&
      r.response.body == JsonBody(JString(decode(bytes).error))
  {
  }

  /**
   * The handler runs only when the read and the decode both succeed: before
   * that, swapping the handler for any other changes nothing.
   */
  lemma HandlerOnlyAfterDecode<Rq, Rs>(
    read: Result<seq<byte>, string>, decode: seq<byte> -> Result<Rq, string>,
    handler: Rq -> Result<Rs, WebError>, other: Rq -> Result<Rs, WebError>, encode: Rs -> Option<Json>)
    requires read.Failure? || decode(read.value).Failure?
    ensures Respond(read, decode, handler, encode) == Respond(read, decode, other, encode)
  {
  }

  /**
   * Once the request is decoded, the outcome is the handler's: its result
   * encoded with 200 (a panic if it does not serialise), or its error's
   * message with its error's code.
   */
  lemma HandlerOutcomeIsResponse<Rq, Rs>(
    bytes: seq<byte>, decode: seq<byte> -> Result<Rq, string>,
    handler: Rq -> Result<Rs, WebError>, encode: Rs -> Option<Json>)
    requires decode(bytes).Success?
    ensures var out := handler(decode(bytes).value);
      Respond(Success(bytes), decode, handler, encode) ==
        if out.Failure? then Responded(ErrorResponse(out.error.msg, out.error.code))
        else if encode(out.value).Some? then Responded(SuccessResponse(encode(out.value).value))
        else Panicked
  {
  }

  /** The closure panics exactly when the handler succeeds with a result that does not serialise. */
  lemma PanicsExactly<Rq, Rs>(
    read: Result<seq<byte>, string>, decode: seq<byte> -> Result<Rq, string>,
    handler: Rq -> Result<Rs, WebError>, encode: Rs -> Option<Json>)
    ensures Respond(read, decode, handler, encode).Panicked? <==>
      && read.Success?
      && decode(read.value).Success?
      && handler(decode(read.value).value).Success?
      && encode(handler(decode(read.value).value).value).None?
  {
  }

  /**
   * Every error becomes a status: the closure answers 200 exactly when
   * everything succeeded and the result serialised, or the handler's own
   * error carries 200.
   */
  lemma StatusIsOkExactly<Rq, Rs>(
    read: Result<seq<byte>, string>, decode: seq<byte> -> Result<Rq, string>,
    handler: Rq -> Result<Rs, WebError>, encode: Rs -> Option<Json>)
    ensures var r := Respond(read, decode, handler, encode);
      (r.Responded? && r.response.status == OK) <==>
      && read.Success?
      && decode(read.value).Success?
      && var out := handler(decode(read.value).value);
         (out.Success? && encode(out.value).Some?) || (out.Failure? && out.error.code == OK)
  {
  }

  /** Every response carries a JSON body and no explicit content type. */
  lemma AlwaysJson<Rq, Rs>(
    read: Result<seq<byte>, string>, decode: seq<byte> -> Result<Rq, string>,
    handler: Rq -> Result<Rs, WebError>, encode: Rs -> Option<Json>)
    ensures var r := Respond(read, decode, handler, encode);
      r.Responded? ==> r.response.body.JsonBody? && r.response.contentType == None
  {
  }
}
