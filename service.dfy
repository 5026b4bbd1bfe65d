/**
 * The services of example/example1/src/service.rs, which sit between the
 * router and an endpoint: `service` decodes the body (a failure becomes
 * `None`), calls the endpoint, and turns its outcome into a JSON response;
 * `auth_service` first insists on an `authorization` header.
 *
 * `decode` stands for `serde_json::from_slice` into `Option<Body>`, `encode`
 * for `serde_json::to_vec` of the endpoint's result (an error is given by
 * its display text).
 */
module Service {
  import opened Wrappers
  import opened Http
  import opened Util

  const AUTHORIZATION: string := "authorization"

  /** `response(code, mime::JSON)`: that status, the JSON content type, no body yet. */
  function JsonResponse(code: StatusCode): Response
  {
    Response(code, Some(JSON_MIME), Empty)
  }

  /** The `match maybe_bytes` of `service`: the endpoint's outcome as a response. */
  function Reply<Rs>(outcome: Result<Rs, WebError>, encode: Rs -> Result<seq<byte>, string>): Response
  {
    match outcome
    case Success(res) =>
      (match encode(res)
       case Success(bytes) => JsonResponse(OK).(body := Bytes(bytes))
       case Failure(e) => JsonResponse(INTERNAL_SERVER_ERROR).(body := JsonBody(JString(e))))
    case Failure(e) => JsonResponse(e.code).(body := JsonBody(e.msg))
  }

  /** `service(req, params, endpoint)`. */
  function Serve<B, Rs>(
    req: Request, params: Params,
    decode: seq<byte> -> Result<Option<B>, string>,
    endpoint: Req<B> -> Result<Rs, WebError>,
    encode: Rs -> Result<seq<byte>, string>): Response
  {
    Reply(endpoint(Req(req, DecodeBody(req, decode), params)), encode)
  }

  /** `auth_service(req, params, endpoint)`. */
  function AuthServe<B, Rs>(
    req: Request, params: Params,
    decode: seq<byte> -> Result<Option<B>, string>,
    endpoint: Req<B> -> Result<Rs, WebError>,
    encode: Rs -> Result<seq<byte>, string>): Response
  {
    if AUTHORIZATION !in req.headers then NewResponse(BAD_REQUEST)
    else Serve(req, params, decode, endpoint, encode)
  }

  /**
   * A body that does not decode is no error: the endpoint is still called,
   * with no body, the request and the parameters.
   */
  lemma DecodeFailureCallsWithNone<B, Rs>(
    req: Request, params: Params,
    decode: seq<byte> -> Result<Option<B>, string>,
    endpoint: Req<B> -> Result<Rs, WebError>,
    encode: Rs -> Result<seq<byte>, string>)
    requires decode(ReadBody(req)).Failure?
    ensures Serve(req, params, decode, endpoint, encode) == Reply(endpoint(Req(req, None, params)), encode)
  {
  }

  /** Without a Content-Length the endpoint sees whatever the decoder makes of no bytes. */
  lemma NoLengthDecodesNothing<B, Rs>(
    req: Request, params: Params,
    decode: seq<byte> -> Result<Option<B>, string>,
    endpoint: Req<B> -> Result<Rs, WebError>,
    encode: Rs -> Result<seq<byte>, string>)
    requires CONTENT_LENGTH !in req.headers
    ensures Serve(req, params, decode, endpoint, encode) ==
      Reply(endpoint(Req(req, if decode([]).Success? then decode([]).value else None, params)), encode)
  {
  }

  /** A result that encodes is a 200 whose body is exactly the encoded bytes. */
  lemma EncodedResultIs200<Rs>(res: Rs, encode: Rs -> Result<seq<byte>, string>)
    requires encode(res).Success?
    ensures Reply(Success(res), encode) == Response(OK, Some(JSON_MIME), Bytes(encode(res).value))
  {
  }

  /** A result that fails to encode is a 500 whose body is the JSON string of the error's text. */
  lemma EncodeFailureIs500<Rs>(res: Rs, encode: Rs -> Result<seq<byte>, string>)
    requires encode(res).Failure?
    ensures Reply(Success(res), encode) ==
      Response(INTERNAL_SERVER_ERROR, Some(JSON_MIME), JsonBody(JString(encode(res).error)))
  {
  }

  /** An endpoint error is its own status and message, whatever the encoder would have done. */
  lemma EndpointErrorPassesThrough<Rs>(
    e: WebError, encode: Rs -> Result<seq<byte>, string>, other: Rs -> Result<seq<byte>, string>)
    ensures Reply(Failure(e), encode) == Response(e.code, Some(JSON_MIME), JsonBody(e.msg))
    ensures Reply(Failure(e), encode) == Reply(Failure(e), other)
  {
  }

  /** Every response `service` builds carries the JSON content type and a body. */
  lemma ServeIsJson<B, Rs>(
    req: Request, params: Params,
    decode: seq<byte> -> Result<Option<B>, string>,
    endpoint: Req<B> -> Result<Rs, WebError>,
    encode: Rs -> Result<seq<byte>, string>)
    ensures Serve(req, params, decode, endpoint, encode).contentType == Some(JSON_MIME)
    ensures !Serve(req, params, decode, endpoint, encode).body.Empty?
  {
  }

  /**
   * `auth_service` without an `authorization` header answers a bare 400 and
   * never reaches `service`: any other endpoint, decoder or encoder gives the
   * same response.
   */
  lemma MissingAuthorizationShortCircuits<B, Rs>(
    req: Request, params: Params,
    decode: seq<byte> -> Result<Option<B>, string>,
    endpoint: Req<B> -> Result<Rs, WebError>,
    encode: Rs -> Result<seq<byte>, string>,
    decode': seq<byte> -> Result<Option<B>, string>,
    endpoint': Req<B> -> Result<Rs, WebError>,
    encode': Rs -> Result<seq<byte>, string>)
    requires AUTHORIZATION !in req.headers
    ensures AuthServe(req, params, decode, endpoint, encode) == NewResponse(BAD_REQUEST)
    ensures AuthServe(req, params, decode, endpoint, encode) == AuthServe(req, params, decode', endpoint', encode')
  {
  }

  /** With the header present, `auth_service` is `service`, unchanged. */
  lemma AuthorizedDelegates<B, Rs>(
    req: Request, params: Params,
    decode: seq<byte> -> Result<Option<B>, string>,
    endpoint: Req<B> -> Result<Rs, WebError>,
    encode: Rs -> Result<seq<byte>, string>)
    requires AUTHORIZATION in req.headers
    ensures AuthServe(req, params, decode, endpoint, encode) == Serve(req, params, decode, endpoint, encode)
  {
  }

  /** The short-circuit reply is told apart from anything `service` says: it has no content type. */
  lemma ShortCircuitIsDistinct<B, Rs>(
    req: Request, params: Params,
    decode: seq<byte> -> Result<Option<B>, string>,
    endpoint: Req<B> -> Result<Rs, WebError>,
    encode: Rs -> Result<seq<byte>, string>)
    ensures AuthServe(req, params, decode, endpoint, encode).contentType == None <==> AUTHORIZATION !in req.headers
  {
    ServeIsJson(req, params, decode, endpoint, encode);
  }
}
