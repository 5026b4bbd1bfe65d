/**
 * The vocabulary shared by every stage: HTTP methods, status codes, JSON
 * values, requests and responses, and the crate's `Error { code, msg }`.
 *
 * Socket I/O and serde are below this line: a request carries the outcome of
 * reading its body stream as a value, and a JSON body is kept as the JSON
 * value that `serde_json::to_vec(..).unwrap()` would have written.
 */
module Http {
  import opened Wrappers

  datatype Method = Get | Head | Post | Put | Delete | Connect | Options | Trace | Patch

  type StatusCode = nat

  const OK: StatusCode := 200
  const BAD_REQUEST: StatusCode := 400
  const NOT_FOUND: StatusCode := 404
  const INTERNAL_SERVER_ERROR: StatusCode := 500

  /** The media type `mime::JSON`. */
  const JSON_MIME: string := "application/json"

  newtype byte = x: int | 0 <= x < 256

  datatype Json =
    | JNull
    | JBool(b: bool)
    | JNumber(n: int)
    | JString(s: string)
    | JArray(items: seq<Json>)
    | JObject(fields: seq<(string, Json)>)

  /** A response body: nothing, raw bytes, or the JSON encoding of a value. */
  datatype Body = Empty | Bytes(data: seq<byte>) | JsonBody(value: Json)

  /** A response as this code builds it; `contentType` is the one set explicitly. */
  datatype Response = Response(status: StatusCode, contentType: Option<string>, body: Body)

  /** `Error` of src/error.rs (also the `WebError` of src/endpoint.rs). */
  datatype WebError = WebError(code: StatusCode, msg: Json)

  /** Header name (lower case) to its values, in order. */
  type Headers = map<string, seq<string>>

  /** What `read_to_end` leaves behind: the bytes read so far and the error it stopped on, if any. */
  datatype ReadOutcome = ReadOutcome(bytes: seq<byte>, error: Option<string>)

  datatype Request = Request(httpMethod: Method, path: string, headers: Headers, stream: ReadOutcome)

  /** Path parameters: name to captured token. */
  type Params = map<string, string>

  /** `Req<Body>` of src/req.rs: the request, the decoded body if any, and the path parameters. */
  datatype Req<B> = Req(req: Request, body: Option<B>, params: Params)

  /** `Response::new(code)`: that status, no content type, no body. */
  function NewResponse(code: StatusCode): Response
  {
    Response(code, None, Empty)
  }

  /** `Params::get`. */
  function Lookup(params: Params, name: string): Option<string>
  {
    if name in params then Some(params[name]) else None
  }

  /** `error_response(msg, code)` (src/router.rs, src/endpoint.rs): the given status, the encoded message. */
  function ErrorResponse(msg: Json, code: StatusCode): Response
  {
    Response(code, None, JsonBody(msg))
  }

  /** `success_response(msg)` (src/router.rs, src/endpoint.rs): status 200, the encoded message. */
  function SuccessResponse(msg: Json): Response
  {
    Response(OK, None, JsonBody(msg))
  }

  /** A success response is exactly an error response carrying status 200. */
  lemma SuccessIsErrorAtOk(msg: Json)
    ensures SuccessResponse(msg) == ErrorResponse(msg, OK)
    ensures forall code: StatusCode :: ErrorResponse(msg, code) == SuccessResponse(msg) <==> code == OK
  {
  }
}
