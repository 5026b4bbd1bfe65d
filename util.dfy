/**
 * `read_body` of src/util.rs: whether a request has a body is decided from
 * its Content-Length header alone, and the body is whatever `read_to_end`
 * managed to read, its error dropped.
 */
module Util {
  import opened Wrappers
  import opened Http

  const CONTENT_LENGTH: string := "content-length"

  /** `req.header(name)`. */
  function Header(headers: Headers, name: string): Option<seq<string>>
  {
    if name in headers then Some(headers[name]) else None
  }

  /** `header_values.first()`. */
  function First(values: seq<string>): Option<string>
  {
    if values == [] then None else Some(values[0])
  }

  /**
   * `has_body`: the header, then its first value, then `!= "0"`, with every
   * missing step meaning `false`.
   */
  function HasBody(headers: Headers): (b: bool)
    ensures b <==> CONTENT_LENGTH in headers && |headers[CONTENT_LENGTH]| > 0 && headers[CONTENT_LENGTH][0] != "0"
  {
    match Header(headers, CONTENT_LENGTH)
    case None => false
    case Some(values) =>
      match First(values)
      case None => false
      case Some(value) => value != "0"
  }

  /** `read_body`: the bytes `read_to_end` produced when there is a body, nothing otherwise. */
  function ReadBody(req: Request): seq<byte>
  {
    if HasBody(req.headers) then req.stream.bytes else []
  }

  /**
   * `serde_json::from_slice(&read_body(&mut req).await).unwrap_or_else(|_| None)`,
   * as both examples write it: the decoded body, or `None` when it does not
   * decode.
   */
  function DecodeBody<B>(req: Request, decode: seq<byte> -> Result<Option<B>, string>): Option<B>
  {
    match decode(ReadBody(req))
    case Success(body) => body
    case Failure(_) => None
  }

  /** With no Content-Length header, or one without a value, nothing is read. */
  lemma NoLengthNoBody(req: Request)
    requires CONTENT_LENGTH !in req.headers || req.headers[CONTENT_LENGTH] == []
    ensures !HasBody(req.headers)
    ensures ReadBody(req) == []
  {
  }

  /** A Content-Length whose first value is `"0"` means an empty body, whatever the stream holds. */
  lemma ZeroLengthNoBody(req: Request)
    requires CONTENT_LENGTH in req.headers && |req.headers[CONTENT_LENGTH]| > 0
    requires req.headers[CONTENT_LENGTH][0] == "0"
    ensures ReadBody(req) == []
  {
  }

  /** Any other first value makes the body exactly the bytes read. */
  lemma LengthGivenReadsStream(req: Request)
    requires CONTENT_LENGTH in req.headers && |req.headers[CONTENT_LENGTH]| > 0
    requires req.headers[CONTENT_LENGTH][0] != "0"
    ensures ReadBody(req) == req.stream.bytes
  {
  }

  /** A non-empty body only comes with `has_body`, and from the stream. */
  lemma NonEmptyOnlyWithBody(req: Request)
    requires ReadBody(req) != []
    ensures HasBody(req.headers)
    ensures ReadBody(req) == req.stream.bytes
  {
  }

  /** A read error is ignored: only the bytes read before it count. */
  lemma ReadErrorIgnored(req: Request, error: Option<string>)
    ensures ReadBody(req.(stream := ReadOutcome(req.stream.bytes, error))) == ReadBody(req)
  {
  }
}
