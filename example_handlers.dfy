/**
 * The endpoints of example/example1/src/main.rs, which take a `Req<Body>`
 * and are run through the services of example/example1/src/service.rs:
 * `example_route` checks the `id` parameter and then the body, `hello`
 * greets the `name` parameter.
 */
module ExampleHandlers {
  import opened Wrappers
  import opened Http
  import opened Util
  import opened Service
  import Decimal

  const ID: string := "id"
  const NAME: string := "name"

  datatype ExampleRequest = ExampleRequest(foo: string)

  function ParamMissing(): WebError
  {
    WebError(INTERNAL_SERVER_ERROR, JString("param does not exist"))
  }

  /** `example_route(req)`: the id, then the body, then `(id, String::new())`. */
  function ExampleRoute(req: Req<ExampleRequest>): Result<(nat, string), WebError>
  {
    match Lookup(req.params, ID)
    case None => Failure(ParamMissing())
    case Some(text) =>
      match Decimal.ParseU64(text)
      case Failure(kind) => Failure(WebError(BAD_REQUEST, JString(Decimal.Message(kind))))
      case Success(id) =>
        if req.body.None? then Failure(WebError(BAD_REQUEST, JString("body required")))
        else Success((id, ""))
  }

  /** `format!("Greetings {}!", name)`. */
  function Greeting(name: string): string
  {
    "Greetings " + name + "!"
  }

  /** `hello(req)`. */
  function Hello(req: Req<seq<string>>): Result<string, WebError>
  {
    match Lookup(req.params, NAME)
    case None => Failure(ParamMissing())
    case Some(name) => Success(Greeting(name))
  }

  /**
   * `example_route` succeeds exactly when `id` is a `u64` numeral and a body
   * was decoded, and then answers that number and an empty string.
   */
  lemma ExampleRouteSucceeds(req: Req<ExampleRequest>)
    ensures ExampleRoute(req).Success? <==>
      ID in req.params && Decimal.IsU64Numeral(req.params[ID]) && req.body.Some?
    ensures ExampleRoute(req).Success? ==>
      ExampleRoute(req).value == (Decimal.Value(Decimal.Digits(req.params[ID])), "")
  {
    if ID in req.params {
      Decimal.ParseU64Spec(req.params[ID]);
    }
  }

  /**
   * The id is checked before the body: a missing id is a 500 and a bad one a
   * 400 with the parser's message, whether or not a body came; "body
   * required" is only reported for a good id.
   */
  lemma IdCheckedBeforeBody(req: Req<ExampleRequest>)
    ensures ID !in req.params ==> ExampleRoute(req) == Failure(ParamMissing())
    ensures ID in req.params && Decimal.ParseU64(req.params[ID]).Failure? ==>
      ExampleRoute(req) == Failure(WebError(BAD_REQUEST, JString(Decimal.Message(Decimal.ParseU64(req.params[ID]).error))))
    ensures ExampleRoute(req) == Failure(WebError(BAD_REQUEST, JString("body required"))) <==>
      ID in req.params && Decimal.IsU64Numeral(req.params[ID]) && req.body.None?
  {
    if ID in req.params {
      var text := req.params[ID];
      Decimal.ParseU64Spec(text);
      if Decimal.ParseU64(text).Failure? {
        MessagesDiffer(Decimal.ParseU64(text).error);
      }
    }
  }

  /** No parser message reads "body required", so the two 400s are told apart. */
  lemma MessagesDiffer(kind: Decimal.IntErrorKind)
    ensures Decimal.Message(kind) != "body required"
  {
    var m := Decimal.Message(kind);
    assert m[0] != 'b';
  }

  /** `hello` fails only without a `name`, and otherwise greets that name. */
  lemma HelloSpec(req: Req<seq<string>>)
    ensures Hello(req).Failure? <==> NAME !in req.params
    ensures Hello(req).Failure? ==> Hello(req).error == ParamMissing()
    ensures Hello(req).Success? ==> Hello(req).value == Greeting(req.params[NAME])
  {
  }

  /** The greeting gives the name back: different names, different greetings. */
  lemma GreetingInjective(a: string, b: string)
    requires Greeting(a) == Greeting(b)
    ensures a == b
  {
    var g := Greeting(a);
    assert a == g[10..|g| - 1];
  }

  /**
   * `hello` behind `service`: with a `name` parameter the reply is a 200
   * JSON response whose body is the encoded greeting, whatever the body was.
   */
  lemma GreetingServed(
    req: Request, params: Params,
    decode: seq<byte> -> Result<Option<seq<string>>, string>,
    encode: string -> Result<seq<byte>, string>)
    requires NAME in params
    requires encode(Greeting(params[NAME])).Success?
    ensures Serve(req, params, decode, Hello, encode) ==
      Response(OK, Some(JSON_MIME), Bytes(encode(Greeting(params[NAME])).value))
  {
  }

  /**
   * `example_route` behind `auth_service`: no `authorization` header is a bare
   * 400; otherwise a bad id is answered with its JSON error before the body
   * is considered.
   */
  lemma ExampleRouteServed(
    req: Request, params: Params,
    decode: seq<byte> -> Result<Option<ExampleRequest>, string>,
    encode: ((nat, string)) -> Result<seq<byte>, string>)
    ensures AUTHORIZATION !in req.headers ==>
      AuthServe(req, params, decode, ExampleRoute, encode) == NewResponse(BAD_REQUEST)
    ensures AUTHORIZATION in req.headers && ID !in params ==>
      AuthServe(req, params, decode, ExampleRoute, encode) ==
        Response(INTERNAL_SERVER_ERROR, Some(JSON_MIME), JsonBody(JString("param does not exist")))
  {
  }
}
