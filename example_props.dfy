/**
 * The extractors and endpoint of examples/example1/main.rs: `Props` for
 * `Auth`, `Id` and `Body<T>`, the `#[endpoint]` function `example_route`,
 * and what the attribute generates for it, `___example_route`, which runs
 * the three extractors in order before the endpoint.
 */
module ExampleProps {
  import opened Wrappers
  import opened Http
  import opened Util
  import opened Codegen
  import Decimal

  const AUTHORIZATION: string := "authorization"
  const ID: string := "id"

  datatype Auth = Auth(userId: nat, token: string)
  datatype Id = Id(id: nat)
  datatype ExampleRequest = ExampleRequest(foo: string)
  /** `Body<T> { inner: Option<T> }`. */
  datatype BodyProp<T> = BodyProp(inner: Option<T>)

  /**
   * `parse_header` takes the first value with `unwrap`: a present
   * `authorization` header must have one.
   */
  predicate AuthorizationHasValue(req: Request)
  {
    AUTHORIZATION in req.headers ==> |req.headers[AUTHORIZATION]| > 0
  }

  /** `parse_header`: the first `authorization` value, or a 400. */
  function ParseHeader(req: Request): Result<string, WebError>
    requires AuthorizationHasValue(req)
  {
    match Header(req.headers, AUTHORIZATION)
    case None => Failure(WebError(BAD_REQUEST, JString("authorization required")))
    case Some(values) => Success(values[0])
  }

  /** `<Auth as Props>::call`. */
  function AuthProps(req: Request, params: Params): Result<Extracted<Auth>, WebError>
    requires AuthorizationHasValue(req)
  {
    match ParseHeader(req)
    case Failure(e) => Failure(e)
    case Success(header) => Success(Extracted(req, params, Auth(1, header)))
  }

  /** `<Id as Props>::call`: the `id` parameter, parsed as a `u64`. */
  function IdProps(req: Request, params: Params): Result<Extracted<Id>, WebError>
  {
    match Lookup(params, ID)
    case None => Failure(WebError(INTERNAL_SERVER_ERROR, JString("param does not exist")))
    case Some(text) =>
      match Decimal.ParseU64(text)
      case Failure(kind) => Failure(WebError(BAD_REQUEST, JString(Decimal.Message(kind))))
      case Success(id) => Success(Extracted(req, params, Id(id)))
  }

  /** `<Body<T> as Props>::call`: never an error, `None` when the body does not decode. */
  function BodyProps<T>(req: Request, params: Params, decode: seq<byte> -> Result<Option<T>, string>)
    : Result<Extracted<BodyProp<T>>, WebError>
  {
    Success(Extracted(req, params, BodyProp(DecodeBody(req, decode))))
  }

  /** `example_route(_auth, id, body)`. */
  function ExampleRoute(auth: Auth, id: Id, body: BodyProp<ExampleRequest>): Result<Response, WebError>
  {
    match body.inner
    case None => Failure(WebError(BAD_REQUEST, JString("body required")))
    case Some(_) => Success(NewResponse(OK))
  }

  /** `hello()`. */
  function HelloEndpoint(): Result<Response, WebError>
  {
    Success(NewResponse(OK))
  }

  /** `___example_route(req, params)` as `#[endpoint]` writes it, one `?` per extractor. */
  function HiddenExampleRoute(req: Request, params: Params, decode: seq<byte> -> Result<Option<ExampleRequest>, string>)
    : Result<Response, WebError>
    requires AuthorizationHasValue(req)
  {
    match AuthProps(req, params)
    case Failure(e) => Failure(e)
    case Success(a) =>
      match IdProps(a.req, a.params)
      case Failure(e) => Failure(e)
      case Success(i) =>
        match BodyProps(i.req, i.params, decode)
        case Failure(e) => Failure(e)
        case Success(b) => ExampleRoute(a.value, i.value, b.value)
  }

  // ---------------------------------------------------------------------
  // The extractors one at a time

  /** Without the header `Auth` fails with 400; with it, the token is the first value and nothing else changes. */
  lemma AuthSpec(req: Request, params: Params)
    requires AuthorizationHasValue(req)
    ensures AUTHORIZATION !in req.headers ==>
      AuthProps(req, params) == Failure(WebError(BAD_REQUEST, JString("authorization required")))
    ensures AUTHORIZATION in req.headers ==>
      AuthProps(req, params) == Success(Extracted(req, params, Auth(1, req.headers[AUTHORIZATION][0])))
  {
  }

  /**
   * `Id` fails with 500 without the parameter and with 400 and the parser's
   * message when it is not a `u64` numeral; otherwise it passes the request
   * and parameters on with the number.
   */
  lemma IdSpec(req: Request, params: Params)
    ensures ID !in params ==>
      IdProps(req, params) == Failure(WebError(INTERNAL_SERVER_ERROR, JString("param does not exist")))
    ensures ID in params && !Decimal.IsU64Numeral(params[ID]) ==>
      && IdProps(req, params).Failure?
      && IdProps(req, params).error.code == BAD_REQUEST
      && IdProps(req, params).error.msg == JString(Decimal.Message(Decimal.ParseU64(params[ID]).error))
    ensures ID in params && Decimal.IsU64Numeral(params[ID]) ==>
      IdProps(req, params) == Success(Extracted(req, params, Id(Decimal.Value(Decimal.Digits(params[ID])))))
  {
    if ID in params {
      Decimal.ParseU64Spec(params[ID]);
    }
  }

  /** A printed `u64` as the `id` parameter comes back as that number. */
  lemma IdRoundTrip(req: Request, params: Params, n: nat)
    requires n <= Decimal.U64_MAX
    requires Lookup(params, ID) == Some(Decimal.ToDecimal(n))
    ensures IdProps(req, params) == Success(Extracted(req, params, Id(n)))
  {
    Decimal.RoundTrip(n);
  }

  /** `Body` never fails, and a body that does not decode is `None`. */
  lemma BodyNeverFails<T>(req: Request, params: Params, decode: seq<byte> -> Result<Option<T>, string>)
    ensures BodyProps(req, params, decode).Success?
    ensures BodyProps(req, params, decode).value.req == req && BodyProps(req, params, decode).value.params == params
    ensures decode(ReadBody(req)).Failure? ==> BodyProps(req, params, decode).value.value.inner == None
  {
  }

  // ---------------------------------------------------------------------
  // The generated wrapper

  /**
   * The extractors run in declaration order and the first failure wins:
   * no authorization beats everything, then a missing or bad `id`; only
   * then is the body looked at.
   */
  lemma ExampleRouteOutcome(req: Request, params: Params, decode: seq<byte> -> Result<Option<ExampleRequest>, string>)
    requires AuthorizationHasValue(req)
    ensures AUTHORIZATION !in req.headers ==>
      HiddenExampleRoute(req, params, decode) == Failure(WebError(BAD_REQUEST, JString("authorization required")))
    ensures AUTHORIZATION in req.headers ==>
      HiddenExampleRoute(req, params, decode) ==
        match IdProps(req, params)
        case Failure(e) => Failure(e)
        case Success(_) =>
          if DecodeBody(req, decode).None? then Failure(WebError(BAD_REQUEST, JString("body required")))
          else Success(NewResponse(OK))
  {
  }

  /** The signature `example_route(_auth: Auth, id: Id, body: Body<ExampleRequest>)`. */
  const EXAMPLE_SIG: FnSig := FnSig("example_route", [
    Typed(PatIdent("_auth"), TyPath("Auth")),
    Typed(PatIdent("id"), TyPath("Id")),
    Typed(PatIdent("body"), TyPath("Body<ExampleRequest>"))])

  /** The value one extractor yields, whichever of the three it is. */
  datatype PropValue =
    | AuthValue(auth: Auth)
    | IdValue(id: Id)
    | BodyValue(body: BodyProp<ExampleRequest>)

  const UNRESOLVED: WebError := WebError(INTERNAL_SERVER_ERROR, JString("no Props impl"))

  function Lift<V>(r: Result<Extracted<V>, WebError>, wrap: V -> PropValue): Result<Extracted<PropValue>, WebError>
  {
    match r
    case Failure(e) => Failure(e)
    case Success(x) => Success(Extracted(x.req, x.params, wrap(x.value)))
  }

  /**
   * `<ty as Props>::call(req, params)`, resolved the way the compiler
   * resolves it for the three types of this program. A type without an
   * implementation would not compile, and a missing header value would
   * panic; both answer `UNRESOLVED` here, and neither arises under the
   * preconditions below.
   */
  function ExampleCall(decode: seq<byte> -> Result<Option<ExampleRequest>, string>, ty: string, req: Request, params: Params)
    : Result<Extracted<PropValue>, WebError>
  {
    if ty == "Auth" then
      if AuthorizationHasValue(req) then Lift(AuthProps(req, params), a => AuthValue(a)) else Failure(UNRESOLVED)
    else if ty == "Id" then Lift(IdProps(req, params), i => IdValue(i))
    else if ty == "Body<ExampleRequest>" then Lift(BodyProps(req, params, decode), b => BodyValue(b))
    else Failure(UNRESOLVED)
  }

  /** `example_route(#(#args),*)` on the extracted values. */
  function ExampleEndpoint(values: seq<PropValue>): Result<Response, WebError>
  {
    if |values| == 3 && values[0].AuthValue? && values[1].IdValue? && values[2].BodyValue? then
      ExampleRoute(values[0].auth, values[1].id, values[2].body)
    else Failure(UNRESOLVED)
  }

  /** `#[endpoint]` reads the three arguments as three props, in order, and names the wrapper `___example_route`. */
  lemma ExampleSignatureProps()
    ensures PropsOf(EXAMPLE_SIG.args) == [Prop("_auth", "Auth"), Prop("id", "Id"), Prop("body", "Body<ExampleRequest>")]
    ensures HiddenName(EXAMPLE_SIG.name) == "___example_route"
  {
    var args := EXAMPLE_SIG.args;
    assert PropsOf(args[..1]) == [Prop("_auth", "Auth")] by {
      assert args[..1][..0] == [];
    }
    assert PropsOf(args[..2]) == PropsOf(args[..1]) + [Prop("id", "Id")] by {
      assert args[..2][..1] == args[..1];
    }
    assert PropsOf(args) == PropsOf(args[..2]) + [Prop("body", "Body<ExampleRequest>")] by {
      assert args[..2] == args[..|args| - 1];
    }
  }

  /** Three props run as three chained calls, each on the pair the previous one returned. */
  lemma RunThree<V>(
    props: seq<Prop>, call: (string, Request, Params) -> Result<Extracted<V>, WebError>,
    req: Request, params: Params)
    requires |props| == 3
    ensures RunProps(props, call, req, params) ==
      match call(props[0].ty, req, params)
      case Failure(e) => Failure(e)
      case Success(x0) =>
        match call(props[1].ty, x0.req, x0.params)
        case Failure(e) => Failure(e)
        case Success(x1) =>
          match call(props[2].ty, x1.req, x1.params)
          case Failure(e) => Failure(e)
          case Success(x2) => Success(Threaded(x2.req, x2.params, [x0.value, x1.value, x2.value]))
  {
    var r1 := RunProps(props[..1], call, req, params);
    assert r1 == match call(props[0].ty, req, params)
      case Failure(e) => Failure(e)
      case Success(x) => Success(Threaded(x.req, x.params, [] + [x.value])) by {
      var one := props[..1];
      assert one[..|one| - 1] == [];
      assert one[|one| - 1] == props[0];
      assert RunProps(one[..|one| - 1], call, req, params) == Success(Threaded(req, params, []));
    }
    var r2 := RunProps(props[..2], call, req, params);
    assert r2 == match r1
      case Failure(e) => Failure(e)
      case Success(t) =>
        match call(props[1].ty, t.req, t.params)
        case Failure(e) => Failure(e)
        case Success(x) => Success(Threaded(x.req, x.params, t.values + [x.value])) by {
      assert props[..2][..1] == props[..1];
      assert props[..2][1] == props[1];
    }
    assert RunProps(props, call, req, params) == match r2
      case Failure(e) => Failure(e)
      case Success(t) =>
        match call(props[2].ty, t.req, t.params)
        case Failure(e) => Failure(e)
        case Success(x) => Success(Threaded(x.req, x.params, t.values + [x.value])) by {
      assert props[..2] == props[..|props| - 1];
    }
    match call(props[0].ty, req, params)
    case Failure(_) =>
    case Success(x0) =>
      assert [] + [x0.value] == [x0.value];
      match call(props[1].ty, x0.req, x0.params)
      case Failure(_) =>
      case Success(x1) =>
        assert [x0.value] + [x1.value] == [x0.value, x1.value];
        match call(props[2].ty, x1.req, x1.params)
        case Failure(_) =>
        case Success(x2) =>
          assert [x0.value, x1.value] + [x2.value] == [x0.value, x1.value, x2.value];
  }

  /**
   * The general wrapper of `#[endpoint]`, run on this signature's props
   * with this program's extractors, is `___example_route`.
   */
  lemma GeneratedWrapperIsExampleRoute(req: Request, params: Params, decode: seq<byte> -> Result<Option<ExampleRequest>, string>)
    requires AuthorizationHasValue(req)
    ensures Wrapper(PropsOf(EXAMPLE_SIG.args), (ty, rq, ps) => ExampleCall(decode, ty, rq, ps), ExampleEndpoint, req, params)
      == HiddenExampleRoute(req, params, decode)
  {
    ExampleSignatureProps();
    var props := PropsOf(EXAMPLE_SIG.args);
    var call := (ty, rq, ps) => ExampleCall(decode, ty, rq, ps);
    RunThree(props, call, req, params);
    assert props[0].ty == "Auth" && props[1].ty == "Id" && props[2].ty == "Body<ExampleRequest>";
    match AuthProps(req, params)
    case Failure(e) =>
      assert call("Auth", req, params) == Failure(e);
    case Success(a) =>
      assert call("Auth", req, params) == Success(Extracted(a.req, a.params, AuthValue(a.value)));
      match IdProps(a.req, a.params)
      case Failure(e) =>
        assert call("Id", a.req, a.params) == Failure(e);
      case Success(i) =>
        assert call("Id", a.req, a.params) == Success(Extracted(i.req, i.params, IdValue(i.value)));
        var b := BodyProps(i.req, i.params, decode).value;
        assert call("Body<ExampleRequest>", i.req, i.params) == Success(Extracted(b.req, b.params, BodyValue(b.value)));
  }
}
