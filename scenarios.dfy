/**
 * The routes the example programs register, followed end to end:
 * `route!(/"greeting"/name)` through `Router::add` and `Router::lookup`.
 */
module Scenarios {
  import opened Wrappers
  import opened Http
  import opened Segments
  import opened Routing
  import opened MacroSyntax
  import opened Codegen

  const GREETING_TOKENS: seq<Token> := [Slash, Lit("greeting"), Slash, Ident("name")]

  const GREETING_ROUTE: Route := Route([StaticSegment("greeting", 0)], [DynamicSegment("name", 1)], None)

  const GREETING_PIECES: seq<Piece> := [Piece(StaticKind, "greeting"), Piece(DynamicKind, "name")]

  lemma GreetingSegments()
    ensures FirstUnexpected(GREETING_TOKENS, 1) == None
    ensures SegmentsOf(GREETING_TOKENS[1..]) == GREETING_PIECES
  {
    var ts := GREETING_TOKENS;
    assert FirstUnexpected(ts, 1) == None;
    assert ts[1..] == [Lit("greeting")] + [Slash] + [Ident("name")];
    SlashesOnlySeparate([Lit("greeting")], [Ident("name")]);
    SegmentsOfSnoc([], Lit("greeting"));
    SegmentsOfSnoc([], Ident("name"));
    assert [] + [Lit("greeting")] == [Lit("greeting")];
    assert [] + [Ident("name")] == [Ident("name")];
  }

  lemma GreetingCounters()
    ensures PositionsOf(GREETING_PIECES, StaticKind) == [0]
    ensures PositionsOf(GREETING_PIECES, DynamicKind) == [1]
    ensures TextsOf(GREETING_PIECES, StaticKind) == ["greeting"]
    ensures TextsOf(GREETING_PIECES, DynamicKind) == ["name"]
  {
    var ps := GREETING_PIECES;
    assert ps == [] + [ps[0]] + [ps[1]];
    Snoc([], ps[0], StaticKind);
    Snoc([], ps[0], DynamicKind);
    Snoc([ps[0]], ps[1], StaticKind);
    Snoc([ps[0]], ps[1], DynamicKind);
    assert [] + [ps[0]] == [ps[0]];
  }

  /** `route!(/"greeting"/name)` is one literal at position 0 and one parameter at position 1. */
  lemma GreetingLiteral()
    ensures RouteLiteral(GREETING_TOKENS) == Success(GREETING_ROUTE)
  {
    GreetingSegments();
    GreetingCounters();
    var m := MacroRoute(GREETING_PIECES, [0], [1]);
    assert ParseSpec(GREETING_TOKENS) == Success(m);
    assert StaticSegmentsOf(m) == [StaticSegment("greeting", 0)];
    assert DynamicSegmentsOf(m) == [DynamicSegment("name", 1)];
  }

  /**
   * With the greeting route registered for GET (scenario: `router.add(Get,
   * route!(/"greeting"/name), ..)`), `GET /greeting/<name>` reaches its
   * handler with `name` bound to the token.
   */
  lemma GreetingDispatch(h: Handler, req: Request, name: string)
    requires req.httpMethod == Get && req.path == "/greeting/" + name && '/' !in name
    ensures TableValid(Registered(map[], Get, GREETING_ROUTE, h))
    ensures Routing.Lookup(Registered(map[], Get, GREETING_ROUTE, h), req) == Invoke(h, req, map["name" := name])
  {
    var table := Registered(map[], Get, GREETING_ROUTE, h);
    assert InBounds(GREETING_ROUTE);
    RegisteredValid(map[], Get, GREETING_ROUTE, h);
    var path := req.path;
    var raw := FromPath(path);
    assert path == "/" + Join(["greeting", name]);
    FromPathOfJoin(["greeting", name]);
    assert raw == [RawSegment("greeting", 0), RawSegment(name, 1)] by {
      assert Values(raw) == ["greeting", name];
      assert |raw| == 2;
      assert raw[0].value == Values(raw)[0] && raw[1].value == Values(raw)[1];
    }
    var routes := table[Get];
    assert routes == [GREETING_ROUTE.(handler := Some(h))];
    assert PathsMatch(routes[0], raw);
    assert IsFirstMatch(routes, raw, 0);
    LaterMatchNeverChosen(routes, raw, FirstMatch(routes, raw).value, 0);
    assert ParamsOf(routes[0].dynamicSegments, raw) == map["name" := name];
  }

  /** When the one greeting route does not match, lookup answers 404. */
  lemma GreetingNoMatch(h: Handler, req: Request)
    requires req.httpMethod == Get
    requires !PathsMatch(GREETING_ROUTE, FromPath(req.path))
    ensures TableValid(Registered(map[], Get, GREETING_ROUTE, h))
    ensures Routing.Lookup(Registered(map[], Get, GREETING_ROUTE, h), req) == Respond(NotFound())
  {
    assert InBounds(GREETING_ROUTE);
    RegisteredValid(map[], Get, GREETING_ROUTE, h);
    var routes := Registered(map[], Get, GREETING_ROUTE, h)[Get];
    assert routes == [GREETING_ROUTE.(handler := Some(h))];
    assert !PathsMatch(routes[0], FromPath(req.path));
  }

  /** One token too many: `GET /greeting/<name>/` is a 404. */
  lemma TrailingSlashMisses(h: Handler, req: Request, name: string)
    requires req.httpMethod == Get && '/' !in name
    requires req.path == "/greeting/" + name + "/"
    ensures TableValid(Registered(map[], Get, GREETING_ROUTE, h))
    ensures Routing.Lookup(Registered(map[], Get, GREETING_ROUTE, h), req) == Respond(NotFound())
  {
    var vs := ["greeting", name, ""];
    assert Join(vs[1..]) == name + "/" + "" by {
      assert vs[1..][1..] == [""];
    }
    assert req.path == "/" + Join(vs);
    FromPathOfJoin(vs);
    assert |FromPath(req.path)| == 3;
    GreetingNoMatch(h, req);
  }

  /** Another literal: `GET /hello/<name>` is a 404. */
  lemma OtherLiteralMisses(h: Handler, req: Request, name: string)
    requires req.httpMethod == Get && '/' !in name
    requires req.path == "/hello/" + name
    ensures TableValid(Registered(map[], Get, GREETING_ROUTE, h))
    ensures Routing.Lookup(Registered(map[], Get, GREETING_ROUTE, h), req) == Respond(NotFound())
  {
    assert req.path == "/" + Join(["hello", name]);
    FromPathOfJoin(["hello", name]);
    var raw := FromPath(req.path);
    assert raw[0].value == Values(raw)[0];
    assert StaticSegment("greeting", 0) in GREETING_ROUTE.staticSegments;
    GreetingNoMatch(h, req);
  }
}
