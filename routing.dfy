/**
 * The router of src/router.rs: a table from HTTP method to the routes
 * registered for it, in registration order; `paths_match`; and `lookup`,
 * which picks the first matching route, captures its parameters and hands
 * the request to that route's handler, or answers 404.
 *
 * A handler is the boxed closure `add` stores on the route; here it is an
 * opaque value, and `lookup` returns which handler it invokes and with what,
 * rather than running it.
 */
module Routing {
  import opened Wrappers
  import opened Http
  import opened Segments

  /** The boxed handler closure attached by `Router::add`. */
  datatype Handler = Handler(id: nat)

  datatype Route = Route(
    staticSegments: seq<StaticSegment>,
    dynamicSegments: seq<DynamicSegment>,
    handler: Option<Handler>)

  type Table = map<Method, seq<Route>>

  function SegmentCount(route: Route): nat
  {
    |route.staticSegments| + |route.dynamicSegments|
  }

  /**
   * Every position is below the segment count. `paths_match` indexes the
   * tokens by position once the arity agrees, so this is what keeps that
   * indexing inside the token list.
   */
  predicate InBounds(route: Route)
  {
    && (forall s :: s in route.staticSegments ==> s.position < SegmentCount(route))
    && (forall d :: d in route.dynamicSegments ==> d.position < SegmentCount(route))
  }

  function StaticPositions(route: Route): set<nat>
  {
    set s | s in route.staticSegments :: s.position
  }

  function DynamicPositions(route: Route): set<nat>
  {
    set d | d in route.dynamicSegments :: d.position
  }

  /**
   * The shape the route literal parsers produce: static and dynamic
   * positions are disjoint and together are exactly 0..count-1.
   */
  ghost predicate WellFormed(route: Route)
  {
    && StaticPositions(route) !! DynamicPositions(route)
    && forall p: nat :: p in StaticPositions(route) + DynamicPositions(route) <==> p < SegmentCount(route)
  }

  lemma WellFormedInBounds(route: Route)
    requires WellFormed(route)
    ensures InBounds(route)
  {
    forall s | s in route.staticSegments ensures s.position < SegmentCount(route) {
      assert s.position in StaticPositions(route);
      assert s.position in StaticPositions(route) + DynamicPositions(route);
    }
    forall d | d in route.dynamicSegments ensures d.position < SegmentCount(route) {
      assert d.position in DynamicPositions(route);
      assert d.position in StaticPositions(route) + DynamicPositions(route);
    }
  }

  // ---------------------------------------------------------------------
  // paths_match

  /** The static fold of `paths_match`: `fold(true, |m, s| m && raw[s.position] == s)`. */
  function StaticMatches(statics: seq<StaticSegment>, raw: seq<RawSegment>): (b: bool)
    requires forall s :: s in statics ==> s.position < |raw|
    ensures b <==> forall s :: s in statics ==> StaticEq(s, raw[s.position])
  {
    if statics == [] then true
    else
      var n := |statics| - 1;
      assert forall s :: s in statics[..n] ==> s in statics;
      assert forall s :: s in statics ==> s in statics[..n] || s == statics[n];
      StaticMatches(statics[..n], raw) && RawEqStatic(raw[statics[n].position], statics[n])
  }

  /** The dynamic fold of `paths_match`: `fold(true, |m, d| m && raw[d.position] == d)`. */
  function DynamicMatches(dynamics: seq<DynamicSegment>, raw: seq<RawSegment>): (b: bool)
    requires forall d :: d in dynamics ==> d.position < |raw|
    ensures b <==> forall d :: d in dynamics ==> raw[d.position].position == d.position
  {
    if dynamics == [] then true
    else
      var n := |dynamics| - 1;
      assert forall d :: d in dynamics[..n] ==> d in dynamics;
      assert forall d :: d in dynamics ==> d in dynamics[..n] || d == dynamics[n];
      DynamicMatches(dynamics[..n], raw) && RawEqDynamic(raw[dynamics[n].position], dynamics[n])
  }

  /**
   * `paths_match`: exact arity first; then every static segment must equal
   * its token, and every dynamic segment's token must sit at its position.
   */
  function PathsMatch(route: Route, raw: seq<RawSegment>): (b: bool)
    requires InBounds(route)
    ensures b <==>
      && |raw| == SegmentCount(route)
      && (forall s :: s in route.staticSegments ==> StaticEq(s, raw[s.position]))
      && (forall d :: d in route.dynamicSegments ==> raw[d.position].position == d.position)
  {
    if |raw| == SegmentCount(route) then
      StaticMatches(route.staticSegments, raw) && DynamicMatches(route.dynamicSegments, raw)
    else
      false
  }

  /** A route never matches a path with a different number of tokens, whatever they hold. */
  lemma ArityMismatchNeverMatches(route: Route, raw: seq<RawSegment>)
    requires InBounds(route)
    requires |raw| != SegmentCount(route)
    ensures !PathsMatch(route, raw)
  {
  }

  /**
   * On the tokens of a real path, matching is: same arity, and every static
   * segment's value equals the token at its position. Dynamic segments check
   * nothing about token values.
   */
  lemma MatchesPath(route: Route, path: string)
    requires InBounds(route)
    ensures PathsMatch(route, FromPath(path)) <==>
      && Slashes(path) == SegmentCount(route)
      && (forall s :: s in route.staticSegments ==> FromPath(path)[s.position].value == s.value)
  {
  }

  /** Changing a static segment's token to another value breaks the match. */
  lemma StaticExactness(route: Route, raw: seq<RawSegment>, s: StaticSegment, v: string)
    requires InBounds(route)
    requires s in route.staticSegments && s.position < |raw| && v != s.value
    ensures !PathsMatch(route, raw[s.position := RawSegment(v, raw[s.position].position)])
  {
    var raw' := raw[s.position := RawSegment(v, raw[s.position].position)];
    assert !StaticEq(s, raw'[s.position]);
  }

  /** Any value at a position only dynamic segments claim leaves the match as it was. */
  lemma DynamicPermissiveness(route: Route, raw: seq<RawSegment>, p: nat, v: string)
    requires InBounds(route)
    requires p < |raw|
    requires forall s :: s in route.staticSegments ==> s.position != p
    ensures PathsMatch(route, raw[p := RawSegment(v, raw[p].position)]) == PathsMatch(route, raw)
  {
    var raw' := raw[p := RawSegment(v, raw[p].position)];
    if |raw| == SegmentCount(route) {
      assert forall s :: s in route.staticSegments ==> raw'[s.position] == raw[s.position];
      assert forall d :: d in route.dynamicSegments ==> raw'[d.position].position == raw[d.position].position;
    }
  }

  // ---------------------------------------------------------------------
  // Params

  /**
   * The `fold` over the dynamic segments that inserts `(name, token)` into a
   * fresh map, one segment after the other.
   */
  function ParamsOf(dynamics: seq<DynamicSegment>, raw: seq<RawSegment>): (params: Params)
    requires forall d :: d in dynamics ==> d.position < |raw|
    ensures params.Keys == set d | d in dynamics :: d.name
  {
    if dynamics == [] then map[]
    else
      var n := |dynamics| - 1;
      assert forall d :: d in dynamics[..n] ==> d in dynamics;
      assert forall d :: d in dynamics ==> d in dynamics[..n] || d == dynamics[n];
      ParamsOf(dynamics[..n], raw)[dynamics[n].name := raw[dynamics[n].position].value]
  }

  /**
   * Each name maps to the token at the position of the LAST dynamic segment
   * that carries it (a later insert overwrites an earlier one).
   */
  lemma {:induction false} ParamsValue(dynamics: seq<DynamicSegment>, raw: seq<RawSegment>, k: nat)
    requires forall d :: d in dynamics ==> d.position < |raw|
    requires k < |dynamics|
    requires forall j :: k < j < |dynamics| ==> dynamics[j].name != dynamics[k].name
    ensures ParamsOf(dynamics, raw)[dynamics[k].name] == raw[dynamics[k].position].value
  {
    var n := |dynamics| - 1;
    if k < n {
      assert forall d :: d in dynamics[..n] ==> d in dynamics;
      ParamsValue(dynamics[..n], raw, k);
    }
  }

  /** With distinct names, every dynamic segment's name carries its own token. */
  lemma ParamsComplete(dynamics: seq<DynamicSegment>, raw: seq<RawSegment>)
    requires forall d :: d in dynamics ==> d.position < |raw|
    requires forall i, j :: 0 <= i < j < |dynamics| ==> dynamics[i].name != dynamics[j].name
    ensures forall k :: 0 <= k < |dynamics| ==>
      ParamsOf(dynamics, raw)[dynamics[k].name] == raw[dynamics[k].position].value
  {
    forall k | 0 <= k < |dynamics|
      ensures ParamsOf(dynamics, raw)[dynamics[k].name] == raw[dynamics[k].position].value
    {
      ParamsValue(dynamics, raw, k);
    }
  }

  // ---------------------------------------------------------------------
  // lookup

  predicate AllInBounds(routes: seq<Route>)
  {
    forall i :: 0 <= i < |routes| ==> InBounds(routes[i])
  }

  /** Route `i` matches and no earlier route does. */
  predicate IsFirstMatch(routes: seq<Route>, raw: seq<RawSegment>, i: nat)
    requires AllInBounds(routes)
  {
    && i < |routes|
    && PathsMatch(routes[i], raw)
    && forall j :: 0 <= j < i ==> !PathsMatch(routes[j], raw)
  }

  /** `routes.iter().filter(|r| paths_match(r, raw)).nth(0)`, as an index. */
  function FirstMatch(routes: seq<Route>, raw: seq<RawSegment>): (r: Option<nat>)
    requires AllInBounds(routes)
    ensures r.Some? ==> IsFirstMatch(routes, raw, r.value)
    ensures r.None? ==> forall j :: 0 <= j < |routes| ==> !PathsMatch(routes[j], raw)
  {
    if routes == [] then None
    else if PathsMatch(routes[0], raw) then Some(0)
    else
      assert AllInBounds(routes[1..]);
      match FirstMatch(routes[1..], raw)
      case None => None
      case Some(i) => Some(i + 1)
  }

  /** At most one route is the first match: a later matching route is never the one chosen. */
  lemma LaterMatchNeverChosen(routes: seq<Route>, raw: seq<RawSegment>, i: nat, j: nat)
    requires AllInBounds(routes)
    requires IsFirstMatch(routes, raw, i) && IsFirstMatch(routes, raw, j)
    ensures i == j
  {
  }

  /** Every stored route has its handler and positions inside its segment count. */
  predicate TableValid(table: Table)
  {
    forall m, i :: m in table && 0 <= i < |table[m]| ==>
      table[m][i].handler.Some? && InBounds(table[m][i])
  }

  function RoutesFor(table: Table, verb: Method): seq<Route>
  {
    if verb in table then table[verb] else []
  }

  /** The fixed response for an unroutable request: 404 with the JSON string "not found". */
  function NotFound(): (r: Response)
    ensures r == ErrorResponse(JString("not found"), NOT_FOUND)
  {
    Response(NOT_FOUND, None, JsonBody(JString("not found")))
  }

  /** What `lookup` resolves to: a call of a stored handler, or a response made on the spot. */
  datatype Dispatch =
    | Invoke(handler: Handler, req: Request, params: Params)
    | Respond(response: Response)

  /**
   * `Router::lookup`: tokenize the path, take the routes of the request's
   * method, pick the first that matches, capture its parameters and invoke
   * its handler; 404 when the method has no routes or none matches.
   */
  function Lookup(table: Table, req: Request): (d: Dispatch)
    requires TableValid(table)
    ensures d.Respond? ==> d.response == NotFound()
    ensures d.Invoke? <==>
      req.httpMethod in table &&
      exists i :: 0 <= i < |table[req.httpMethod]| && PathsMatch(table[req.httpMethod][i], FromPath(req.path))
    ensures d.Invoke? ==>
      && d.req == req
      && exists i: nat :: IsFirstMatch(table[req.httpMethod], FromPath(req.path), i)
           && Some(d.handler) == table[req.httpMethod][i].handler
           && d.params == ParamsOf(table[req.httpMethod][i].dynamicSegments, FromPath(req.path))
  {
    var raw := FromPath(req.path);
    if req.httpMethod !in table then Respond(NotFound())
    else
      var routes := table[req.httpMethod];
      assert AllInBounds(routes);
      match FirstMatch(routes, raw)
      case None => Respond(NotFound())
      case Some(i) =>
        var route := routes[i];
        Invoke(route.handler.value, req, ParamsOf(route.dynamicSegments, raw))
  }

  /**
   * Which handler runs, and with which parameters, depends only on the
   * method and the path: headers and body never change the outcome, so an
   * unroutable request gets the same 404 whatever it carries.
   */
  lemma LookupDependsOnlyOnMethodAndPath(table: Table, req: Request, headers: Headers, stream: ReadOutcome)
    requires TableValid(table)
    ensures Lookup(table, req.(headers := headers, stream := stream)).Respond? == Lookup(table, req).Respond?
    ensures Lookup(table, req).Respond? ==>
      Lookup(table, req.(headers := headers, stream := stream)) == Lookup(table, req)
    ensures Lookup(table, req).Invoke? ==>
      && Lookup(table, req.(headers := headers, stream := stream)).handler == Lookup(table, req).handler
      && Lookup(table, req.(headers := headers, stream := stream)).params == Lookup(table, req).params
  {
  }

  // ---------------------------------------------------------------------
  // add and the table it builds

  /** The table after `add(verb, route, handler)`. */
  function Registered(table: Table, verb: Method, route: Route, handler: Handler): (t: Table)
    ensures t.Keys == table.Keys + {verb}
    ensures forall m :: m in table && m != verb ==> t[m] == table[m]
    ensures |t[verb]| == |RoutesFor(table, verb)| + 1
    ensures t[verb][..|RoutesFor(table, verb)|] == RoutesFor(table, verb)
    ensures t[verb][|RoutesFor(table, verb)|] == route.(handler := Some(handler))
  {
    var routes := RoutesFor(table, verb) + [route.(handler := Some(handler))];
    assert routes[..|RoutesFor(table, verb)|] == RoutesFor(table, verb);
    table[verb := routes]
  }

  lemma RegisteredValid(table: Table, verb: Method, route: Route, handler: Handler)
    requires TableValid(table) && InBounds(route)
    ensures TableValid(Registered(table, verb, route, handler))
  {
    var t: Table := Registered(table, verb, route, handler);
    forall m: Method, i: int | m in t && 0 <= i < |t[m]| ensures t[m][i].handler.Some? && InBounds(t[m][i]) {
      if m == verb && i < |RoutesFor(table, verb)| {
        assert t[m][i] == t[verb][..|RoutesFor(table, verb)|][i];
      }
    }
  }

  /**
   * First-match precedence: register `r1` and then `r2` for the same method;
   * when both match a request that no earlier route matched, the request goes
   * to `r1`'s handler, never `r2`'s.
   */
  lemma FirstRegisteredWins(
    table: Table, verb: Method, r1: Route, h1: Handler, r2: Route, h2: Handler, req: Request)
    requires TableValid(table) && InBounds(r1) && InBounds(r2)
    requires req.httpMethod == verb
    requires forall r :: r in RoutesFor(table, verb) ==> !PathsMatch(r, FromPath(req.path))
    requires PathsMatch(r1, FromPath(req.path)) && PathsMatch(r2, FromPath(req.path))
    ensures TableValid(Registered(Registered(table, verb, r1, h1), verb, r2, h2))
    ensures Lookup(Registered(Registered(table, verb, r1, h1), verb, r2, h2), req)
         == Invoke(h1, req, ParamsOf(r1.dynamicSegments, FromPath(req.path)))
  {
    var raw := FromPath(req.path);
    var t1 := Registered(table, verb, r1, h1);
    RegisteredValid(table, verb, r1, h1);
    var t2 := Registered(t1, verb, r2, h2);
    RegisteredValid(t1, verb, r2, h2);
    var n := |RoutesFor(table, verb)|;
    var routes := t2[verb];
    assert RoutesFor(t1, verb) == t1[verb];
    assert routes[..n + 1] == t1[verb];
    assert routes[n] == r1.(handler := Some(h1));
    forall j | 0 <= j < n ensures !PathsMatch(routes[j], raw) {
      assert routes[j] == t1[verb][..n][j];
      assert routes[j] in RoutesFor(table, verb);
    }
    assert IsFirstMatch(routes, raw, n);
    LaterMatchNeverChosen(routes, raw, FirstMatch(routes, raw).value, n);
  }

  /** The router object: its method table, filled by `add` before serving starts. */
  class Router {
    var table: Table

    ghost predicate Valid()
      reads this
    {
      TableValid(table)
    }

    /** `Router::new`: an empty table. */
    constructor ()
      ensures Valid()
      ensures table == map[]
    {
      table := map[];
    }

    /**
     * `Router::add`: take the method's list (an empty one when the method is
     * new), store the handler on the route and push the route at the end.
     */
    method Add(verb: Method, route: Route, handler: Handler)
      requires Valid() && InBounds(route)
      modifies this
      ensures Valid()
      ensures table == Registered(old(table), verb, route, handler)
    {
      RegisteredValid(table, verb, route, handler);
      var entry := if verb in table then table[verb] else [];
      table := table[verb := entry + [route.(handler := Some(handler))]];
    }
  }
}
