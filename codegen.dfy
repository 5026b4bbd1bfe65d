/**
 * The procedural macros of codegen/src/lib.rs.
 *
 * `route!(/"path"/param/...)` parses a path literal into static segments
 * (string literals) and dynamic segments (identifiers), numbering them in
 * input order, and expands to a `Route` with no handler yet.
 *
 * `#[endpoint]` reads an async function's signature, collects one prop per
 * `name: Type` argument, and emits a hidden wrapper `___name(req, params)`
 * that runs `<Type as Props>::call(req, params).await?` for each prop in
 * declaration order and then calls the function with the extracted values.
 *
 * Token streams are lists of abstract tokens; the expansion is modelled by
 * the values it builds (the segment lists, the prop list, the hidden name)
 * and, for the wrapper, by what running it does.
 */
module Codegen {
  import opened Wrappers
  import opened Http
  import opened Segments
  import opened Routing
  import opened MacroSyntax

  // =====================================================================
  // route!

  datatype ParseError =
    | ExpectedSlash       // the input does not begin with `/`
    | Unexpected(at: nat) // a token that is not a literal, an identifier or `/`

  /**
   * The parsed literal: every segment in order, and the counter values handed
   * to the static and to the dynamic segments.
   */
  datatype MacroRoute = MacroRoute(
    segments: seq<Piece>,
    staticPositions: seq<nat>,
    dynamicPositions: seq<nat>)

  predicate Permitted(t: Token)
  {
    t.Slash? || t.Lit? || t.Ident?
  }

  /** The segment a token contributes: a literal is static, an identifier dynamic, `/` nothing. */
  function SegmentOf(t: Token): seq<Piece>
  {
    match t
    case Lit(content) => [Piece(StaticKind, content)]
    case Ident(name) => [Piece(DynamicKind, name)]
    case _ => []
  }

  function SegmentsOf(ts: seq<Token>): seq<Piece>
  {
    if ts == [] then [] else SegmentsOf(ts[..|ts| - 1]) + SegmentOf(ts[|ts| - 1])
  }

  lemma SegmentsOfSnoc(ts: seq<Token>, t: Token)
    ensures SegmentsOf(ts + [t]) == SegmentsOf(ts) + SegmentOf(t)
  {
    assert (ts + [t])[..|ts|] == ts;
  }

  /** The first token at or after `i` that the loop rejects. */
  function FirstUnexpected(ts: seq<Token>, i: nat): (r: Option<nat>)
    ensures r.Some? ==>
      i <= r.value < |ts| && !Permitted(ts[r.value]) && forall j :: i <= j < r.value ==> Permitted(ts[j])
    ensures r.None? ==> forall j :: i <= j < |ts| ==> Permitted(ts[j])
    decreases |ts| - i
  {
    if i >= |ts| then None
    else if !Permitted(ts[i]) then Some(i)
    else FirstUnexpected(ts, i + 1)
  }

  /** The parse loop from index `i`, with `acc` collected so far. */
  function Collect(ts: seq<Token>, i: nat, acc: seq<Piece>): Result<seq<Piece>, nat>
    decreases |ts| - i
  {
    if i >= |ts| then Success(acc)
    else if !Permitted(ts[i]) then Failure(i)
    else Collect(ts, i + 1, acc + SegmentOf(ts[i]))
  }

  lemma SegmentsStep(ts: seq<Token>, i: nat)
    requires 1 <= i < |ts|
    ensures SegmentsOf(ts[1..i + 1]) == SegmentsOf(ts[1..i]) + SegmentOf(ts[i])
  {
    var done := ts[1..i];
    assert ts[1..i + 1] == done + [ts[i]];
    SegmentsOfSnoc(done, ts[i]);
  }

  /**
   * The loop, having collected the segments of `ts[1..i]`, stops at the
   * first token it rejects, or collects the segments of the whole input.
   */
  lemma {:induction false} CollectMeetsSpec(ts: seq<Token>, i: nat)
    requires 1 <= i <= |ts|
    ensures Collect(ts, i, SegmentsOf(ts[1..i])) ==
      match FirstUnexpected(ts, i)
      case Some(k) => Failure(k)
      case None => Success(SegmentsOf(ts[1..]))
    decreases |ts| - i
  {
    if i == |ts| {
      assert ts[1..i] == ts[1..];
    } else if Permitted(ts[i]) {
      SegmentsStep(ts, i);
      CollectMeetsSpec(ts, i + 1);
    }
  }

  /** What `Route::parse` computes, stated over the whole input at once. */
  function ParseSpec(ts: seq<Token>): Result<MacroRoute, ParseError>
  {
    if ts == [] || ts[0] != Slash then Failure(ExpectedSlash)
    else match FirstUnexpected(ts, 1)
      case Some(i) => Failure(Unexpected(i))
      case None =>
        var segments := SegmentsOf(ts[1..]);
        Success(MacroRoute(segments, PositionsOf(segments, StaticKind), PositionsOf(segments, DynamicKind)))
  }

  /**
   * `impl Parse for Route`: a leading `/`, then a loop that turns literals
   * into static segments and identifiers into dynamic ones, giving each the
   * next counter value; `/` is skipped and anything else is an error.
   */
  method Parse(ts: seq<Token>) returns (r: Result<MacroRoute, ParseError>)
    ensures r == ParseSpec(ts)
  {
    if ts == [] || ts[0] != Slash {
      return Failure(ExpectedSlash);
    }
    assert ts[1..1] == [];
    CollectMeetsSpec(ts, 1);
    var count := 0;
    var staticPositions: seq<nat> := [];
    var dynamicPositions: seq<nat> := [];
    var segments: seq<Piece> := [];
    var i: nat := 1;
    while i < |ts|
      invariant 1 <= i <= |ts|
      invariant Collect(ts, 1, []) == Collect(ts, i, segments)
      invariant count == |segments|
      invariant staticPositions == PositionsOf(segments, StaticKind)
      invariant dynamicPositions == PositionsOf(segments, DynamicKind)
    {
      match ts[i] {
        case Lit(content) =>
          var p := Piece(StaticKind, content);
          Snoc(segments, p, StaticKind);
          Snoc(segments, p, DynamicKind);
          segments := segments + [p];
          staticPositions := staticPositions + [count];
          count := count + 1;
        case Ident(name) =>
          var p := Piece(DynamicKind, name);
          Snoc(segments, p, StaticKind);
          Snoc(segments, p, DynamicKind);
          segments := segments + [p];
          dynamicPositions := dynamicPositions + [count];
          count := count + 1;
        case Slash =>
          assert segments + SegmentOf(ts[i]) == segments;
        case _ =>
          return Failure(Unexpected(i));
      }
      i := i + 1;
    }
    return Success(MacroRoute(segments, staticPositions, dynamicPositions));
  }

  /** Segments keep input order: collecting over `a ++ b` is collecting over `a`, then over `b`. */
  lemma {:induction false} SegmentsOfConcat(a: seq<Token>, b: seq<Token>)
    ensures SegmentsOf(a + b) == SegmentsOf(a) + SegmentsOf(b)
  {
    if b != [] {
      var n := |b| - 1;
      SegmentsOfConcat(a, b[..n]);
      assert (a + b)[..|a| + n] == a + b[..n];
    } else {
      assert a + b == a;
    }
  }

  /** Slashes only separate: the segments of `a / b` are those of `a` followed by those of `b`. */
  lemma SlashesOnlySeparate(a: seq<Token>, b: seq<Token>)
    ensures SegmentsOf(a + [Slash] + b) == SegmentsOf(a) + SegmentsOf(b)
  {
    SegmentsOfConcat(a + [Slash], b);
    SegmentsOfSnoc(a, Slash);
  }

  /**
   * A successful parse keeps the invariant the router relies on: static and
   * dynamic positions are each strictly increasing, are disjoint, and
   * together are exactly 0..count-1; the k-th static position holds the k-th
   * literal and the k-th dynamic position the k-th identifier.
   */
  lemma ParsedPositionsCover(ts: seq<Token>)
    requires ParseSpec(ts).Success?
    ensures var m := ParseSpec(ts).value;
      && StrictlyIncreasing(m.staticPositions)
      && StrictlyIncreasing(m.dynamicPositions)
      && (forall p :: p in m.staticPositions ==> p !in m.dynamicPositions)
      && (forall p: nat :: p < |m.segments| <==> p in m.staticPositions || p in m.dynamicPositions)
      && |TextsOf(m.segments, StaticKind)| == |m.staticPositions|
      && |TextsOf(m.segments, DynamicKind)| == |m.dynamicPositions|
  {
    var m := ParseSpec(ts).value;
    PositionsPairTexts(m.segments, StaticKind);
    PositionsPairTexts(m.segments, DynamicKind);
    PositionsPartition(m.segments);
  }

  /** `dynamic_segments` output: the k-th identifier's text with the k-th dynamic position. */
  function DynamicZip(names: seq<string>, positions: seq<nat>): (r: seq<DynamicSegment>)
    ensures |r| == if |names| < |positions| then |names| else |positions|
    ensures forall k :: 0 <= k < |r| ==> r[k] == DynamicSegment(names[k], positions[k])
  {
    var n := if |names| < |positions| then |names| else |positions|;
    seq(n, k requires 0 <= k < n => DynamicSegment(names[k], positions[k]))
  }

  function StaticSegmentsOf(m: MacroRoute): seq<StaticSegment>
  {
    StaticZip(TextsOf(m.segments, StaticKind), m.staticPositions)
  }

  function DynamicSegmentsOf(m: MacroRoute): seq<DynamicSegment>
  {
    DynamicZip(TextsOf(m.segments, DynamicKind), m.dynamicPositions)
  }

  /** `Route::static_segments`: collect the literals in order, then pair them with the static positions. */
  method StaticSegments(m: MacroRoute) returns (segs: seq<StaticSegment>)
    ensures segs == StaticSegmentsOf(m)
  {
    var contents: seq<string> := [];
    for i := 0 to |m.segments|
      invariant contents == TextsOf(m.segments[..i], StaticKind)
    {
      assert m.segments[..i + 1][..i] == m.segments[..i];
      if m.segments[i].kind == StaticKind {
        contents := contents + [m.segments[i].text];
      }
    }
    assert m.segments[..|m.segments|] == m.segments;
    segs := StaticZip(contents, m.staticPositions);
  }

  /** `Route::dynamic_segments`: collect the identifiers in order, then pair them with the dynamic positions. */
  method DynamicSegments(m: MacroRoute) returns (segs: seq<DynamicSegment>)
    ensures segs == DynamicSegmentsOf(m)
  {
    var names: seq<string> := [];
    for i := 0 to |m.segments|
      invariant names == TextsOf(m.segments[..i], DynamicKind)
    {
      assert m.segments[..i + 1][..i] == m.segments[..i];
      if m.segments[i].kind == DynamicKind {
        names := names + [m.segments[i].text];
      }
    }
    assert m.segments[..|m.segments|] == m.segments;
    segs := DynamicZip(names, m.dynamicPositions);
  }

  /** `Route { static_segments, dynamic_segments, handler: None }` for a parsed literal. */
  function BuildRoute(m: MacroRoute): Route
  {
    Route(StaticSegmentsOf(m), DynamicSegmentsOf(m), None)
  }

  /** What `route!` expands to for the given input. */
  function RouteLiteral(ts: seq<Token>): Result<Route, ParseError>
  {
    match ParseSpec(ts)
    case Failure(e) => Failure(e)
    case Success(m) => Success(BuildRoute(m))
  }

  /** `route!`: parse, then build the route from the two segment lists. */
  method ExpandRoute(ts: seq<Token>) returns (r: Result<Route, ParseError>)
    ensures r == RouteLiteral(ts)
    ensures r.Success? ==> r.value.handler == None
  {
    var parsed := Parse(ts);
    match parsed {
      case Failure(e) =>
        r := Failure(e);
      case Success(m) =>
        var dynamics := DynamicSegments(m);
        var statics := StaticSegments(m);
        r := Success(Route(statics, dynamics, None));
    }
  }

  /** Without a leading `/` there is no route. */
  lemma LeadingSlashRequired(ts: seq<Token>)
    requires ts == [] || ts[0] != Slash
    ensures RouteLiteral(ts) == Failure(ExpectedSlash)
  {
  }

  /** The positions in a parsed literal are the ones its counter handed out. */
  ghost predicate Counted(m: MacroRoute)
  {
    && m.staticPositions == PositionsOf(m.segments, StaticKind)
    && m.dynamicPositions == PositionsOf(m.segments, DynamicKind)
  }

  lemma ParsedIsCounted(ts: seq<Token>)
    requires ParseSpec(ts).Success?
    ensures Counted(ParseSpec(ts).value)
  {
  }

  /** The set of positions a zipped list carries is the set of the counter values. */
  lemma {:induction false} BuiltPositions(m: MacroRoute)
    requires Counted(m)
    ensures forall p: nat :: p in StaticPositions(BuildRoute(m)) <==> p in m.staticPositions
    ensures forall p: nat :: p in DynamicPositions(BuildRoute(m)) <==> p in m.dynamicPositions
  {
    var route := BuildRoute(m);
    PositionsPairTexts(m.segments, StaticKind);
    PositionsPairTexts(m.segments, DynamicKind);
    forall p: nat ensures p in StaticPositions(route) <==> p in m.staticPositions {
      if p in m.staticPositions {
        var k :| 0 <= k < |m.staticPositions| && m.staticPositions[k] == p;
        assert route.staticSegments[k].position == p;
      }
    }
    forall p: nat ensures p in DynamicPositions(route) <==> p in m.dynamicPositions {
      if p in m.dynamicPositions {
        var k :| 0 <= k < |m.dynamicPositions| && m.dynamicPositions[k] == p;
        assert route.dynamicSegments[k].position == p;
      }
    }
  }

  /** A route built from a counted literal is well formed, with one place per segment. */
  lemma BuildWellFormed(m: MacroRoute)
    requires Counted(m)
    ensures WellFormed(BuildRoute(m))
    ensures InBounds(BuildRoute(m))
    ensures SegmentCount(BuildRoute(m)) == |m.segments|
  {
    var route := BuildRoute(m);
    PositionsPairTexts(m.segments, StaticKind);
    PositionsPairTexts(m.segments, DynamicKind);
    PositionsPartition(m.segments);
    BuiltPositions(m);
    WellFormedInBounds(route);
  }

  /** A route from `route!` is well formed, and so safe to hand to `Router::add`. */
  lemma RouteLiteralWellFormed(ts: seq<Token>)
    requires RouteLiteral(ts).Success?
    ensures WellFormed(RouteLiteral(ts).value)
    ensures InBounds(RouteLiteral(ts).value)
    ensures SegmentCount(RouteLiteral(ts).value) == |ParseSpec(ts).value.segments|
  {
    ParsedIsCounted(ts);
    BuildWellFormed(ParseSpec(ts).value);
  }

  /** The static segments of a built route are exactly the literals, each at its own index. */
  lemma BuiltStatics(m: MacroRoute, raw: seq<RawSegment>)
    requires Counted(m)
    requires |raw| == |m.segments|
    ensures InBounds(BuildRoute(m)) && SegmentCount(BuildRoute(m)) == |m.segments|
    ensures
      (forall s :: s in BuildRoute(m).staticSegments ==> raw[s.position].value == s.value) <==>
      (forall p :: 0 <= p < |m.segments| && m.segments[p].kind == StaticKind ==> raw[p].value == m.segments[p].text)
  {
    BuildWellFormed(m);
    PositionsPairTexts(m.segments, StaticKind);
    if forall s :: s in BuildRoute(m).staticSegments ==> raw[s.position].value == s.value {
      LiteralsChecked(m, raw);
    }
    if forall p :: 0 <= p < |m.segments| && m.segments[p].kind == StaticKind ==> raw[p].value == m.segments[p].text {
      StaticsChecked(m, raw);
    }
  }

  lemma LiteralsChecked(m: MacroRoute, raw: seq<RawSegment>)
    requires Counted(m)
    requires |raw| == |m.segments|
    requires InBounds(BuildRoute(m)) && SegmentCount(BuildRoute(m)) == |m.segments|
    requires forall s :: s in BuildRoute(m).staticSegments ==> raw[s.position].value == s.value
    ensures forall p :: 0 <= p < |m.segments| && m.segments[p].kind == StaticKind ==> raw[p].value == m.segments[p].text
  {
    var statics := BuildRoute(m).staticSegments;
    PositionsPairTexts(m.segments, StaticKind);
    forall p | 0 <= p < |m.segments| && m.segments[p].kind == StaticKind
      ensures raw[p].value == m.segments[p].text
    {
      assert p in m.staticPositions;
      var k :| 0 <= k < |m.staticPositions| && m.staticPositions[k] == p;
      assert statics[k] in statics;
    }
  }

  lemma StaticsChecked(m: MacroRoute, raw: seq<RawSegment>)
    requires Counted(m)
    requires |raw| == |m.segments|
    requires InBounds(BuildRoute(m)) && SegmentCount(BuildRoute(m)) == |m.segments|
    requires forall p :: 0 <= p < |m.segments| && m.segments[p].kind == StaticKind ==> raw[p].value == m.segments[p].text
    ensures forall s :: s in BuildRoute(m).staticSegments ==> raw[s.position].value == s.value
  {
    var statics := BuildRoute(m).staticSegments;
    PositionsPairTexts(m.segments, StaticKind);
    forall s | s in statics ensures raw[s.position].value == s.value {
      var k :| 0 <= k < |statics| && statics[k] == s;
      assert m.segments[m.staticPositions[k]] == Piece(StaticKind, TextsOf(m.segments, StaticKind)[k]);
    }
  }

  /**
   * End to end: the route `route!` builds matches a request path exactly
   * when the path has one token per segment and each literal equals the
   * token at its place; identifiers accept any token.
   */
  lemma RouteLiteralMatches(ts: seq<Token>, path: string)
    requires RouteLiteral(ts).Success?
    ensures InBounds(RouteLiteral(ts).value)
    ensures var segments := ParseSpec(ts).value.segments;
      PathsMatch(RouteLiteral(ts).value, FromPath(path)) <==>
        && Slashes(path) == |segments|
        && forall p :: 0 <= p < |segments| && segments[p].kind == StaticKind ==>
             FromPath(path)[p].value == segments[p].text
  {
    var m := ParseSpec(ts).value;
    ParsedIsCounted(ts);
    BuildWellFormed(m);
    MatchesPath(BuildRoute(m), path);
    if Slashes(path) == |m.segments| {
      BuiltStatics(m, FromPath(path));
    }
  }

  // =====================================================================
  // #[endpoint]

  datatype Pat = PatIdent(name: string) | PatOther
  datatype Ty = TyPath(path: string) | TyOther
  datatype FnArg = Receiver | Typed(pat: Pat, ty: Ty)

  /** The part of `async fn name(args) -> ...` the attribute reads. */
  datatype FnSig = FnSig(name: string, args: seq<FnArg>)

  /** One prop: the argument's identifier and its type path. */
  datatype Prop = Prop(ident: string, ty: string)

  /** An argument contributes a prop only when it is typed, its pattern an identifier and its type a path. */
  function PropOf(arg: FnArg): seq<Prop>
  {
    match arg
    case Typed(PatIdent(name), TyPath(path)) => [Prop(name, path)]
    case _ => []
  }

  function PropsOf(args: seq<FnArg>): seq<Prop>
  {
    if args == [] then [] else PropsOf(args[..|args| - 1]) + PropOf(args[|args| - 1])
  }

  /** Props keep declaration order: collecting over `a ++ b` is collecting over `a`, then over `b`. */
  lemma {:induction false} PropsOfConcat(a: seq<FnArg>, b: seq<FnArg>)
    ensures PropsOf(a + b) == PropsOf(a) + PropsOf(b)
  {
    if b != [] {
      var n := |b| - 1;
      PropsOfConcat(a, b[..n]);
      assert (a + b)[..|a| + n] == a + b[..n];
    } else {
      assert a + b == a;
    }
  }

  /** `IdentExt::prepend`: the given string, then the identifier. */
  function Prepend(ident: string, prefix: string): string
  {
    prefix + ident
  }

  function HiddenName(fnName: string): string
  {
    Prepend(fnName, "___")
  }

  /** The hidden wrapper's name never collides with the function's, nor with another wrapper's. */
  lemma HiddenNameDistinct(a: string, b: string)
    ensures HiddenName(a) != a
    ensures HiddenName(a) == HiddenName(b) ==> a == b
  {
    if HiddenName(a) == HiddenName(b) {
      assert a == HiddenName(a)[3..];
    }
  }

  /** What the attribute generates: the wrapper's name, its props, and the endpoint call's arguments. */
  datatype Generated = Generated(hiddenName: string, props: seq<Prop>, callArgs: seq<string>)

  /**
   * `impl Parse for Endpoint`: one pass over the arguments collecting props,
   * then one that emits a `Props::call` per prop and the matching argument
   * of the final endpoint call.
   */
  method ParseEndpoint(sig: FnSig) returns (g: Generated)
    ensures g.hiddenName == HiddenName(sig.name)
    ensures g.props == PropsOf(sig.args)
    ensures |g.callArgs| == |g.props|
    ensures forall k :: 0 <= k < |g.props| ==> g.callArgs[k] == g.props[k].ident
  {
    var props: seq<Prop> := [];
    for i := 0 to |sig.args|
      invariant props == PropsOf(sig.args[..i])
    {
      assert sig.args[..i + 1][..i] == sig.args[..i];
      match sig.args[i] {
        case Typed(PatIdent(name), TyPath(path)) =>
          props := props + [Prop(name, path)];
        case _ =>
      }
    }
    assert sig.args[..|sig.args|] == sig.args;
    var args: seq<string> := [];
    for k := 0 to |props|
      invariant |args| == k
      invariant forall j :: 0 <= j < k ==> args[j] == props[j].ident
    {
      args := args + [props[k].ident];
    }
    g := Generated(HiddenName(sig.name), props, args);
  }

  // ---------------------------------------------------------------------
  // Running the generated wrapper

  /** What `<Ty as Props>::call(req, params)` yields on success: the pair handed on, and the value. */
  datatype Extracted<V> = Extracted(req: Request, params: Params, value: V)

  /** The state after some of the prop calls: the current pair and the values so far. */
  datatype Threaded<V> = Threaded(req: Request, params: Params, values: seq<V>)

  /**
   * The generated `let (req, params, x) = <T as Props>::call(req, params).await?;`
   * statements, run in order: each call receives the pair the previous one
   * returned; the first error ends the run.
   */
  function RunProps<V>(
    props: seq<Prop>, call: (string, Request, Params) -> Result<Extracted<V>, WebError>,
    req: Request, params: Params): (r: Result<Threaded<V>, WebError>)
    ensures r.Success? ==> |r.value.values| == |props|
  {
    if props == [] then Success(Threaded(req, params, []))
    else
      var n := |props| - 1;
      match RunProps(props[..n], call, req, params)
      case Failure(e) => Failure(e)
      case Success(t) =>
        match call(props[n].ty, t.req, t.params)
        case Failure(e) => Failure(e)
        case Success(x) => Success(Threaded(x.req, x.params, t.values + [x.value]))
  }

  /** The body of `___name(req, params)`: the prop calls, then `Ok(name(args...).await?)`. */
  function Wrapper<V, R>(
    props: seq<Prop>, call: (string, Request, Params) -> Result<Extracted<V>, WebError>,
    endpoint: seq<V> -> Result<R, WebError>, req: Request, params: Params): Result<R, WebError>
  {
    match RunProps(props, call, req, params)
    case Failure(e) => Failure(e)
    case Success(t) => endpoint(t.values)
  }

  /**
   * A failed run fails at its first failing prop: every prop before it
   * succeeded, and the error returned is that prop's error.
   */
  lemma {:induction false} FirstFailingPropWins<V>(
    props: seq<Prop>, call: (string, Request, Params) -> Result<Extracted<V>, WebError>,
    req: Request, params: Params)
    requires RunProps(props, call, req, params).Failure?
    ensures exists k :: (0 <= k < |props|
      && RunProps(props[..k], call, req, params).Success?
      && call(props[k].ty, RunProps(props[..k], call, req, params).value.req,
              RunProps(props[..k], call, req, params).value.params)
         == Failure(RunProps(props, call, req, params).error))
  {
    var n := |props| - 1;
    assert props[..n + 1] == props;
    match RunProps(props[..n], call, req, params)
    case Failure(e) =>
      FirstFailingPropWins(props[..n], call, req, params);
      var k :| 0 <= k < n && RunProps(props[..n][..k], call, req, params).Success? &&
        call(props[..n][k].ty, RunProps(props[..n][..k], call, req, params).value.req,
             RunProps(props[..n][..k], call, req, params).value.params) == Failure(e);
      assert props[..n][..k] == props[..k];
    case Success(t) =>
  }

  /**
   * A successful run calls every prop, in declaration order: the k-th value
   * is what the k-th prop's call returned on the pair left by the first k.
   */
  lemma {:induction false} PropsRunInOrder<V>(
    props: seq<Prop>, call: (string, Request, Params) -> Result<Extracted<V>, WebError>,
    req: Request, params: Params, k: nat)
    requires RunProps(props, call, req, params).Success?
    requires k < |props|
    ensures RunProps(props[..k], call, req, params).Success?
    ensures var t := RunProps(props[..k], call, req, params).value;
      call(props[k].ty, t.req, t.params).Success? &&
      RunProps(props, call, req, params).value.values[k] == call(props[k].ty, t.req, t.params).value.value
  {
    var n := |props| - 1;
    var prev := RunProps(props[..n], call, req, params);
    assert prev.Success?;
    if k < n {
      PropsRunInOrder(props[..n], call, req, params, k);
      assert props[..n][..k] == props[..k];
    } else {
      assert props[..k] == props[..n];
    }
  }

  /** When a prop fails the endpoint is not called: the wrapper returns that error, whatever the endpoint is. */
  lemma PropFailureSkipsEndpoint<V, R>(
    props: seq<Prop>, call: (string, Request, Params) -> Result<Extracted<V>, WebError>,
    endpoint: seq<V> -> Result<R, WebError>, other: seq<V> -> Result<R, WebError>,
    req: Request, params: Params)
    requires RunProps(props, call, req, params).Failure?
    ensures Wrapper(props, call, endpoint, req, params) == Failure(RunProps(props, call, req, params).error)
    ensures Wrapper(props, call, endpoint, req, params) == Wrapper(props, call, other, req, params)
  {
  }

  /** When every prop succeeds, the endpoint's own result is the wrapper's, given one value per prop. */
  lemma EndpointGetsEveryProp<V, R>(
    props: seq<Prop>, call: (string, Request, Params) -> Result<Extracted<V>, WebError>,
    endpoint: seq<V> -> Result<R, WebError>, req: Request, params: Params)
    requires RunProps(props, call, req, params).Success?
    ensures |RunProps(props, call, req, params).value.values| == |props|
    ensures Wrapper(props, call, endpoint, req, params) == endpoint(RunProps(props, call, req, params).value.values)
  {
  }
}
