/**
 * The earlier route-literal macro of enzyme_macro/src/lib.rs:
 * `route!(/"users"/id: u64 => ctx => handler)`.
 *
 * After a leading `/` a loop collects segments until it meets `=` or sees
 * `>` one token ahead: a string literal is a static segment, an identifier
 * starts a dynamic segment written `name : Type`, `/` is skipped and any
 * other token is an error. Then come `=>`, the context identifier, `=>` and
 * the handler identifier, and nothing else. Positions are handed out by the
 * same counter scheme as in the newer macro.
 *
 * Errors carry the index of the token the parser rejected (the input's
 * length when it ran out of tokens).
 */
module EnzymeMacro {
  import opened Wrappers
  import opened Segments
  import opened MacroSyntax

  datatype ParseError =
    | ExpectedSlash       // the input does not begin with `/`
    | Unexpected(at: nat) // the token at `at` (or the end of input) is not what the grammar needs

  /** A parsed segment: a literal, or a typed parameter. */
  datatype Segment =
    | Static(content: string)
    | Dynamic(fieldName: string, ty: string)

  datatype EnzymeRoute = EnzymeRoute(
    context: string,
    handler: string,
    segments: seq<Segment>,
    staticPositions: seq<nat>,
    dynamicPositions: seq<nat>)

  /** A segment seen as the shared kind-and-text shape; a parameter's text is its name. */
  function PieceOf(s: Segment): Piece
  {
    match s
    case Static(content) => Piece(StaticKind, content)
    case Dynamic(name, _) => Piece(DynamicKind, name)
  }

  function PiecesOf(segs: seq<Segment>): (ps: seq<Piece>)
    ensures |ps| == |segs|
    ensures forall k :: 0 <= k < |segs| ==> ps[k] == PieceOf(segs[k])
  {
    seq(|segs|, k requires 0 <= k < |segs| => PieceOf(segs[k]))
  }

  lemma PiecesOfSnoc(segs: seq<Segment>, s: Segment)
    ensures PiecesOf(segs + [s]) == PiecesOf(segs) + [PieceOf(s)]
  {
    assert PiecesOf(segs + [s]) == PiecesOf(segs) + [PieceOf(s)];
  }

  /** The loop condition, negated: end of input, a `=`, or a `>` one token ahead. */
  predicate AtSegmentEnd(ts: seq<Token>, i: nat)
  {
    i >= |ts| || ts[i] == Eq || (i + 1 < |ts| && ts[i + 1] == Gt)
  }

  /** Where the segment loop stopped, and what it collected. */
  datatype Scanned = Scanned(end: nat, segments: seq<Segment>)

  /** The segment loop from index `i` with `acc` collected so far. */
  function Scan(ts: seq<Token>, i: nat, acc: seq<Segment>): Result<Scanned, nat>
    decreases |ts| - i
  {
    if AtSegmentEnd(ts, i) then Success(Scanned(i, acc))
    else match ts[i]
      case Lit(content) => Scan(ts, i + 1, acc + [Static(content)])
      case Ident(name) =>
        if !(i + 1 < |ts| && ts[i + 1] == Colon) then Failure(i + 1)
        else if !(i + 2 < |ts| && ts[i + 2].Ident?) then Failure(i + 2)
        else Scan(ts, i + 3, acc + [Dynamic(name, ts[i + 2].text)])
      case Slash => Scan(ts, i + 1, acc)
      case _ => Failure(i)
  }

  /** `=> context => handler` starting at `j`, and then the end of the input. */
  function Tail(ts: seq<Token>, j: nat): Result<(string, string), nat>
  {
    if !(j < |ts| && ts[j] == Eq) then Failure(j)
    else if !(j + 1 < |ts| && ts[j + 1] == Gt) then Failure(j + 1)
    else if !(j + 2 < |ts| && ts[j + 2].Ident?) then Failure(j + 2)
    else if !(j + 3 < |ts| && ts[j + 3] == Eq) then Failure(j + 3)
    else if !(j + 4 < |ts| && ts[j + 4] == Gt) then Failure(j + 4)
    else if !(j + 5 < |ts| && ts[j + 5].Ident?) then Failure(j + 5)
    else if j + 6 != |ts| then Failure(j + 6)
    else Success((ts[j + 2].text, ts[j + 5].text))
  }

  /** What `Route::parse` (under `parse_macro_input!`) computes, over the whole input. */
  function ParseSpec(ts: seq<Token>): Result<EnzymeRoute, ParseError>
  {
    if ts == [] || ts[0] != Slash then Failure(ExpectedSlash)
    else match Scan(ts, 1, [])
      case Failure(k) => Failure(Unexpected(k))
      case Success(sc) =>
        match Tail(ts, sc.end)
        case Failure(k) => Failure(Unexpected(k))
        case Success(names) =>
          var ps := PiecesOf(sc.segments);
          Success(EnzymeRoute(names.0, names.1, sc.segments,
            PositionsOf(ps, StaticKind), PositionsOf(ps, DynamicKind)))
  }

  /**
   * `impl Parse for Route`: the `/`, the segment loop giving each segment
   * the next counter value, then `=> context => handler`.
   */
  method Parse(ts: seq<Token>) returns (r: Result<EnzymeRoute, ParseError>)
    ensures r == ParseSpec(ts)
  {
    if ts == [] || ts[0] != Slash {
      return Failure(ExpectedSlash);
    }
    var count := 0;
    var staticPositions: seq<nat> := [];
    var dynamicPositions: seq<nat> := [];
    var segments: seq<Segment> := [];
    var i: nat := 1;
    while !AtSegmentEnd(ts, i)
      invariant 1 <= i <= |ts|
      invariant Scan(ts, 1, []) == Scan(ts, i, segments)
      invariant count == |segments|
      invariant staticPositions == PositionsOf(PiecesOf(segments), StaticKind)
      invariant dynamicPositions == PositionsOf(PiecesOf(segments), DynamicKind)
      decreases |ts| - i
    {
      match ts[i] {
        case Lit(content) =>
          var s := Static(content);
          PiecesOfSnoc(segments, s);
          Snoc(PiecesOf(segments), PieceOf(s), StaticKind);
          Snoc(PiecesOf(segments), PieceOf(s), DynamicKind);
          segments := segments + [s];
          staticPositions := staticPositions + [count];
          count := count + 1;
          i := i + 1;
        case Ident(name) =>
          if !(i + 1 < |ts| && ts[i + 1] == Colon) {
            return Failure(Unexpected(i + 1));
          }
          if !(i + 2 < |ts| && ts[i + 2].Ident?) {
            return Failure(Unexpected(i + 2));
          }
          var s := Dynamic(name, ts[i + 2].text);
          PiecesOfSnoc(segments, s);
          Snoc(PiecesOf(segments), PieceOf(s), StaticKind);
          Snoc(PiecesOf(segments), PieceOf(s), DynamicKind);
          segments := segments + [s];
          dynamicPositions := dynamicPositions + [count];
          count := count + 1;
          i := i + 3;
        case Slash =>
          i := i + 1;
        case _ =>
          return Failure(Unexpected(i));
      }
    }
    if !(i < |ts| && ts[i] == Eq) {
      return Failure(Unexpected(i));
    }
    if !(i + 1 < |ts| && ts[i + 1] == Gt) {
      return Failure(Unexpected(i + 1));
    }
    if !(i + 2 < |ts| && ts[i + 2].Ident?) {
      return Failure(Unexpected(i + 2));
    }
    var context := ts[i + 2].text;
    if !(i + 3 < |ts| && ts[i + 3] == Eq) {
      return Failure(Unexpected(i + 3));
    }
    if !(i + 4 < |ts| && ts[i + 4] == Gt) {
      return Failure(Unexpected(i + 4));
    }
    if !(i + 5 < |ts| && ts[i + 5].Ident?) {
      return Failure(Unexpected(i + 5));
    }
    var handler := ts[i + 5].text;
    if i + 6 != |ts| {
      return Failure(Unexpected(i + 6));
    }
    return Success(EnzymeRoute(context, handler, segments, staticPositions, dynamicPositions));
  }

  /** Without a leading `/` there is no route. */
  lemma LeadingSlashRequired(ts: seq<Token>)
    requires ts == [] || ts[0] != Slash
    ensures ParseSpec(ts) == Failure(ExpectedSlash)
  {
  }

  /** The segment loop only moves forward, and stops where its condition says. */
  lemma {:induction false} ScanStops(ts: seq<Token>, i: nat, acc: seq<Segment>)
    requires i <= |ts|
    requires Scan(ts, i, acc).Success?
    ensures i <= Scan(ts, i, acc).value.end <= |ts|
    ensures AtSegmentEnd(ts, Scan(ts, i, acc).value.end)
    decreases |ts| - i
  {
    if !AtSegmentEnd(ts, i) {
      match ts[i]
      case Lit(content) => ScanStops(ts, i + 1, acc + [Static(content)]);
      case Ident(name) => ScanStops(ts, i + 3, acc + [Dynamic(name, ts[i + 2].text)]);
      case Slash => ScanStops(ts, i + 1, acc);
    }
  }

  /**
   * A parsed literal ends with exactly `=> context => handler`: the last six
   * tokens, in that order, and nothing after them.
   */
  lemma TailShape(ts: seq<Token>)
    requires ParseSpec(ts).Success?
    ensures |ts| >= 7
    ensures ts[|ts| - 6..] == [Eq, Gt, Ident(ParseSpec(ts).value.context), Eq, Gt, Ident(ParseSpec(ts).value.handler)]
  {
    ScanStops(ts, 1, []);
    var j := Scan(ts, 1, []).value.end;
    assert j + 6 == |ts|;
    assert ts[j + 2] == Ident(ts[j + 2].text);
    assert ts[j + 5] == Ident(ts[j + 5].text);
  }

  /**
   * Every dynamic segment comes from a `name : Type` triple in the input;
   * `acc` is what the loop had collected when it reached `i`.
   */
  ghost predicate FromTriple(ts: seq<Token>, s: Segment)
  {
    s.Dynamic? ==> exists k :: (0 <= k && k + 2 < |ts| &&
      ts[k] == Ident(s.fieldName) && ts[k + 1] == Colon && ts[k + 2] == Ident(s.ty))
  }

  lemma {:induction false} ScanDynamicsFromTriples(ts: seq<Token>, i: nat, acc: seq<Segment>)
    requires forall k :: 0 <= k < |acc| ==> FromTriple(ts, acc[k])
    requires Scan(ts, i, acc).Success?
    ensures forall k :: 0 <= k < |Scan(ts, i, acc).value.segments| ==> FromTriple(ts, Scan(ts, i, acc).value.segments[k])
    decreases |ts| - i
  {
    if !AtSegmentEnd(ts, i) {
      match ts[i]
      case Lit(content) =>
        ScanDynamicsFromTriples(ts, i + 1, acc + [Static(content)]);
      case Ident(name) =>
        var s := Dynamic(name, ts[i + 2].text);
        assert ts[i + 2] == Ident(s.ty);
        assert FromTriple(ts, s);
        ScanDynamicsFromTriples(ts, i + 3, acc + [s]);
      case Slash =>
        ScanDynamicsFromTriples(ts, i + 1, acc);
    }
  }

  /** A dynamic segment of a parsed literal was written `name : Type`. */
  lemma DynamicsAreTyped(ts: seq<Token>)
    requires ParseSpec(ts).Success?
    ensures forall k :: 0 <= k < |ParseSpec(ts).value.segments| ==> FromTriple(ts, ParseSpec(ts).value.segments[k])
  {
    ScanDynamicsFromTriples(ts, 1, []);
  }

  /**
   * Wherever the segment loop stands, with `acc` collected, an identifier
   * not followed by `:` fails the parse at the token after it.
   */
  lemma BareIdentifierRejected(ts: seq<Token>, i: nat, acc: seq<Segment>)
    requires |ts| > 0 && ts[0] == Slash
    requires Scan(ts, 1, []) == Scan(ts, i, acc)
    requires !AtSegmentEnd(ts, i) && ts[i].Ident?
    requires !(i + 1 < |ts| && ts[i + 1] == Colon)
    ensures ParseSpec(ts) == Failure(Unexpected(i + 1))
  {
  }

  /**
   * Wherever the segment loop stands, a token that is not a literal, an
   * identifier or `/` (and does not end the segments) fails the parse at
   * that token.
   */
  lemma OtherTokenRejected(ts: seq<Token>, i: nat, acc: seq<Segment>)
    requires |ts| > 0 && ts[0] == Slash
    requires Scan(ts, 1, []) == Scan(ts, i, acc)
    requires !AtSegmentEnd(ts, i) && !(ts[i].Lit? || ts[i].Ident? || ts[i] == Slash)
    ensures ParseSpec(ts) == Failure(Unexpected(i))
  {
  }

  /** A bare identifier in the second segment: `/"a"/x => c => h` is rejected at the `=`. */
  lemma SecondSegmentBareIdentifier()
    ensures ParseSpec([Slash, Lit("a"), Slash, Ident("x"), Eq, Gt, Ident("c"), Eq, Gt, Ident("h")]) == Failure(Unexpected(4))
  {
    var ts := [Slash, Lit("a"), Slash, Ident("x"), Eq, Gt, Ident("c"), Eq, Gt, Ident("h")];
    assert Scan(ts, 1, []) == Scan(ts, 2, [Static("a")]);
    assert Scan(ts, 2, [Static("a")]) == Scan(ts, 3, [Static("a")]);
    BareIdentifierRejected(ts, 3, [Static("a")]);
  }

  /**
   * The counter scheme again: static and dynamic positions are each strictly
   * increasing, disjoint, and together exactly 0..count-1, where count is
   * the number of segments.
   */
  lemma ParsedPositionsCover(ts: seq<Token>)
    requires ParseSpec(ts).Success?
    ensures var m := ParseSpec(ts).value;
      && StrictlyIncreasing(m.staticPositions)
      && StrictlyIncreasing(m.dynamicPositions)
      && (forall p :: p in m.staticPositions ==> p !in m.dynamicPositions)
      && (forall p: nat :: p < |m.segments| <==> p in m.staticPositions || p in m.dynamicPositions)
  {
    var m := ParseSpec(ts).value;
    var ps := PiecesOf(m.segments);
    PositionsPairTexts(ps, StaticKind);
    PositionsPairTexts(ps, DynamicKind);
    PositionsPartition(ps);
  }

  // ---------------------------------------------------------------------
  // Output

  /**
   * What the expansion builds: the `StaticSegment { value, position }`
   * pushes, the `DynamicSegment { position }` pushes (position only), and
   * the endpoint made from the handler and the context.
   */
  datatype Expansion = Expansion(
    staticSegments: seq<StaticSegment>,
    dynamicPositions: seq<nat>,
    handler: string,
    context: string)

  /** The literals of the segments, in order. */
  function Contents(segs: seq<Segment>): seq<string>
  {
    TextsOf(PiecesOf(segs), StaticKind)
  }

  /** `Route::static_segments`: collect the literals, then zip them with the static positions. */
  method StaticSegments(m: EnzymeRoute) returns (statics: seq<StaticSegment>, dynamics: seq<nat>)
    ensures statics == StaticZip(Contents(m.segments), m.staticPositions)
    ensures dynamics == m.dynamicPositions
  {
    var contents: seq<string> := [];
    for i := 0 to |m.segments|
      invariant contents == Contents(m.segments[..i])
    {
      assert m.segments[..i + 1] == m.segments[..i] + [m.segments[i]];
      PiecesOfSnoc(m.segments[..i], m.segments[i]);
      Snoc(PiecesOf(m.segments[..i]), PieceOf(m.segments[i]), StaticKind);
      if m.segments[i].Static? {
        contents := contents + [m.segments[i].content];
      }
    }
    assert m.segments[..|m.segments|] == m.segments;
    statics := StaticZip(contents, m.staticPositions);
    dynamics := [];
    for i := 0 to |m.dynamicPositions|
      invariant dynamics == m.dynamicPositions[..i]
    {
      assert m.dynamicPositions[..i + 1] == m.dynamicPositions[..i] + [m.dynamicPositions[i]];
      dynamics := dynamics + [m.dynamicPositions[i]];
    }
    assert m.dynamicPositions[..|m.dynamicPositions|] == m.dynamicPositions;
  }

  function ExpansionSpec(ts: seq<Token>): Result<Expansion, ParseError>
  {
    match ParseSpec(ts)
    case Failure(e) => Failure(e)
    case Success(m) =>
      Success(Expansion(StaticZip(Contents(m.segments), m.staticPositions), m.dynamicPositions, m.handler, m.context))
  }

  /** `route!`: parse, then emit the pushes and the endpoint. */
  method ExpandRoute(ts: seq<Token>) returns (r: Result<Expansion, ParseError>)
    ensures r == ExpansionSpec(ts)
  {
    var parsed := Parse(ts);
    match parsed {
      case Failure(e) =>
        r := Failure(e);
      case Success(m) =>
        var statics, dynamics := StaticSegments(m);
        r := Success(Expansion(statics, dynamics, m.handler, m.context));
    }
  }

  /**
   * The k-th static push carries the k-th literal and the index of that
   * literal among all segments; there is one push per literal and one
   * dynamic push per parameter.
   */
  lemma ExpansionPairsInOrder(ts: seq<Token>)
    requires ParseSpec(ts).Success?
    ensures var m := ParseSpec(ts).value;
      var e := ExpansionSpec(ts).value;
      && |e.staticSegments| == |m.staticPositions|
      && |e.dynamicPositions| == |m.dynamicPositions|
      && (forall k :: 0 <= k < |e.staticSegments| ==>
            && e.staticSegments[k].position < |m.segments|
            && m.segments[e.staticSegments[k].position] == Static(e.staticSegments[k].value))
      && (forall k :: 0 <= k < |e.dynamicPositions| ==>
            e.dynamicPositions[k] < |m.segments| && m.segments[e.dynamicPositions[k]].Dynamic?)
  {
    var m := ParseSpec(ts).value;
    var ps := PiecesOf(m.segments);
    PositionsPairTexts(ps, StaticKind);
    PositionsPairTexts(ps, DynamicKind);
    var e := ExpansionSpec(ts).value;
    forall k | 0 <= k < |e.staticSegments|
      ensures m.segments[e.staticSegments[k].position] == Static(e.staticSegments[k].value)
    {
      var p := m.staticPositions[k];
      assert ps[p] == Piece(StaticKind, Contents(m.segments)[k]);
      assert PieceOf(m.segments[p]) == ps[p];
    }
    forall k | 0 <= k < |e.dynamicPositions|
      ensures m.segments[e.dynamicPositions[k]].Dynamic?
    {
      var p := m.dynamicPositions[k];
      assert PieceOf(m.segments[p]) == ps[p];
    }
  }
}
