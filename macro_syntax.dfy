/**
 * What the two route-literal macros (codegen/src/lib.rs and
 * enzyme_macro/src/lib.rs) have in common: the tokens they read, the
 * segments they collect, and the positions they hand out while collecting.
 *
 * Both parsers keep a counter that every new segment takes and increments,
 * and push that counter onto the static or the dynamic position list. After
 * `n` segments the two lists are the indices of the static and of the
 * dynamic segments; the lemmas here say what that buys: each list strictly
 * increasing, the two disjoint, and together exactly 0..n-1.
 */
module MacroSyntax {
  import opened Segments

  /** A token tree of the macro input, reduced to what the parsers look at. */
  datatype Token =
    | Slash            // `/`
    | Lit(text: string) // a string literal
    | Ident(text: string)
    | Eq               // `=` (first half of `=>`)
    | Gt               // `>`
    | Colon            // `:`
    | Other            // anything else

  datatype Kind = StaticKind | DynamicKind

  /** One parsed segment: a literal's content, or a parameter's name. */
  datatype Piece = Piece(kind: Kind, text: string)

  /** The positions pushed for the segments of kind `k`, in order. */
  function PositionsOf(ps: seq<Piece>, k: Kind): seq<nat>
  {
    if ps == [] then []
    else
      var n := |ps| - 1;
      PositionsOf(ps[..n], k) + (if ps[n].kind == k then [n] else [])
  }

  /** The texts of the segments of kind `k`, in order. */
  function TextsOf(ps: seq<Piece>, k: Kind): seq<string>
  {
    if ps == [] then []
    else
      var n := |ps| - 1;
      TextsOf(ps[..n], k) + (if ps[n].kind == k then [ps[n].text] else [])
  }

  /** Appending a segment appends its index to its kind's positions, and its text to its kind's texts. */
  lemma Snoc(ps: seq<Piece>, p: Piece, k: Kind)
    ensures PositionsOf(ps + [p], k) == PositionsOf(ps, k) + (if p.kind == k then [|ps|] else [])
    ensures TextsOf(ps + [p], k) == TextsOf(ps, k) + (if p.kind == k then [p.text] else [])
  {
    assert (ps + [p])[..|ps|] == ps;
  }

  ghost predicate StrictlyIncreasing(xs: seq<nat>)
  {
    forall i, j :: 0 <= i < j < |xs| ==> xs[i] < xs[j]
  }

  /**
   * The k-th position points at the k-th segment of that kind, and that
   * segment's text is the k-th text; the positions increase strictly and
   * are exactly the indices of segments of that kind.
   */
  lemma {:induction false} PositionsPairTexts(ps: seq<Piece>, k: Kind)
    ensures |PositionsOf(ps, k)| == |TextsOf(ps, k)|
    ensures StrictlyIncreasing(PositionsOf(ps, k))
    ensures forall i :: 0 <= i < |PositionsOf(ps, k)| ==>
      PositionsOf(ps, k)[i] < |ps| && ps[PositionsOf(ps, k)[i]] == Piece(k, TextsOf(ps, k)[i])
    ensures forall p: nat :: p in PositionsOf(ps, k) <==> p < |ps| && ps[p].kind == k
  {
    if ps != [] {
      var n := |ps| - 1;
      PositionsPairTexts(ps[..n], k);
      var prev := PositionsOf(ps[..n], k);
      assert forall i :: 0 <= i < |prev| ==> prev[i] < n;
      assert forall p: nat :: p < n ==> ps[..n][p] == ps[p];
    }
  }

  /**
   * Static and dynamic positions share nothing, and between them they cover
   * every index below the segment count exactly once.
   */
  lemma PositionsPartition(ps: seq<Piece>)
    ensures |PositionsOf(ps, StaticKind)| + |PositionsOf(ps, DynamicKind)| == |ps|
    ensures forall p :: p in PositionsOf(ps, StaticKind) ==> p !in PositionsOf(ps, DynamicKind)
    ensures forall p: nat :: p < |ps| <==> p in PositionsOf(ps, StaticKind) || p in PositionsOf(ps, DynamicKind)
  {
    PositionsPairTexts(ps, StaticKind);
    PositionsPairTexts(ps, DynamicKind);
    PositionsCount(ps);
  }

  lemma {:induction false} PositionsCount(ps: seq<Piece>)
    ensures |PositionsOf(ps, StaticKind)| + |PositionsOf(ps, DynamicKind)| == |ps|
  {
    if ps != [] {
      PositionsCount(ps[..|ps| - 1]);
    }
  }

  /**
   * The `#( static_segments.push(StaticSegment { value: #v, position: #p }); )*`
   * repetition: the k-th literal paired with the k-th position, as far as
   * both lists go.
   */
  function StaticZip(values: seq<string>, positions: seq<nat>): (r: seq<StaticSegment>)
    ensures |r| == if |values| < |positions| then |values| else |positions|
    ensures forall k :: 0 <= k < |r| ==> r[k] == StaticSegment(values[k], positions[k])
  {
    var n := if |values| < |positions| then |values| else |positions|;
    seq(n, k requires 0 <= k < n => StaticSegment(values[k], positions[k]))
  }
}
