/**
 * The segment model of src/route.rs (repeated verbatim in src/router.rs):
 * registered static and dynamic segments, the tokens of an incoming path,
 * the four `PartialEq` impls between them, and `RawRoute::from_path`.
 */
module Segments {

  /** A literal segment: must equal the token at `position` exactly. */
  datatype StaticSegment = StaticSegment(value: string, position: nat)

  /** A named capture: matches whatever token sits at `position`. */
  datatype DynamicSegment = DynamicSegment(name: string, position: nat)

  /** One `/`-separated token of an incoming path. */
  datatype RawSegment = RawSegment(value: string, position: nat)

  // ---------------------------------------------------------------------
  // The PartialEq impls

  /** `impl PartialEq<RawSegment> for StaticSegment`. */
  predicate StaticEq(s: StaticSegment, r: RawSegment)
  {
    s.position == r.position && s.value == r.value
  }

  /** `impl PartialEq<RawSegment> for DynamicSegment`. */
  predicate DynamicEq(d: DynamicSegment, r: RawSegment)
  {
    d.position == r.position
  }

  /** `impl PartialEq<StaticSegment> for RawSegment`: delegates with the operands swapped. */
  predicate RawEqStatic(r: RawSegment, s: StaticSegment)
  {
    StaticEq(s, r)
  }

  /** `impl PartialEq<DynamicSegment> for RawSegment`: delegates with the operands swapped. */
  predicate RawEqDynamic(r: RawSegment, d: DynamicSegment)
  {
    DynamicEq(d, r)
  }

  /** A dynamic segment compares positions only: the token's value never matters. */
  lemma DynamicEqIgnoresValue(d: DynamicSegment, v: string, w: string, p: nat)
    ensures DynamicEq(d, RawSegment(v, p)) == DynamicEq(d, RawSegment(w, p))
    ensures DynamicEq(d, RawSegment(v, p)) <==> d.position == p
  {
  }

  // ---------------------------------------------------------------------
  // Splitting a path: Rust's `str::split("/")`

  /** The number of `/` characters in `s`. */
  function Slashes(s: string): nat
  {
    if s == [] then 0 else (if s[0] == '/' then 1 else 0) + Slashes(s[1..])
  }

  /**
   * `s.split("/")`: the pieces between separators, always at least one
   * (the empty string splits into one empty piece).
   */
  function Split(s: string): (pieces: seq<string>)
    ensures |pieces| == Slashes(s) + 1
    ensures forall k :: 0 <= k < |pieces| ==> '/' !in pieces[k]
  {
    if s == [] then [""]
    else
      var rest := Split(s[1..]);
      if s[0] == '/' then [""] + rest
      else [[s[0]] + rest[0]] + rest[1..]
  }

  /** The pieces glued back together with `/` between each pair. */
  function Join(pieces: seq<string>): string
    requires |pieces| > 0
  {
    if |pieces| == 1 then pieces[0] else pieces[0] + "/" + Join(pieces[1..])
  }

  /** Splitting loses nothing: joining the pieces gives back the string. */
  lemma {:induction false} JoinSplit(s: string)
    ensures Join(Split(s)) == s
  {
    if s != [] {
      JoinSplit(s[1..]);
      var rest := Split(s[1..]);
      if s[0] == '/' {
        assert Split(s) == [""] + rest;
        assert Join(Split(s)) == "" + "/" + Join(rest);
      } else {
        var pieces := Split(s);
        assert pieces == [[s[0]] + rest[0]] + rest[1..];
        if |rest| == 1 {
          assert Join(pieces) == [s[0]] + rest[0];
        } else {
          assert pieces[1..] == rest[1..];
          assert Join(pieces) == [s[0]] + rest[0] + "/" + Join(rest[1..]);
          assert Join(rest) == rest[0] + "/" + Join(rest[1..]);
        }
      }
    }
  }

  /** A piece without `/` splits into itself. */
  lemma {:induction false} SplitNoSlash(a: string)
    requires '/' !in a
    ensures Split(a) == [a]
  {
    if a != [] {
      SplitNoSlash(a[1..]);
      assert [a[0]] + a[1..] == a;
    }
  }

  /** A piece without `/` in front of a separator splits off as one piece. */
  lemma {:induction false} SplitCons(a: string, r: string)
    requires '/' !in a
    ensures Split(a + "/" + r) == [a] + Split(r)
  {
    if a == [] {
      assert a + "/" + r == "/" + r;
      assert ("/" + r)[1..] == r;
    } else {
      var tail := a[1..];
      SplitCons(tail, r);
      var s := a + "/" + r;
      assert s[0] == a[0] && a[0] != '/';
      assert s[1..] == tail + "/" + r;
      assert [a[0]] + tail == a;
    }
  }

  /** Joining loses nothing either, when no piece holds a `/`: split gives the pieces back. */
  lemma {:induction false} SplitJoin(pieces: seq<string>)
    requires |pieces| > 0
    requires forall k :: 0 <= k < |pieces| ==> '/' !in pieces[k]
    ensures Split(Join(pieces)) == pieces
  {
    if |pieces| == 1 {
      SplitNoSlash(pieces[0]);
    } else {
      SplitJoin(pieces[1..]);
      SplitCons(pieces[0], Join(pieces[1..]));
    }
  }

  // ---------------------------------------------------------------------
  // RawRoute::from_path

  /** The token values of a raw route, in order. */
  function Values(raw: seq<RawSegment>): (vs: seq<string>)
  {
    seq(|raw|, i requires 0 <= i < |raw| => raw[i].value)
  }

  /**
   * `RawRoute::from_path`: split on `/`, skip the first piece, and number
   * the remaining pieces from zero.
   */
  function FromPath(path: string): (raw: seq<RawSegment>)
    ensures |raw| == Slashes(path)
    ensures forall i :: 0 <= i < |raw| ==> raw[i].position == i && '/' !in raw[i].value
    ensures Values(raw) == Split(path)[1..]
  {
    var pieces := Split(path)[1..];
    seq(|pieces|, i requires 0 <= i < |pieces| => RawSegment(pieces[i], i))
  }

  /** For a path that starts with `/`, the tokens rebuild the path. */
  lemma FromPathRoundTrip(path: string)
    requires |path| > 0 && path[0] == '/'
    ensures |FromPath(path)| > 0
    ensures "/" + Join(Values(FromPath(path))) == path
  {
    assert Split(path) == [""] + Split(path[1..]);
    assert Split(path)[1..] == Split(path[1..]);
    JoinSplit(path[1..]);
  }

  /** And the other way: tokens without `/`, joined behind a leading `/`, tokenize back to themselves. */
  lemma FromPathOfJoin(vs: seq<string>)
    requires |vs| > 0
    requires forall k :: 0 <= k < |vs| ==> '/' !in vs[k]
    ensures Values(FromPath("/" + Join(vs))) == vs
  {
    var path := "/" + Join(vs);
    assert path[1..] == Join(vs);
    SplitJoin(vs);
    assert Split(path) == [""] + vs;
  }

  /** The empty path has no tokens; `/` alone has one empty token. */
  lemma FromPathEdgeCases()
    ensures FromPath("") == []
    ensures FromPath("/") == [RawSegment("", 0)]
  {
    assert Split("/") == ["", ""];
  }
}
