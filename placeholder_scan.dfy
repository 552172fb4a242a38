/** The placeholder scan of a stored route path, as Ruby's
    `path.gsub(/:[^\/]+/)` performs it: left to right, a `:` followed by at
    least one character other than `/` starts a placeholder, which runs to
    the next `/` or the end of the path; everything else is kept as it is. */
module PlaceholderScan {
  import opened RubyText

  /** A path cut into the characters the scan keeps and the placeholders it
      replaces; a placeholder remembers its key, the text after the colon. */
  datatype Piece = Literal(c: char) | Placeholder(key: string)

  /** The scan: maximal, non-overlapping placeholders, found left to right. */
  function Pieces(path: string): seq<Piece>
    decreases |path|
  {
    if path == [] then []
    else if path[0] == ':' && |path| > 1 && path[1] != '/' then
      var (key, rest) := Span(path[1..], NotSlash);
      assert key != [];
      [Placeholder(key)] + Pieces(rest)
    else
      [Literal(path[0])] + Pieces(path[1..])
  }

  /** The text a piece was scanned from. */
  function PieceText(p: Piece): string {
    match p
    case Literal(c) => [c]
    case Placeholder(key) => ":" + key
  }

  function Unparse(ps: seq<Piece>): string {
    if ps == [] then "" else PieceText(ps[0]) + Unparse(ps[1..])
  }

  predicate NoSlash(s: string) {
    forall i :: 0 <= i < |s| ==> s[i] != '/'
  }

  /** Piece `i` is the last one or is followed by a literal `/`. */
  predicate FollowedBySlash(ps: seq<Piece>, i: int)
    requires 0 <= i < |ps|
  {
    i + 1 == |ps| || ps[i + 1] == Literal('/')
  }

  /** What the scan can produce: a placeholder's key is non-empty and free of
      `/`, and the placeholder stops only at a `/` or the end; a literal `:`
      is kept only where a `/` or the end follows it. */
  predicate PieceOk(ps: seq<Piece>, i: int)
    requires 0 <= i < |ps|
  {
    match ps[i]
    case Placeholder(key) => key != [] && NoSlash(key) && FollowedBySlash(ps, i)
    case Literal(c) => c == ':' ==> FollowedBySlash(ps, i)
  }

  predicate WellFormedPieces(ps: seq<Piece>) {
    forall i :: 0 <= i < |ps| ==> PieceOk(ps, i)
  }

  /** The keys of the placeholders, left to right. */
  function Keys(ps: seq<Piece>): seq<string> {
    if ps == [] then []
    else (if ps[0].Placeholder? then [ps[0].key] else []) + Keys(ps[1..])
  }

  /** The path with the i-th placeholder replaced by `values[i]`, verbatim,
      and every other character kept. */
  function Expand(ps: seq<Piece>, values: seq<string>): string
    requires |values| == |Keys(ps)|
  {
    if ps == [] then ""
    else if ps[0].Placeholder? then values[0] + Expand(ps[1..], values[1..])
    else [ps[0].c] + Expand(ps[1..], values)
  }

  /** The matched text of each placeholder: its key behind a colon. */
  function MatchedTexts(keys: seq<string>): (r: seq<string>)
    ensures |r| == |keys|
    ensures forall i :: 0 <= i < |keys| ==> r[i] == ":" + keys[i]
  {
    if keys == [] then [] else [":" + keys[0]] + MatchedTexts(keys[1..])
  }

  // ---------------------------------------------------------------------
  // The scan loses nothing and is the only one producing its pieces
  // ---------------------------------------------------------------------

  lemma WellFormedTail(ps: seq<Piece>)
    requires ps != [] && WellFormedPieces(ps)
    ensures WellFormedPieces(ps[1..])
  {
    forall i | 0 <= i < |ps[1..]| ensures PieceOk(ps[1..], i) {
      assert PieceOk(ps, i + 1);
    }
  }

  lemma WellFormedCons(p: Piece, ps: seq<Piece>)
    requires WellFormedPieces(ps)
    requires PieceOk([p] + ps, 0)
    ensures WellFormedPieces([p] + ps)
  {
    var qs := [p] + ps;
    forall i | 0 <= i < |qs| ensures PieceOk(qs, i) {
      if i > 0 {
        assert PieceOk(ps, i - 1);
        assert qs[i] == ps[i - 1];
      }
    }
  }

  /** The first piece of a path that starts with `/` is the literal `/`. */
  lemma PiecesOfSlash(s: string)
    requires s != [] && s[0] == '/'
    ensures Pieces(s) != [] && Pieces(s)[0] == Literal('/')
  {
  }

  lemma UnparseCons(p: Piece, ps: seq<Piece>)
    ensures Unparse([p] + ps) == PieceText(p) + Unparse(ps)
  {
    assert ([p] + ps)[1..] == ps;
  }

  lemma SpanNoSlash(s: string)
    ensures NoSlash(Span(s, NotSlash).0)
  {
    var key := Span(s, NotSlash).0;
    forall i | 0 <= i < |key| ensures key[i] != '/' { assert In(key[i], NotSlash); }
  }

  /** Scanning loses nothing: the pieces give back the path. */
  lemma {:induction false} UnparsePieces(path: string)
    ensures Unparse(Pieces(path)) == path
    decreases |path|
  {
    if path != [] {
      if path[0] == ':' && |path| > 1 && path[1] != '/' {
        var (key, rest) := Span(path[1..], NotSlash);
        UnparsePieces(rest);
        UnparseCons(Placeholder(key), Pieces(rest));
        assert path == [':'] + path[1..];
      } else {
        UnparsePieces(path[1..]);
        UnparseCons(Literal(path[0]), Pieces(path[1..]));
        assert path == [path[0]] + path[1..];
      }
    }
  }

  /** The pieces are shaped as only the scan shapes them. */
  lemma {:induction false} PiecesWellFormed(path: string)
    ensures WellFormedPieces(Pieces(path))
    decreases |path|
  {
    if path != [] {
      if path[0] == ':' && |path| > 1 && path[1] != '/' {
        var (key, rest) := Span(path[1..], NotSlash);
        PiecesWellFormed(rest);
        SpanNoSlash(path[1..]);
        if rest != [] {
          PiecesOfSlash(rest);
        }
        WellFormedCons(Placeholder(key), Pieces(rest));
      } else {
        PiecesWellFormed(path[1..]);
        if path[0] == ':' && |path| > 1 {
          PiecesOfSlash(path[1..]);
        }
        WellFormedCons(Literal(path[0]), Pieces(path[1..]));
      }
    }
  }

  /** Scanning loses nothing, and its pieces are well formed. */
  lemma PiecesRoundTrip(path: string)
    ensures Unparse(Pieces(path)) == path
    ensures WellFormedPieces(Pieces(path))
  {
    UnparsePieces(path);
    PiecesWellFormed(path);
  }

  lemma PiecesOfPlaceholderText(key: string, t: string)
    requires key != [] && NoSlash(key)
    requires t == [] || t[0] == '/'
    ensures Pieces(":" + key + t) == [Placeholder(key)] + Pieces(t)
  {
    var s := ":" + key + t;
    assert s[1..] == key + t;
    assert s[1] == key[0];
    assert AllIn(key, NotSlash);
    SpanOf(key, t, NotSlash);
  }

  lemma PiecesOfLiteralText(c: char, t: string)
    requires c == ':' ==> t == [] || t[0] == '/'
    ensures Pieces([c] + t) == [Literal(c)] + Pieces(t)
  {
    assert ([c] + t)[1..] == t;
  }

  /** The text of pieces that must be followed by a `/` starts with one. */
  lemma UnparseStartsWithSlash(ps: seq<Piece>)
    requires ps != [] && ps[0] == Literal('/')
    ensures Unparse(ps) != [] && Unparse(ps)[0] == '/'
  {
  }

  /** Any well-formed pieces are what the scan makes of their text. */
  lemma {:induction false} PiecesOfUnparse(ps: seq<Piece>)
    requires WellFormedPieces(ps)
    ensures Pieces(Unparse(ps)) == ps
  {
    if ps != [] {
      var tail := ps[1..];
      var t := Unparse(tail);
      WellFormedTail(ps);
      PiecesOfUnparse(tail);
      assert PieceOk(ps, 0);
      if tail != [] && (ps[0].Placeholder? || ps[0] == Literal(':')) {
        UnparseStartsWithSlash(tail);
      }
      assert ps == [ps[0]] + tail;
      match ps[0]
      case Placeholder(key) =>
        PiecesOfPlaceholderText(key, t);
      case Literal(c) =>
        PiecesOfLiteralText(c, t);
    }
  }

  // ---------------------------------------------------------------------
  // Substitution
  // ---------------------------------------------------------------------

  /** Replacing every placeholder by its own matched text gives the path
      back: the characters between placeholders are never touched. */
  lemma {:induction false} ExpandWithMatches(ps: seq<Piece>)
    ensures Expand(ps, MatchedTexts(Keys(ps))) == Unparse(ps)
  {
    if ps != [] {
      ExpandWithMatches(ps[1..]);
      if ps[0].Placeholder? {
        assert Keys(ps) == [ps[0].key] + Keys(ps[1..]);
        assert MatchedTexts(Keys(ps))[1..] == MatchedTexts(Keys(ps[1..]));
      } else {
        assert Keys(ps) == Keys(ps[1..]);
      }
    }
  }

  /** A path without placeholders expands to itself. */
  lemma {:induction false} ExpandNoPlaceholders(ps: seq<Piece>)
    requires Keys(ps) == []
    ensures Expand(ps, []) == Unparse(ps)
  {
    if ps != [] {
      assert !ps[0].Placeholder?;
      assert Keys(ps[1..]) == [];
      ExpandNoPlaceholders(ps[1..]);
    }
  }

  /** Substitution works piece by piece: the values given to one part of the
      path land in that part, verbatim, and are not scanned again. */
  lemma {:induction false} ExpandAppend(ps: seq<Piece>, qs: seq<Piece>, vs: seq<string>, ws: seq<string>)
    requires |vs| == |Keys(ps)| && |ws| == |Keys(qs)|
    ensures Keys(ps + qs) == Keys(ps) + Keys(qs)
    ensures Expand(ps + qs, vs + ws) == Expand(ps, vs) + Expand(qs, ws)
  {
    if ps == [] {
      assert ps + qs == qs && vs == [] && vs + ws == ws;
    } else {
      assert (ps + qs)[0] == ps[0] && (ps + qs)[1..] == ps[1..] + qs;
      if ps[0].Placeholder? {
        ExpandAppend(ps[1..], qs, vs[1..], ws);
        assert (vs + ws)[1..] == vs[1..] + ws;
      } else {
        ExpandAppend(ps[1..], qs, vs, ws);
      }
    }
  }
}
