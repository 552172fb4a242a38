/** The route-annotation scraper (`RodaRouteParser#parse`).  Every input line
    is matched against one fixed pattern,

      optional whitespace, `#`, optional whitespace, `route`, an optional
      `[name]`, `:`, whitespace, then either one token (the path) or a token
      of capitals and `|` (the methods), whitespace and the path, then
      optional trailing whitespace,

    and each matching line becomes one `Route`.  The pattern is implemented by
    a hand-written scanner (`MatchLine`) and stated independently as a grammar
    of line shapes (`LineShape`, `WellFormed`, `Text`); the two are proved to
    agree in both directions. */
module RouteParser {
  import opened Wrappers
  import opened RubyText
  import opened RouteRecord

  // ---------------------------------------------------------------------
  // The scanner
  // ---------------------------------------------------------------------

  /** Everything up to the colon: leading whitespace, `#`, whitespace,
      `route` and the optional `[name]`.  Yields the name and the text after
      the colon. */
  function MatchHeader(line: string): Option<(Option<string>, string)> {
    var a := DropSpace(line);
    if a == [] || a[0] != '#' then None
    else
      var b := DropSpace(a[1..]);
      if |b| < 5 || b[..5] != "route" then None
      else
        var c := b[5..];
        if c != [] && c[0] == '[' then
          var (w, d) := Span(c[1..], Word);
          if w != [] && |d| >= 2 && d[0] == ']' && d[1] == ':' then Some((Some(w), d[2..])) else None
        else if c != [] && c[0] == ':' then Some((None, c[1..]))
        else None
  }

  /** Everything after the colon: whitespace, then one token (the path) or two
      tokens of which the first is made of capitals and `|` (the methods), then
      trailing whitespace.  Yields the raw methods token and the path. */
  function MatchTail(t: string): Option<(Option<string>, string)> {
    if t == [] || !IsSpace(t[0]) then None
    else
      var (first, r1) := Span(DropSpace(t), NonSpace);
      if first == [] then None
      else
        var v := DropSpace(r1);
        if v == [] then Some((None, first))
        else
          var (second, r2) := Span(v, NonSpace);
          if DropSpace(r2) == [] && AllIn(first, MethodChar) then Some((Some(first), second)) else None
  }

  /** The record a methods token, a path and a name make: the methods are the
      token split on `|`. */
  function MakeRoute(methods: Option<string>, path: string, name: Option<string>): Route {
    Route(path, if methods.Some? then Some(RubySplit(methods.value)) else None, name)
  }

  /** The record one line yields, if it matches the annotation pattern. */
  function MatchLine(line: string): Option<Route> {
    match MatchHeader(line)
    case None => None
    case Some((name, tail)) =>
      match MatchTail(tail)
      case None => None
      case Some((methods, path)) => Some(MakeRoute(methods, path, name))
  }

  // ---------------------------------------------------------------------
  // The grammar: the lines the pattern accepts, piece by piece
  // ---------------------------------------------------------------------

  /** One annotation line cut into the pieces of the pattern. */
  datatype LineShape = LineShape(
    indent: string, gap: string, name: Option<string>, sep: string,
    methods: Option<string>, spacer: string, path: string, trail: string)

  predicate GoodName(name: Option<string>) {
    name.Some? ==> name.value != [] && AllIn(name.value, Word)
  }

  predicate WellFormed(sh: LineShape) {
    AllIn(sh.indent, Space) && AllIn(sh.gap, Space) && GoodName(sh.name)
    && sh.sep != [] && AllIn(sh.sep, Space)
    && (sh.methods.Some? ==>
          sh.methods.value != [] && AllIn(sh.methods.value, MethodChar)
          && sh.spacer != [] && AllIn(sh.spacer, Space))
    && (sh.methods.None? ==> sh.spacer == [])
    && sh.path != [] && AllIn(sh.path, NonSpace)
    && AllIn(sh.trail, Space)
  }

  /** `indent # gap route [name] : tail`, nested to the right. */
  function HeaderThen(indent: string, gap: string, name: Option<string>, tail: string): string {
    indent + ("#" + (gap + ("route" +
      (if name.Some? then "[" + (name.value + ("]" + (":" + tail))) else ":" + tail))))
  }

  function TailText(sh: LineShape): string {
    sh.sep + (if sh.methods.Some? then sh.methods.value + (sh.spacer + (sh.path + sh.trail))
              else sh.path + sh.trail)
  }

  function Text(sh: LineShape): string {
    HeaderThen(sh.indent, sh.gap, sh.name, TailText(sh))
  }

  function Record(sh: LineShape): Route {
    MakeRoute(sh.methods, sh.path, sh.name)
  }

  // ---------------------------------------------------------------------
  // Scanner and grammar agree
  // ---------------------------------------------------------------------

  lemma HeaderComplete(indent: string, gap: string, name: Option<string>, tail: string)
    requires AllIn(indent, Space) && AllIn(gap, Space) && GoodName(name)
    ensures MatchHeader(HeaderThen(indent, gap, name, tail)) == Some((name, tail))
  {
    var rest := if name.Some? then "[" + (name.value + ("]" + (":" + tail))) else ":" + tail;
    var b := "route" + rest;
    var a := "#" + (gap + b);
    DropSpaceOf(indent, a);
    assert a[1..] == gap + b;
    DropSpaceOf(gap, b);
    assert b[..5] == "route" && b[5..] == rest;
    if name.Some? {
      var w := name.value;
      assert rest[1..] == w + ("]" + (":" + tail));
      SpanOf(w, "]" + (":" + tail), Word);
      assert ("]" + (":" + tail))[2..] == tail;
    } else {
      assert rest[1..] == tail;
    }
  }

  lemma TailComplete(sh: LineShape)
    requires WellFormed(sh)
    ensures MatchTail(TailText(sh)) == Some((sh.methods, sh.path))
  {
    var pt := sh.path + sh.trail;
    SpanOf(sh.path, sh.trail, NonSpace);
    DropAllSpace(sh.trail);
    if sh.methods.Some? {
      var m := sh.methods.value;
      var after := sh.spacer + pt;
      DropSpaceOf(sh.sep, m + after);
      SpanOf(m, after, NonSpace) by {
        assert forall i :: 0 <= i < |m| ==> In(m[i], MethodChar);
      }
      DropSpaceOf(sh.spacer, pt);
    } else {
      DropSpaceOf(sh.sep, pt);
    }
  }

  /** Every line of the grammar matches, with the record its pieces determine. */
  lemma MatchLineComplete(sh: LineShape)
    requires WellFormed(sh)
    ensures MatchLine(Text(sh)) == Some(Record(sh))
  {
    HeaderComplete(sh.indent, sh.gap, sh.name, TailText(sh));
    TailComplete(sh);
  }

  lemma HeaderSound(line: string) returns (indent: string, gap: string)
    requires MatchHeader(line).Some?
    ensures AllIn(indent, Space) && AllIn(gap, Space) && GoodName(MatchHeader(line).value.0)
    ensures line == HeaderThen(indent, gap, MatchHeader(line).value.0, MatchHeader(line).value.1)
  {
    var (name, tail) := MatchHeader(line).value;
    var (i, a) := Span(line, Space);
    var (g, b) := Span(a[1..], Space);
    indent, gap := i, g;
    var c := b[5..];
    assert b == "route" + c;
    assert a == "#" + a[1..];
    if c[0] == '[' {
      var (w, d) := Span(c[1..], Word);
      assert c == "[" + (w + ("]" + (":" + d[2..])));
    } else {
      assert c == ":" + c[1..];
    }
  }

  lemma TailSound(t: string) returns (sep: string, spacer: string, trail: string)
    requires MatchTail(t).Some?
    ensures var (methods, path) := MatchTail(t).value;
      WellFormed(LineShape([], [], None, sep, methods, spacer, path, trail))
      && t == TailText(LineShape([], [], None, sep, methods, spacer, path, trail))
  {
    var (s, u) := Span(t, Space);
    var (first, r1) := Span(u, NonSpace);
    var (sp, v) := Span(r1, Space);
    sep := s;
    if v == [] {
      spacer, trail := [], sp;
      assert r1 == sp;
      assert t == s + (first + sp);
    } else {
      var (second, r2) := Span(v, NonSpace);
      var (tr, rest) := Span(r2, Space);
      spacer, trail := sp, r2;
      assert rest == [];
      assert r2 == tr;
      assert t == s + (first + (sp + (second + r2)));
    }
  }

  /** Every line the scanner accepts is a line of the grammar, and the record
      is the one its pieces determine. */
  lemma MatchLineSound(line: string)
    requires MatchLine(line).Some?
    ensures exists sh :: WellFormed(sh) && Text(sh) == line && Record(sh) == MatchLine(line).value
  {
    var indent, gap := HeaderSound(line);
    var (name, tail) := MatchHeader(line).value;
    var sep, spacer, trail := TailSound(tail);
    var (methods, path) := MatchTail(tail).value;
    var sh := LineShape(indent, gap, name, sep, methods, spacer, path, trail);
    assert TailText(sh) == tail;
    assert WellFormed(sh) && Text(sh) == line && Record(sh) == MatchLine(line).value;
  }

  /** A line yields the record `r` exactly when it is a line of the grammar
      whose pieces determine `r`. */
  lemma MatchLineIff(line: string, r: Route)
    ensures MatchLine(line) == Some(r) <==> exists sh :: WellFormed(sh) && Text(sh) == line && Record(sh) == r
  {
    if MatchLine(line) == Some(r) {
      MatchLineSound(line);
    }
    if exists sh :: WellFormed(sh) && Text(sh) == line && Record(sh) == r {
      var sh :| WellFormed(sh) && Text(sh) == line && Record(sh) == r;
      MatchLineComplete(sh);
    }
  }

  // ---------------------------------------------------------------------
  // Consequences for a single line
  // ---------------------------------------------------------------------

  lemma HeaderThenAppend(indent: string, gap: string, name: Option<string>, x: string, y: string)
    ensures HeaderThen(indent, gap, name, x + y) == HeaderThen(indent, gap, name, x) + y
  {
    if name.Some? {
      assert "]" + (":" + (x + y)) == ("]" + (":" + x)) + y;
      assert name.value + (("]" + (":" + x)) + y) == (name.value + ("]" + (":" + x))) + y;
      assert "[" + ((name.value + ("]" + (":" + x))) + y) == ("[" + (name.value + ("]" + (":" + x)))) + y;
    } else {
      assert ":" + (x + y) == (":" + x) + y;
    }
    var rest := if name.Some? then "[" + (name.value + ("]" + (":" + x))) else ":" + x;
    assert "route" + (rest + y) == ("route" + rest) + y;
    assert gap + (("route" + rest) + y) == (gap + ("route" + rest)) + y;
    assert "#" + ((gap + ("route" + rest)) + y) == ("#" + (gap + ("route" + rest))) + y;
  }

  lemma ShapePathLast(sh: LineShape) returns (before: string)
    requires WellFormed(sh)
    ensures Text(sh) == before + (sh.path + sh.trail)
    ensures before != [] && IsSpace(before[|before| - 1])
  {
    var pt := sh.path + sh.trail;
    var lead := if sh.methods.Some? then sh.sep + (sh.methods.value + sh.spacer) else sh.sep;
    if sh.methods.Some? {
      var m := sh.methods.value;
      assert m + (sh.spacer + pt) == (m + sh.spacer) + pt;
      assert sh.sep + ((m + sh.spacer) + pt) == (sh.sep + (m + sh.spacer)) + pt;
      assert lead[|lead| - 1] == sh.spacer[|sh.spacer| - 1];
    }
    assert TailText(sh) == lead + pt;
    HeaderThenAppend(sh.indent, sh.gap, sh.name, lead, pt);
    before := HeaderThen(sh.indent, sh.gap, sh.name, lead);
    assert before[|before| - 1] == lead[|lead| - 1];
  }

  /** The path of a record is a non-empty run of non-whitespace that is the
      last token of its line: whitespace precedes it and only whitespace
      follows it. */
  lemma PathIsLastToken(line: string) returns (before: string, after: string)
    requires MatchLine(line).Some?
    ensures var p := MatchLine(line).value.path;
      p != [] && AllIn(p, NonSpace)
      && line == before + (p + after)
      && before != [] && IsSpace(before[|before| - 1])
      && AllIn(after, Space)
  {
    MatchLineSound(line);
    var sh :| WellFormed(sh) && Text(sh) == line && Record(sh) == MatchLine(line).value;
    before := ShapePathLast(sh);
    after := sh.trail;
  }

  /** The name is present exactly when the `[name]` form is used, and is then
      a non-empty run of word characters; the methods are present exactly
      when a token of capitals and `|` precedes the path, and are that token
      split on `|`. */
  lemma NameAndMethods(line: string)
    requires MatchLine(line).Some?
    ensures var r := MatchLine(line).value;
      exists sh :: WellFormed(sh) && Text(sh) == line
        && r.name == sh.name
        && (r.methods.Some? <==> sh.methods.Some?)
        && (sh.methods.Some? ==> r.methods.value == RubySplit(sh.methods.value))
        && r.path == sh.path
  {
    MatchLineSound(line);
  }

  /** A line whose colon is not followed by whitespace yields no record. */
  lemma NoSpaceAfterColon(line: string, indent: string, gap: string, name: Option<string>, tail: string)
    requires AllIn(indent, Space) && AllIn(gap, Space) && GoodName(name)
    requires tail == [] || !IsSpace(tail[0])
    requires line == HeaderThen(indent, gap, name, tail)
    ensures MatchLine(line) == None
  {
    HeaderComplete(indent, gap, name, tail);
  }

  /** A single token after the colon is always the path, with no methods,
      even when it is made of capitals and `|` only. */
  lemma LoneTokenIsPath(line: string, indent: string, gap: string, name: Option<string>,
                        sep: string, token: string, trail: string)
    requires AllIn(indent, Space) && AllIn(gap, Space) && GoodName(name)
    requires sep != [] && AllIn(sep, Space) && token != [] && AllIn(token, NonSpace) && AllIn(trail, Space)
    requires line == HeaderThen(indent, gap, name, sep + (token + trail))
    ensures MatchLine(line) == Some(Route(token, None, name))
  {
    MatchLineComplete(LineShape(indent, gap, name, sep, None, [], token, trail));
  }

  /** Two tokens after the colon yield no record unless the first is made of
      capitals and `|` only. */
  lemma TwoTokensNeedMethods(line: string, indent: string, gap: string, name: Option<string>,
                             s1: string, t1: string, s2: string, t2: string, trail: string)
    requires AllIn(indent, Space) && AllIn(gap, Space) && GoodName(name)
    requires s1 != [] && AllIn(s1, Space) && s2 != [] && AllIn(s2, Space)
    requires t1 != [] && AllIn(t1, NonSpace) && t2 != [] && AllIn(t2, NonSpace)
    requires AllIn(trail, Space)
    requires !AllIn(t1, MethodChar)
    requires line == HeaderThen(indent, gap, name, s1 + (t1 + (s2 + (t2 + trail))))
    ensures MatchLine(line) == None
  {
    var tail := s1 + (t1 + (s2 + (t2 + trail)));
    HeaderComplete(indent, gap, name, tail);
    DropSpaceOf(s1, t1 + (s2 + (t2 + trail)));
    SpanOf(t1, s2 + (t2 + trail), NonSpace);
    DropSpaceOf(s2, t2 + trail);
  }

  /** A line with three or more tokens after the colon yields no record:
      whatever follows the third token, the pattern's single path token
      cannot end the line. */
  lemma AtLeastThreeTokens(line: string, indent: string, gap: string, name: Option<string>,
                           s1: string, t1: string, s2: string, t2: string, s3: string, t3: string, rest: string)
    requires AllIn(indent, Space) && AllIn(gap, Space) && GoodName(name)
    requires s1 != [] && AllIn(s1, Space) && s2 != [] && AllIn(s2, Space) && s3 != [] && AllIn(s3, Space)
    requires t1 != [] && AllIn(t1, NonSpace) && t2 != [] && AllIn(t2, NonSpace) && t3 != [] && AllIn(t3, NonSpace)
    requires line == HeaderThen(indent, gap, name, s1 + (t1 + (s2 + (t2 + (s3 + (t3 + rest))))))
    ensures MatchLine(line) == None
  {
    var tail := s1 + (t1 + (s2 + (t2 + (s3 + (t3 + rest)))));
    HeaderComplete(indent, gap, name, tail);
    DropSpaceOf(s1, t1 + (s2 + (t2 + (s3 + (t3 + rest)))));
    SpanOf(t1, s2 + (t2 + (s3 + (t3 + rest))), NonSpace);
    DropSpaceOf(s2, t2 + (s3 + (t3 + rest)));
    SpanOf(t2, s3 + (t3 + rest), NonSpace);
    assert (s3 + (t3 + rest))[|s3|] == t3[0];
  }

  // ---------------------------------------------------------------------
  // The whole input
  // ---------------------------------------------------------------------

  /** What `parse` accepts: a string, or a stream given as the lines its
      `each_line` yields. */
  datatype Input = StringInput(text: string) | StreamInput(lines: seq<string>)

  /** The match of every line, in order. */
  function Matches(lines: seq<string>): (ms: seq<Option<Route>>)
    ensures |ms| == |lines|
  {
    seq(|lines|, i requires 0 <= i < |lines| => MatchLine(lines[i]))
  }

  /** The values of the successful matches, in order. */
  function Collect(ms: seq<Option<Route>>): seq<Route> {
    if ms == [] then []
    else
      var last := ms[|ms| - 1];
      Collect(ms[..|ms| - 1]) + (if last.Some? then [last.value] else [])
  }

  /** The records of a sequence of lines: one per matching line, in order. */
  function ParseLines(lines: seq<string>): seq<Route> {
    Collect(Matches(lines))
  }

  function LinesOf(input: Input): seq<string> {
    match input
    case StringInput(s) => EachLine(s)
    case StreamInput(ls) => ls
  }

  /** `parse`: a string is read line by line; every line is matched and each
      match appended to the result. */
  method Parse(input: Input) returns (routes: seq<Route>)
    ensures routes == ParseLines(LinesOf(input))
    decreases if input.StringInput? then 1 else 0
  {
    if input.StringInput? {
      routes := Parse(StreamInput(EachLine(input.text)));
      return;
    }
    var lines := input.lines;
    routes := [];
    var i := 0;
    while i < |lines|
      invariant 0 <= i <= |lines|
      invariant routes == Collect(Matches(lines)[..i])
    {
      assert Matches(lines)[..i + 1][..i] == Matches(lines)[..i];
      var m := MatchLine(lines[i]);
      if m.Some? {
        routes := routes + [m.value];
      }
      i := i + 1;
    }
    assert Matches(lines)[..|lines|] == Matches(lines);
  }

  /** The positions of the successful matches, in increasing order. */
  function SomeIndices(ms: seq<Option<Route>>): seq<nat> {
    if ms == [] then []
    else
      var n := |ms| - 1;
      SomeIndices(ms[..n]) + (if ms[n].Some? then [n] else [])
  }

  /** The positions are exactly those of the successful matches, increasing. */
  lemma {:induction false} SomeIndicesSpec(ms: seq<Option<Route>>)
    ensures var idx := SomeIndices(ms);
      (forall i :: i in idx <==> 0 <= i < |ms| && ms[i].Some?)
      && (forall a, b :: 0 <= a < b < |idx| ==> idx[a] < idx[b])
  {
    if ms != [] {
      var n := |ms| - 1;
      var init := ms[..n];
      SomeIndicesSpec(init);
      var idx0 := SomeIndices(init);
      assert forall i :: 0 <= i < n ==> init[i] == ms[i];
      assert forall k :: 0 <= k < |idx0| ==> idx0[k] in idx0;
      assert SomeIndices(ms) == idx0 + (if ms[n].Some? then [n] else []);
    }
  }

  /** The k-th collected record is the match at the k-th position. */
  lemma {:induction false} CollectFilter(ms: seq<Option<Route>>)
    ensures var idx := SomeIndices(ms);
      |Collect(ms)| == |idx|
      && (forall k :: 0 <= k < |idx| ==> idx[k] < |ms| && ms[idx[k]] == Some(Collect(ms)[k]))
  {
    if ms != [] {
      var n := |ms| - 1;
      var init := ms[..n];
      CollectFilter(init);
      var idx0, c0 := SomeIndices(init), Collect(init);
      var idx, c := SomeIndices(ms), Collect(ms);
      if ms[n].Some? {
        assert idx == idx0 + [n] && c == c0 + [ms[n].value];
        forall k | 0 <= k < |idx|
          ensures idx[k] < |ms| && ms[idx[k]] == Some(c[k])
        {
          if k < |idx0| {
            assert idx[k] == idx0[k] && c[k] == c0[k];
            assert init[idx0[k]] == ms[idx0[k]];
          }
        }
      } else {
        assert idx == idx0 && c == c0;
        forall k | 0 <= k < |idx|
          ensures idx[k] < |ms| && ms[idx[k]] == Some(c[k])
        {
          assert init[idx0[k]] == ms[idx0[k]];
        }
      }
    }
  }

  /** One record per matching line, in line order, non-matching lines skipped:
      with `idx` the increasing positions of the matching lines, the k-th
      record is the match of line `idx[k]`. */
  lemma ParseLinesFilter(lines: seq<string>)
    ensures var idx := SomeIndices(Matches(lines));
      |ParseLines(lines)| == |idx|
      && (forall i :: i in idx <==> 0 <= i < |lines| && MatchLine(lines[i]).Some?)
      && (forall a, b :: 0 <= a < b < |idx| ==> idx[a] < idx[b])
      && (forall k :: 0 <= k < |idx| ==> idx[k] < |lines| && MatchLine(lines[idx[k]]) == Some(ParseLines(lines)[k]))
  {
    SomeIndicesSpec(Matches(lines));
    CollectFilter(Matches(lines));
  }

  lemma {:induction false} CollectAppend(a: seq<Option<Route>>, b: seq<Option<Route>>)
    ensures Collect(a + b) == Collect(a) + Collect(b)
    decreases |b|
  {
    if b == [] {
      assert a + b == a;
    } else {
      var n := |b| - 1;
      CollectAppend(a, b[..n]);
      assert (a + b)[..|a + b| - 1] == a + b[..n];
      assert (a + b)[|a + b| - 1] == b[n];
    }
  }

  /** Parsing the concatenation of two line sequences gives the records of
      the first followed by those of the second. */
  lemma ParseLinesAppend(a: seq<string>, b: seq<string>)
    ensures ParseLines(a + b) == ParseLines(a) + ParseLines(b)
  {
    assert Matches(a + b) == Matches(a) + Matches(b);
    CollectAppend(Matches(a), Matches(b));
  }

  /** Passing a string gives the same records as passing a stream of the same
      lines. */
  lemma TextAndStreamAgree(lines: seq<string>)
    requires IsLineSeq(lines)
    ensures ParseLines(LinesOf(StringInput(Concat(lines)))) == ParseLines(LinesOf(StreamInput(lines)))
  {
    EachLineOfConcat(lines);
  }
}
