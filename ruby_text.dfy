/** The pieces of Ruby string behaviour the route scraper and the route
    resolver rely on: the character classes `\s`, `\S`, `\w`, `[A-Z|]` and
    `[^/]` of their patterns, the splitting of a longest run of one class,
    `String#split('|')`, and `String#each_line`. */
module RubyText {

  /** The character classes used by the annotation and placeholder patterns. */
  datatype CharClass = Space | NonSpace | Word | MethodChar | NotNewline | NotSlash

  /** Ruby's `\s`: space, tab, line feed, vertical tab, form feed, carriage return. */
  predicate IsSpace(c: char) {
    c == ' ' || c == '\t' || c == '\n' || c == '\U{0B}' || c == '\U{0C}' || c == '\r'
  }

  /** Ruby's `\w`: ASCII letters, digits and the underscore. */
  predicate IsWordChar(c: char) {
    ('a' <= c <= 'z') || ('A' <= c <= 'Z') || ('0' <= c <= '9') || c == '_'
  }

  predicate In(c: char, k: CharClass) {
    match k
    case Space => IsSpace(c)
    case NonSpace => !IsSpace(c)
    case Word => IsWordChar(c)
    case MethodChar => ('A' <= c <= 'Z') || c == '|'
    case NotNewline => c != '\n'
    case NotSlash => c != '/'
  }

  predicate AllIn(s: string, k: CharClass) {
    forall i :: 0 <= i < |s| ==> In(s[i], k)
  }

  /** Splits `s` into its longest prefix made of characters of class `k`, and the rest. */
  function Span(s: string, k: CharClass): (r: (string, string))
    ensures r.0 + r.1 == s
    ensures AllIn(r.0, k)
    ensures r.1 == [] || !In(r.1[0], k)
  {
    if s != [] && In(s[0], k) then
      var (run, rest) := Span(s[1..], k);
      ([s[0]] + run, rest)
    else
      ([], s)
  }

  /** The longest run is unique: a run of class `k` followed by a character
      outside `k` (or by nothing) is exactly what `Span` splits off. */
  lemma {:induction false} SpanOf(run: string, rest: string, k: CharClass)
    requires AllIn(run, k)
    requires rest == [] || !In(rest[0], k)
    ensures Span(run + rest, k) == (run, rest)
  {
    if run != [] {
      SpanOf(run[1..], rest, k);
      assert (run + rest)[1..] == run[1..] + rest;
      assert [run[0]] + run[1..] == run;
    } else {
      assert run + rest == rest;
    }
  }

  /** The text that follows the leading whitespace of `s`. */
  function DropSpace(s: string): string {
    Span(s, Space).1
  }

  lemma DropSpaceOf(ws: string, rest: string)
    requires AllIn(ws, Space)
    requires rest == [] || !IsSpace(rest[0])
    ensures DropSpace(ws + rest) == rest
  {
    SpanOf(ws, rest, Space);
  }

  lemma DropAllSpace(ws: string)
    requires AllIn(ws, Space)
    ensures DropSpace(ws) == []
  {
    SpanOf(ws, [], Space);
    assert ws + [] == ws;
  }

  // ---------------------------------------------------------------------
  // String#split('|')
  // ---------------------------------------------------------------------

  predicate NoBar(f: string) {
    forall i :: 0 <= i < |f| ==> f[i] != '|'
  }

  /** Every `|`-separated field of `s`, empty ones included; there is always
      at least one field. */
  function Fields(s: string): (r: seq<string>)
    ensures |r| >= 1
  {
    if s == [] then [""]
    else
      var rest := Fields(s[1..]);
      if s[0] == '|' then [""] + rest else [[s[0]] + rest[0]] + rest[1..]
  }

  /** The fields joined back together with `|`. */
  function JoinBars(fs: seq<string>): string {
    if fs == [] then ""
    else if |fs| == 1 then fs[0]
    else fs[0] + "|" + JoinBars(fs[1..])
  }

  function DropTrailingEmpty(fs: seq<string>): (r: seq<string>)
    ensures |r| <= |fs|
  {
    if fs != [] && fs[|fs| - 1] == "" then DropTrailingEmpty(fs[..|fs| - 1]) else fs
  }

  /** Ruby's `s.split('|')`: the fields, minus the trailing empty ones (the
      leading and inner empty fields are kept). */
  function RubySplit(s: string): seq<string> {
    DropTrailingEmpty(Fields(s))
  }

  function Bars(n: nat): string {
    seq(n, _ => '|')
  }

  function Empties(n: nat): seq<string> {
    seq(n, _ => "")
  }

  /** What `split('|')` can return: fields free of `|`, the last of them non-empty. */
  predicate SplitShaped(fs: seq<string>) {
    (forall i :: 0 <= i < |fs| ==> NoBar(fs[i])) && (fs == [] || fs[|fs| - 1] != "")
  }

  lemma {:induction false} FieldsNoBar(s: string)
    ensures forall i :: 0 <= i < |Fields(s)| ==> NoBar(Fields(s)[i])
  {
    if s != [] {
      FieldsNoBar(s[1..]);
    }
  }

  lemma {:induction false} JoinFields(s: string)
    ensures JoinBars(Fields(s)) == s
  {
    if s != [] {
      var rest := Fields(s[1..]);
      JoinFields(s[1..]);
      if s[0] == '|' {
        assert JoinBars([""] + rest) == "" + "|" + JoinBars(rest);
      } else if |rest| == 1 {
        assert [s[0]] + s[1..] == s;
      } else {
        var fs := [[s[0]] + rest[0]] + rest[1..];
        assert fs[1..] == rest[1..];
        assert JoinBars(rest) == rest[0] + "|" + JoinBars(rest[1..]);
      }
    }
  }

  lemma {:induction false} DropTrailingEmptyShape(fs: seq<string>)
    ensures var r := DropTrailingEmpty(fs);
      |r| <= |fs| && r == fs[..|r|] && (r == [] || r[|r| - 1] != "")
      && forall i :: |r| <= i < |fs| ==> fs[i] == ""
  {
    if fs != [] && fs[|fs| - 1] == "" {
      DropTrailingEmptyShape(fs[..|fs| - 1]);
    }
  }

  lemma {:induction false} JoinSnoc(xs: seq<string>, y: string)
    requires xs != []
    ensures JoinBars(xs + [y]) == JoinBars(xs) + "|" + y
  {
    if |xs| > 1 {
      JoinSnoc(xs[1..], y);
      assert (xs + [y])[1..] == xs[1..] + [y];
    }
  }

  lemma {:induction false} JoinEmpties(r: seq<string>, n: nat)
    requires r != []
    ensures JoinBars(r + Empties(n)) == JoinBars(r) + Bars(n)
  {
    if n == 0 {
      assert r + Empties(0) == r;
    } else {
      JoinEmpties(r, n - 1);
      assert r + Empties(n) == (r + Empties(n - 1)) + [""];
      JoinSnoc(r + Empties(n - 1), "");
      assert Bars(n) == Bars(n - 1) + "|";
    }
  }

  lemma {:induction false} JoinOnlyEmpties(n: nat)
    requires n >= 1
    ensures JoinBars(Empties(n)) == Bars(n - 1)
  {
    if n > 1 {
      JoinOnlyEmpties(n - 1);
      assert Empties(n) == Empties(n - 1) + [""];
      JoinSnoc(Empties(n - 1), "");
      assert Bars(n - 1) == Bars(n - 2) + "|";
    }
  }

  lemma DropTrailingAsEmpties(fs: seq<string>)
    ensures var r := DropTrailingEmpty(fs);
      |r| <= |fs| && fs == r + Empties(|fs| - |r|) && (r == [] || r[|r| - 1] != "")
  {
    DropTrailingEmptyShape(fs);
    var r := DropTrailingEmpty(fs);
    var e := Empties(|fs| - |r|);
    assert forall i :: 0 <= i < |fs| ==> fs[i] == (r + e)[i];
  }

  lemma RubySplitShaped(s: string)
    ensures SplitShaped(RubySplit(s))
  {
    var fs := Fields(s);
    FieldsNoBar(s);
    DropTrailingEmptyShape(fs);
    var r := DropTrailingEmpty(fs);
    assert forall i :: 0 <= i < |r| ==> r[i] == fs[i];
  }

  /** Joining the fields gives the joined kept fields followed by one `|`
      per dropped empty field. */
  lemma JoinDropped(fs: seq<string>)
    requires fs != []
    ensures var r := DropTrailingEmpty(fs);
      JoinBars(fs) == JoinBars(r) + Bars(if r == [] then |fs| - 1 else |fs| - |r|)
  {
    DropTrailingAsEmpties(fs);
    var r := DropTrailingEmpty(fs);
    var n := |fs| - |r|;
    if r != [] {
      JoinEmpties(r, n);
    } else {
      assert fs == Empties(n);
      JoinOnlyEmpties(n);
    }
  }

  /** `split('|')` returns `|`-free fields whose last one is non-empty, and
      the input is exactly those fields joined by `|`, followed by the `|`s
      whose empty trailing fields were dropped. */
  lemma RubySplitSpec(s: string)
    ensures SplitShaped(RubySplit(s))
    ensures |JoinBars(RubySplit(s))| <= |s|
    ensures s == JoinBars(RubySplit(s)) + Bars(|s| - |JoinBars(RubySplit(s))|)
  {
    RubySplitShaped(s);
    JoinFields(s);
    var fs := Fields(s);
    var r := DropTrailingEmpty(fs);
    var m := if r == [] then |fs| - 1 else |fs| - |r|;
    JoinDropped(fs);
    assert s == JoinBars(r) + Bars(m);
    assert |s| - |JoinBars(r)| == |Bars(m)| == m;
  }

  lemma {:induction false} FieldsOfNoBar(a: string, b: string)
    requires NoBar(a)
    ensures Fields(a + b) == [a + Fields(b)[0]] + Fields(b)[1..]
  {
    if a != [] {
      FieldsOfNoBar(a[1..], b);
      assert (a + b)[0] == a[0] && a[0] != '|';
      assert (a + b)[1..] == a[1..] + b;
      var rest := Fields(a[1..] + b);
      assert rest == [a[1..] + Fields(b)[0]] + Fields(b)[1..];
      assert Fields(a + b) == [[a[0]] + rest[0]] + rest[1..];
      assert [a[0]] + (a[1..] + Fields(b)[0]) == a + Fields(b)[0];
    } else {
      assert a + b == b && a + Fields(b)[0] == Fields(b)[0];
      assert Fields(b) == [Fields(b)[0]] + Fields(b)[1..];
    }
  }

  lemma {:induction false} FieldsOfBars(n: nat)
    ensures Fields(Bars(n)) == Empties(n + 1)
  {
    if n > 0 {
      FieldsOfBars(n - 1);
      assert Bars(n)[1..] == Bars(n - 1);
    }
  }

  /** The fields of a last field followed by `n` bars. */
  lemma FieldsOfLastField(a: string, n: nat)
    requires NoBar(a)
    ensures Fields(a + Bars(n)) == [a] + Empties(n)
  {
    FieldsOfNoBar(a, Bars(n));
    FieldsOfBars(n);
    assert Empties(n + 1)[0] == "" && Empties(n + 1)[1..] == Empties(n);
    assert a + "" == a;
  }

  lemma {:induction false} FieldsOfJoin(fs: seq<string>, n: nat)
    requires fs != []
    requires forall i :: 0 <= i < |fs| ==> NoBar(fs[i])
    ensures Fields(JoinBars(fs) + Bars(n)) == fs + Empties(n)
  {
    if |fs| == 1 {
      FieldsOfLastField(fs[0], n);
      assert fs == [fs[0]];
    } else {
      var tail := JoinBars(fs[1..]) + Bars(n);
      FieldsOfJoin(fs[1..], n);
      assert JoinBars(fs) + Bars(n) == fs[0] + ("|" + tail);
      FieldsOfNoBar(fs[0], "|" + tail);
      assert ("|" + tail)[0] == '|' && ("|" + tail)[1..] == tail;
      assert Fields("|" + tail) == [""] + Fields(tail);
      assert fs[0] + "" == fs[0];
      assert fs + Empties(n) == [fs[0]] + (fs[1..] + Empties(n));
    }
  }

  lemma {:induction false} DropEmpties(fs: seq<string>, n: nat)
    requires fs == [] || fs[|fs| - 1] != ""
    ensures DropTrailingEmpty(fs + Empties(n)) == fs
  {
    if n > 0 {
      assert (fs + Empties(n))[..|fs| + n - 1] == fs + Empties(n - 1);
      DropEmpties(fs, n - 1);
    } else {
      assert fs + Empties(0) == fs;
    }
  }

  /** The converse of `RubySplitSpec`: `split('|')` recovers any list of
      `|`-free fields with a non-empty last one from its join, whatever
      number of trailing `|` follows it. */
  lemma RubySplitOfJoin(fs: seq<string>, n: nat)
    requires SplitShaped(fs)
    ensures RubySplit(JoinBars(fs) + Bars(n)) == fs
  {
    if fs == [] {
      assert JoinBars(fs) + Bars(n) == Bars(n);
      FieldsOfBars(n);
      DropEmpties([], n + 1);
      assert [] + Empties(n + 1) == Empties(n + 1);
    } else {
      FieldsOfJoin(fs, n);
      DropEmpties(fs, n);
    }
  }

  lemma SplitOf(s: string, fs: seq<string>, n: nat)
    requires SplitShaped(fs) && JoinBars(fs) + Bars(n) == s
    ensures RubySplit(s) == fs
  {
    RubySplitOfJoin(fs, n);
  }

  /** `split('|')` on a single method. */
  lemma SplitOneMethod()
    ensures RubySplit("GET") == ["GET"]
  {
    assert JoinBars(["GET"]) + Bars(0) == "GET";
    SplitOf("GET", ["GET"], 0);
  }

  /** `split('|')` on two methods. */
  lemma SplitTwoMethods()
    ensures RubySplit("GET|POST") == ["GET", "POST"]
  {
    assert JoinBars(["GET", "POST"]) + Bars(0) == "GET|POST";
    SplitOf("GET|POST", ["GET", "POST"], 0);
  }

  /** `split('|')` keeps an inner empty field. */
  lemma SplitKeepsInnerEmpty()
    ensures RubySplit("GET||POST") == ["GET", "", "POST"]
  {
    assert JoinBars(["GET", "", "POST"]) + Bars(0) == "GET||POST";
    SplitOf("GET||POST", ["GET", "", "POST"], 0);
  }

  /** `split('|')` keeps a leading empty field. */
  lemma SplitKeepsLeadingEmpty()
    ensures RubySplit("|GET") == ["", "GET"]
  {
    assert JoinBars(["", "GET"]) + Bars(0) == "|GET";
    SplitOf("|GET", ["", "GET"], 0);
  }

  /** `split('|')` drops a trailing empty field. */
  lemma SplitDropsTrailingEmpty()
    ensures RubySplit("GET|") == ["GET"]
  {
    assert JoinBars(["GET"]) + Bars(1) == "GET|";
    SplitOf("GET|", ["GET"], 1);
  }

  /** A lone `|` splits into no fields at all. */
  lemma SplitLoneBar()
    ensures RubySplit("|") == []
  {
    assert JoinBars([]) + Bars(1) == "|";
    SplitOf("|", [], 1);
  }

  // ---------------------------------------------------------------------
  // String#each_line
  // ---------------------------------------------------------------------

  /** Ruby's `each_line` with the default separator: every line keeps its
      terminating line feed; a final piece without one is a line too. */
  function EachLine(s: string): seq<string>
    decreases |s|
  {
    if s == [] then []
    else
      var (line, rest) := Span(s, NotNewline);
      if rest == [] then [line] else [line + "\n"] + EachLine(rest[1..])
  }

  function Concat(ls: seq<string>): string {
    if ls == [] then "" else ls[0] + Concat(ls[1..])
  }

  /** One line as `each_line` yields it: non-empty, with a line feed at most
      as its last character, and ending in one unless it is the last line. */
  predicate IsLine(l: string, last: bool) {
    l != [] && AllIn(l[..|l| - 1], NotNewline) && (!last ==> l[|l| - 1] == '\n')
  }

  /** What `each_line` yields: a sequence of such lines. */
  predicate IsLineSeq(ls: seq<string>) {
    ls == [] || (IsLine(ls[0], |ls| == 1) && IsLineSeq(ls[1..]))
  }

  /** `each_line` loses nothing. */
  lemma {:induction false} EachLineConcat(s: string)
    ensures Concat(EachLine(s)) == s
    decreases |s|
  {
    if s != [] {
      var (line, rest) := Span(s, NotNewline);
      if rest == [] {
        assert EachLine(s) == [line];
        assert Concat([line]) == line + "";
      } else {
        var more := EachLine(rest[1..]);
        EachLineConcat(rest[1..]);
        var l := line + "\n";
        assert EachLine(s) == [l] + more;
        assert rest == "\n" + rest[1..];
        assert ([l] + more)[1..] == more;
        assert Concat([l] + more) == l + Concat(more);
      }
    }
  }

  /** `each_line` yields well-formed lines. */
  lemma {:induction false} EachLineWellFormed(s: string)
    ensures IsLineSeq(EachLine(s))
    decreases |s|
  {
    if s != [] {
      var (line, rest) := Span(s, NotNewline);
      if rest == [] {
        assert EachLine(s) == [line];
        assert line[..|line| - 1] + [line[|line| - 1]] == line;
      } else {
        var more := EachLine(rest[1..]);
        EachLineWellFormed(rest[1..]);
        var l := line + "\n";
        assert EachLine(s) == [l] + more;
        assert l[..|l| - 1] == line;
        assert ([l] + more)[1..] == more;
      }
    }
  }

  lemma EachLineSpec(s: string)
    ensures Concat(EachLine(s)) == s
    ensures IsLineSeq(EachLine(s))
  {
    EachLineConcat(s);
    EachLineWellFormed(s);
  }

  lemma EachLineCons(body: string, tail: string)
    requires AllIn(body, NotNewline)
    ensures EachLine(body + ("\n" + tail)) == [body + "\n"] + EachLine(tail)
  {
    SpanOf(body, "\n" + tail, NotNewline);
    assert ("\n" + tail)[1..] == tail;
  }

  lemma EachLineLast(l: string)
    requires l != [] && AllIn(l, NotNewline)
    ensures EachLine(l) == [l]
  {
    SpanOf(l, [], NotNewline);
    assert l + [] == l;
  }

  lemma UnterminatedLine(l: string)
    requires l != [] && l[|l| - 1] != '\n' && AllIn(l[..|l| - 1], NotNewline)
    ensures AllIn(l, NotNewline)
  {
    forall i | 0 <= i < |l| ensures In(l[i], NotNewline) {
      if i < |l| - 1 { assert l[i] == l[..|l| - 1][i]; }
    }
  }

  /** `each_line` gives back any well-formed sequence of lines from its text. */
  lemma {:induction false} EachLineOfConcat(ls: seq<string>)
    requires IsLineSeq(ls)
    ensures EachLine(Concat(ls)) == ls
  {
    if ls != [] {
      var l, more := ls[0], ls[1..];
      var body := l[..|l| - 1];
      assert l != [] && AllIn(body, NotNewline);
      EachLineOfConcat(more);
      assert Concat(ls) == l + Concat(more);
      if l[|l| - 1] == '\n' {
        assert l == body + "\n";
        assert l + Concat(more) == body + ("\n" + Concat(more));
        EachLineCons(body, Concat(more));
        assert ls == [l] + more;
      } else {
        assert |ls| == 1;
        UnterminatedLine(l);
        assert Concat(ls) == l + "" == l;
        EachLineLast(l);
      }
    }
  }
}
