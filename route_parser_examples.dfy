/** The annotation forms of the plugin's documentation, and the edge cases of
    the pattern, worked through the scanner.  Each line is cut into its
    grammar pieces; the pieces are checked one fact at a time and then handed
    to the completeness lemma. */
module RouteParserExamples {
  import opened Wrappers
  import opened RubyText
  import opened RouteRecord
  import opened RouteParser

  lemma ShapeYields(sh: LineShape, line: string, r: Route)
    requires WellFormed(sh) && Text(sh) == line && Record(sh) == r
    ensures MatchLine(line) == Some(r)
  {
    MatchLineComplete(sh);
  }

  function PlainPathShape(): LineShape { LineShape("", " ", None, " ", None, "", "/foo", "\n") }
  function NamedPathShape(): LineShape { LineShape("", " ", Some("bar"), " ", None, "", "/foo/bar", "\n") }
  function MethodPathShape(): LineShape { LineShape("", " ", None, " ", Some("GET"), " ", "/foo/baz", "\n") }
  function FullFormShape(): LineShape {
    LineShape("", " ", Some("quux"), " ", Some("GET|POST"), " ", "/foo/baz/quux/:quux_id", "\n")
  }
  function LoneTokenShape(): LineShape { LineShape("", " ", None, " ", None, "", "GET", "") }

  lemma PlainPathPieces() ensures WellFormed(PlainPathShape()) { }
  lemma NamedPathPieces() ensures WellFormed(NamedPathShape()) { }
  lemma MethodPathPieces() ensures WellFormed(MethodPathShape()) { }
  lemma FullFormPath() ensures AllIn("/foo/baz/quux/:quux_id", NonSpace) { }
  lemma FullFormMethods() ensures AllIn("GET|POST", MethodChar) { }
  lemma FullFormPieces() ensures WellFormed(FullFormShape())
  {
    FullFormPath();
    FullFormMethods();
  }
  lemma LoneTokenPieces() ensures WellFormed(LoneTokenShape()) { }

  lemma MethodPathRecord()
    ensures Record(MethodPathShape()) == Route("/foo/baz", Some(["GET"]), None)
  {
    SplitOneMethod();
  }

  lemma FullFormRecord()
    ensures Record(FullFormShape()) == Route("/foo/baz/quux/:quux_id", Some(["GET", "POST"]), Some("quux"))
  {
    SplitTwoMethods();
  }

  lemma PlainPathText() ensures Text(PlainPathShape()) == "# route: /foo\n" { }
  lemma NamedPathText() ensures Text(NamedPathShape()) == "# route[bar]: /foo/bar\n" { }
  lemma MethodPathText() ensures Text(MethodPathShape()) == "# route: GET /foo/baz\n" { }
  // String-literal facts, not properties of the model.  The full-form line
  // is long enough that the solver assembles its text cheaply only one
  // concatenation at a time, so each step is a lemma of its own and
  // `FullFormText` chains them.
  lemma GlueRight(a: string, b: string, c: string, d: string, e: string,
                  x1: string, x2: string, y: string, x4: string)
    requires d + e == x1 && c + x1 == x2 && a + b == y && y + x2 == x4
    ensures a + (b + (c + (d + e))) == x4
  {
    assert a + (b + x2) == (a + b) + x2;
  }
  lemma FullFormHeader(t: string) ensures HeaderThen("", " ", Some("quux"), t) == "# route[quux]:" + t { }
  lemma FullFormGlue1() ensures "/foo/baz/quux/:quux_id" + "\n" == "/foo/baz/quux/:quux_id\n" { }
  lemma FullFormGlue2() ensures " " + "/foo/baz/quux/:quux_id\n" == " /foo/baz/quux/:quux_id\n" { }
  lemma FullFormGlue3() ensures " " + "GET|POST" == " GET|POST" { }
  lemma FullFormGlue4() ensures " GET|POST" + " /foo/baz/quux/:quux_id\n" == " GET|POST /foo/baz/quux/:quux_id\n" { }
  lemma FullFormGlue5()
    ensures "# route[quux]:" + " GET|POST /foo/baz/quux/:quux_id\n" == "# route[quux]: GET|POST /foo/baz/quux/:quux_id\n"
  { }

  lemma FullFormText() ensures Text(FullFormShape()) == "# route[quux]: GET|POST /foo/baz/quux/:quux_id\n"
  {
    FullFormGlue1(); FullFormGlue2(); FullFormGlue3(); FullFormGlue4(); FullFormGlue5();
    GlueRight(" ", "GET|POST", " ", "/foo/baz/quux/:quux_id", "\n", "/foo/baz/quux/:quux_id\n",
              " /foo/baz/quux/:quux_id\n", " GET|POST", " GET|POST /foo/baz/quux/:quux_id\n");
    FullFormHeader(" GET|POST /foo/baz/quux/:quux_id\n");
  }
  lemma LoneTokenText() ensures Text(LoneTokenShape()) == "# route: GET" { }

  /** `# route: /foo` is a bare path. */
  lemma DocumentedPlainPath()
    ensures MatchLine("# route: /foo\n") == Some(Route("/foo", None, None))
  {
    PlainPathPieces();
    PlainPathText();
    ShapeYields(PlainPathShape(), "# route: /foo\n", Route("/foo", None, None));
  }

  /** `# route[bar]: /foo/bar` is a named path. */
  lemma DocumentedNamedPath()
    ensures MatchLine("# route[bar]: /foo/bar\n") == Some(Route("/foo/bar", None, Some("bar")))
  {
    NamedPathPieces();
    NamedPathText();
    ShapeYields(NamedPathShape(), "# route[bar]: /foo/bar\n", Route("/foo/bar", None, Some("bar")));
  }

  /** `# route: GET /foo/baz` carries one method. */
  lemma DocumentedMethodPath()
    ensures MatchLine("# route: GET /foo/baz\n") == Some(Route("/foo/baz", Some(["GET"]), None))
  {
    MethodPathPieces();
    MethodPathRecord();
    MethodPathText();
    ShapeYields(MethodPathShape(), "# route: GET /foo/baz\n", Route("/foo/baz", Some(["GET"]), None));
  }

  /** `# route[quux]: GET|POST /foo/baz/quux/:quux_id` carries a name, two methods and a path with a placeholder. */
  lemma DocumentedFullForm()
    ensures MatchLine("# route[quux]: GET|POST /foo/baz/quux/:quux_id\n")
            == Some(Route("/foo/baz/quux/:quux_id", Some(["GET", "POST"]), Some("quux")))
  {
    FullFormPieces();
    FullFormRecord();
    FullFormText();
    ShapeYields(FullFormShape(), "# route[quux]: GET|POST /foo/baz/quux/:quux_id\n",
                Route("/foo/baz/quux/:quux_id", Some(["GET", "POST"]), Some("quux")));
  }

  /** A lone token after the colon is the path, even when it is made of
      capitals like a method. */
  lemma LoneCapitalTokenIsPath()
    ensures MatchLine("# route: GET") == Some(Route("GET", None, None))
  {
    LoneTokenPieces();
    LoneTokenText();
    ShapeYields(LoneTokenShape(), "# route: GET", Route("GET", None, None));
  }

  lemma NoSpaceText() ensures HeaderThen("", " ", None, "/foo") == "# route:/foo" { }

  /** A missing space after the colon loses the line. */
  lemma NoSpaceExample()
    ensures MatchLine("# route:/foo") == None
  {
    NoSpaceText();
    NoSpaceAfterColon("# route:/foo", "", " ", None, "/foo");
  }

  lemma ThreeTokenText()
    ensures HeaderThen("", " ", None, " " + ("GET" + (" " + ("/foo" + (" " + ("/bar" + "")))))) == "# route: GET /foo /bar"
  {
  }

  /** A third token after the colon loses the line. */
  lemma ThreeTokenExample()
    ensures MatchLine("# route: GET /foo /bar") == None
  {
    ThreeTokenText();
    AtLeastThreeTokens("# route: GET /foo /bar", "", " ", None, " ", "GET", " ", "/foo", " ", "/bar", "");
  }
}
