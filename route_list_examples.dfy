/** The behaviour the plugin's tests expect, over the routes file they load:
    four records, two of them named. */
module RouteListExamples {
  import opened Wrappers
  import opened RubyText
  import opened RouteRecord
  import opened PlaceholderScan
  import opened RouteList

  /** A path made of literal characters only. */
  predicate NoColon(s: string) {
    forall i :: 0 <= i < |s| ==> s[i] != ':'
  }

  function Literals(s: string): (r: seq<Piece>)
    ensures |r| == |s|
    ensures forall i :: 0 <= i < |s| ==> r[i] == Literal(s[i])
  {
    if s == [] then [] else [Literal(s[0])] + Literals(s[1..])
  }

  lemma {:induction false} KeysOfLiterals(s: string)
    ensures Keys(Literals(s)) == []
  {
    if s != [] {
      KeysOfLiterals(s[1..]);
      assert Literals(s)[1..] == Literals(s[1..]);
    }
  }

  lemma {:induction false} ExpandLiterals(s: string)
    ensures Keys(Literals(s)) == []
    ensures Expand(Literals(s), []) == s
  {
    KeysOfLiterals(s);
    if s != [] {
      ExpandLiterals(s[1..]);
      assert Literals(s)[1..] == Literals(s[1..]);
      assert s == [s[0]] + s[1..];
    }
  }

  /** A colon-free prefix followed by one placeholder scans as the prefix's
      characters and then that placeholder. */
  lemma OnePlaceholderPieces(prefix: string, key: string)
    requires NoColon(prefix)
    requires key != [] && NoSlash(key)
    ensures Pieces(prefix + ":" + key) == Literals(prefix) + [Placeholder(key)]
  {
    var ps := Literals(prefix) + [Placeholder(key)];
    forall i | 0 <= i < |ps| ensures PieceOk(ps, i) {
      if i < |prefix| {
        assert ps[i] == Literal(prefix[i]);
      }
    }
    PiecesOfUnparse(ps);
    UnparseLiterals(prefix, [Placeholder(key)]);
    assert Unparse([Placeholder(key)]) == ":" + key + "";
    assert prefix + (":" + key + "") == prefix + ":" + key;
  }

  lemma LiteralsCons(s: string, rest: seq<Piece>)
    requires s != []
    ensures Literals(s) + rest == [Literal(s[0])] + (Literals(s[1..]) + rest)
  {
    assert Literals(s) == [Literal(s[0])] + Literals(s[1..]);
  }

  lemma {:induction false} UnparseLiterals(s: string, rest: seq<Piece>)
    ensures Unparse(Literals(s) + rest) == s + Unparse(rest)
  {
    if s == [] {
      assert Literals(s) + rest == rest;
    } else {
      var tail := Literals(s[1..]) + rest;
      var u := Unparse(rest);
      calc {
        Unparse(Literals(s) + rest);
        { LiteralsCons(s, rest); }
        Unparse([Literal(s[0])] + tail);
        { UnparseCons(Literal(s[0]), tail); }
        [s[0]] + Unparse(tail);
        { UnparseLiterals(s[1..], rest); }
        [s[0]] + (s[1..] + u);
        { assert [s[0]] + s[1..] == s; }
        s + u;
      }
    }
  }

  /** Filling the one placeholder puts the value behind the prefix. */
  lemma ExpandOne(prefix: string, key: string, v: string)
    ensures Keys(Literals(prefix) + [Placeholder(key)]) == [key]
    ensures Expand(Literals(prefix) + [Placeholder(key)], [v]) == prefix + v
  {
    var lits, hole := Literals(prefix), [Placeholder(key)];
    ExpandLiterals(prefix);
    ExpandAppend(lits, hole, [], [v]);
    assert [] + [v] == [v];
    assert Expand(hole, [v]) == v + "";
    assert prefix + (v + "") == prefix + v;
  }

  /** Resolving a route whose path is a colon-free prefix and one placeholder:
      a hash needs the placeholder's key, an array exactly one value. */
  lemma OnePlaceholderResolve(names: map<string, string>, name: string, prefix: string, key: string, args: Args)
    requires name in names && names[name] == prefix + ":" + key
    requires NoColon(prefix) && key != [] && NoSlash(key)
    ensures args.NoArgs? ==> Resolve(names, name, args) == Success(prefix + ":" + key)
    ensures args.Keyed? ==>
      Resolve(names, name, args) ==
        match Lookup(args.hash, key)
        case Some(v) => Success(prefix + v)
        case None => Failure(MissingValue(name, ":" + key))
    ensures args.Positional? ==>
      Resolve(names, name, args) ==
        if |args.values| == 1 then Success(prefix + args.values[0])
        else if args.values == [] then Failure(NotEnoughValues(name, ":" + key))
        else Failure(TooManyValues(name))
  {
    var ps := Literals(prefix) + [Placeholder(key)];
    OnePlaceholderPieces(prefix, key);
    ExpandOne(prefix, key, "");
    match args
    case NoArgs =>
    case Keyed(m) =>
      KeyedFillSpec(ps, m, name);
      if Lookup(m, key).Some? {
        var v := Lookup(m, key).value;
        ExpandOne(prefix, key, v);
        assert LookupAll(m, [key]) == [v];
      }
    case Positional(vs) =>
      PositionalFillSpec(ps, vs, name);
      if |vs| == 1 {
        ExpandOne(prefix, key, vs[0]);
        assert vs == [vs[0]];
      }
  }

  // ---------------------------------------------------------------------
  // The tests' routes file
  // ---------------------------------------------------------------------

  function TestRoutes(): seq<Route> {
    [ Route("/foo", None, None),
      Route("/foo/bar", None, Some("bar")),
      Route("/foo/baz", Some(["GET"]), None),
      Route("/foo/baz/quux/:quux_id", Some(["GET", "POST"]), Some("quux")) ]
  }

  function TestNames(): map<string, string> {
    map["bar" := "/foo/bar", "quux" := "/foo/baz/quux/:quux_id"]
  }

  /** Loading the tests' routes names the second and the fourth. */
  lemma LoadedNames()
    ensures NameIndex(TestRoutes()) == TestNames()
  {
    var rs := TestRoutes();
    assert rs[..1][..0] == [];
    assert NameIndex(rs[..1]) == map[];
    assert rs[..2][..1] == rs[..1];
    assert NameIndex(rs[..2]) == map["bar" := "/foo/bar"];
    assert rs[..3][..2] == rs[..2];
    assert NameIndex(rs[..3]) == map["bar" := "/foo/bar"];
    assert rs[..3] == rs[..|rs| - 1];
  }

  // String-literal facts, not properties of the model: the test path cut at
  // its placeholder and put back together, stated once so that the example
  // lemmas below do not make the solver rebuild the literals.
  lemma QuuxThree()
    ensures "/foo/baz/quux/" + "3" == "/foo/baz/quux/3"
  {
  }

  lemma QuuxPath()
    ensures "/foo/baz/quux/" + ":" + "quux_id" == "/foo/baz/quux/:quux_id"
    ensures NoColon("/foo/baz/quux/") && NoSlash("quux_id")
    ensures ":" + "quux_id" == ":quux_id"
  {
  }

  lemma QuuxResolve(names: map<string, string>, args: Args)
    requires "quux" in names && names["quux"] == "/foo/baz/quux/:quux_id"
    ensures args.NoArgs? ==> Resolve(names, "quux", args) == Success("/foo/baz/quux/:quux_id")
    ensures args.Keyed? ==>
      Resolve(names, "quux", args) ==
        match Lookup(args.hash, "quux_id")
        case Some(v) => Success("/foo/baz/quux/" + v)
        case None => Failure(MissingValue("quux", ":quux_id"))
    ensures args.Positional? ==>
      Resolve(names, "quux", args) ==
        if |args.values| == 1 then Success("/foo/baz/quux/" + args.values[0])
        else if args.values == [] then Failure(NotEnoughValues("quux", ":quux_id"))
        else Failure(TooManyValues("quux"))
  {
    QuuxPath();
    OnePlaceholderResolve(names, "quux", "/foo/baz/quux/", "quux_id", args);
  }

  /** `listed_route(:bar)` is `/foo/bar`. */
  lemma ListedBar()
    ensures Resolve(TestNames(), "bar", NoArgs) == Success("/foo/bar")
  {
  }

  /** `listed_route(:quux)` keeps the placeholder. */
  lemma ListedQuux()
    ensures Resolve(TestNames(), "quux", NoArgs) == Success("/foo/baz/quux/:quux_id")
  {
  }

  /** `listed_route(:quux, :quux_id=>3)` is `/foo/baz/quux/3`. */
  lemma ListedQuuxFromHash()
    ensures Resolve(TestNames(), "quux", Keyed(map["quux_id" := Some("3")])) == Success("/foo/baz/quux/3")
  {
    QuuxResolve(TestNames(), Keyed(map["quux_id" := Some("3")]));
    QuuxThree();
  }

  /** `listed_route(:quux, [3])` is `/foo/baz/quux/3`. */
  lemma ListedQuuxFromArray()
    ensures Resolve(TestNames(), "quux", Positional(["3"])) == Success("/foo/baz/quux/3")
  {
    QuuxResolve(TestNames(), Positional(["3"]));
    QuuxThree();
  }

  /** `listed_route(:foo)` raises: no route has that name. */
  lemma ListedUnknown()
    ensures Resolve(TestNames(), "foo", NoArgs) == Failure(UnknownRoute("foo"))
  {
  }

  /** `listed_route(:quux, {})` raises: no value for the placeholder. */
  lemma ListedQuuxEmptyHash()
    ensures Resolve(TestNames(), "quux", Keyed(map[])) == Failure(MissingValue("quux", ":quux_id"))
  {
    QuuxResolve(TestNames(), Keyed(map[]));
  }

  /** `listed_route(:quux, [])` raises: not enough values. */
  lemma ListedQuuxEmptyArray()
    ensures Resolve(TestNames(), "quux", Positional([])) == Failure(NotEnoughValues("quux", ":quux_id"))
  {
    QuuxResolve(TestNames(), Positional([]));
  }

  /** `listed_route(:quux, [3, 1])` raises: too many values. */
  lemma ListedQuuxTwoValues()
    ensures Resolve(TestNames(), "quux", Positional(["3", "1"])) == Failure(TooManyValues("quux"))
  {
    QuuxResolve(TestNames(), Positional(["3", "1"]));
  }

  /** The instance-level `listed_route(:bar)`, with and without `:add_script_name`. */
  lemma InstanceBar(app: RouteIndex)
    requires app.names == TestNames()
    ensures InstanceListedRoute(app, false, "/a", "bar", NoArgs) == Success("/foo/bar")
    ensures InstanceListedRoute(app, true, "", "bar", NoArgs) == Success("/foo/bar")
    ensures InstanceListedRoute(app, true, "/a", "bar", NoArgs) == Success("/a/foo/bar")
  {
    ListedBar();
    assert "" + "/foo/bar" == "/foo/bar";
    assert "/a" + "/foo/bar" == "/a/foo/bar";
  }
}
