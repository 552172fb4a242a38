/** The `route_list` plugin: an index of the scraped route records, kept in
    load order and by name, and the resolution of a named route to a path,
    with its placeholders filled from a keyed map or from a list of values. */
module RouteList {
  import opened Wrappers
  import opened RouteRecord
  import opened PlaceholderScan

  /** The errors `listed_route` raises; `placeholder` is the matched text,
      colon included. */
  datatype RouteError =
    | UnknownRoute(name: string)
    | MissingValue(name: string, placeholder: string)
    | NotEnoughValues(name: string, placeholder: string)
    | TooManyValues(name: string)

  /** The optional second argument of `listed_route`: absent (or nil/false),
      a hash from placeholder keys to values, or an array of values. A key
      mapped to `None` stands for a nil or false value. */
  datatype Args =
    | NoArgs
    | Keyed(hash: map<string, Option<string>>)
    | Positional(values: seq<string>)

  /** The value a hash gives for a key; an absent key and a nil value alike give nothing. */
  function Lookup(m: map<string, Option<string>>, k: string): Option<string> {
    if k in m then m[k] else None
  }

  function LookupAll(m: map<string, Option<string>>, keys: seq<string>): (r: seq<string>)
    requires forall i :: 0 <= i < |keys| ==> Lookup(m, keys[i]).Some?
    ensures |r| == |keys|
    ensures forall i :: 0 <= i < |keys| ==> Some(r[i]) == Lookup(m, keys[i])
  {
    if keys == [] then [] else [Lookup(m, keys[0]).value] + LookupAll(m, keys[1..])
  }

  /** The position of the first key the hash has no value for (`|keys|` if none). */
  function FirstMissing(m: map<string, Option<string>>, keys: seq<string>): (j: nat)
    ensures j <= |keys|
    ensures forall i :: 0 <= i < j ==> Lookup(m, keys[i]).Some?
    ensures j < |keys| ==> Lookup(m, keys[j]).None?
  {
    if keys == [] then 0
    else if Lookup(m, keys[0]).None? then 0
    else 1 + FirstMissing(m, keys[1..])
  }

  /** `s` in front of a successful path; an error passes through. */
  function Prepend(s: string, r: Result<string, RouteError>): Result<string, RouteError> {
    if r.Success? then Success(s + r.value) else r
  }

  lemma PrependEmpty(r: Result<string, RouteError>)
    ensures Prepend("", r) == r
  {
    if r.Success? {
      assert "" + r.value == r.value;
    }
  }

  lemma PrependPrepend(a: string, b: string, r: Result<string, RouteError>)
    ensures Prepend(a, Prepend(b, r)) == Prepend(a + b, r)
  {
    if r.Success? {
      assert a + (b + r.value) == (a + b) + r.value;
    }
  }

  // ---------------------------------------------------------------------
  // Filling placeholders from a hash
  // ---------------------------------------------------------------------

  /** The hash branch of `listed_route`: each placeholder, left to right,
      becomes the hash's value for its key; the first one without a value
      stops the substitution. */
  function KeyedFill(ps: seq<Piece>, m: map<string, Option<string>>, name: string): Result<string, RouteError> {
    if ps == [] then Success("")
    else match ps[0]
      case Literal(c) => Prepend([c], KeyedFill(ps[1..], m, name))
      case Placeholder(key) =>
        match Lookup(m, key)
        case None => Failure(MissingValue(name, ":" + key))
        case Some(v) => Prepend(v, KeyedFill(ps[1..], m, name))
  }

  /** The hash branch succeeds exactly when every placeholder's key has a
      value, and then fills each placeholder with it; otherwise it reports
      the first placeholder whose key has none. */
  lemma {:induction false} KeyedFillSpec(ps: seq<Piece>, m: map<string, Option<string>>, name: string)
    ensures var keys := Keys(ps);
      var j := FirstMissing(m, keys);
      KeyedFill(ps, m, name) ==
        if j == |keys| then Success(Expand(ps, LookupAll(m, keys)))
        else Failure(MissingValue(name, ":" + keys[j]))
  {
    if ps != [] {
      KeyedFillSpec(ps[1..], m, name);
      var keys, rest := Keys(ps), Keys(ps[1..]);
      match ps[0]
      case Literal(c) =>
        assert keys == rest;
      case Placeholder(key) =>
        assert keys == [key] + rest && keys[1..] == rest;
        if Lookup(m, key).Some? {
          if FirstMissing(m, keys) == |keys| {
            assert LookupAll(m, keys)[1..] == LookupAll(m, rest);
          }
        }
    }
  }

  /** Keys the path does not mention never matter. */
  lemma {:induction false} KeyedFillIgnoresOtherKeys(ps: seq<Piece>, m1: map<string, Option<string>>,
                                                     m2: map<string, Option<string>>, name: string)
    requires forall k :: k in Keys(ps) ==> Lookup(m1, k) == Lookup(m2, k)
    ensures KeyedFill(ps, m1, name) == KeyedFill(ps, m2, name)
  {
    if ps != [] {
      assert forall k :: k in Keys(ps[1..]) ==> k in Keys(ps);
      KeyedFillIgnoresOtherKeys(ps[1..], m1, m2, name);
      if ps[0].Placeholder? {
        assert ps[0].key in Keys(ps);
      }
    }
  }

  // ---------------------------------------------------------------------
  // Filling placeholders from an array
  // ---------------------------------------------------------------------

  /** The array branch of `listed_route`: each placeholder, left to right,
      takes the next value; running out of values at a placeholder is an
      error, and so are values left over at the end. */
  function PositionalFill(ps: seq<Piece>, values: seq<string>, name: string): Result<string, RouteError> {
    if ps == [] then (if values == [] then Success("") else Failure(TooManyValues(name)))
    else match ps[0]
      case Literal(c) => Prepend([c], PositionalFill(ps[1..], values, name))
      case Placeholder(key) =>
        if values == [] then Failure(NotEnoughValues(name, ":" + key))
        else Prepend(values[0], PositionalFill(ps[1..], values[1..], name))
  }

  /** The array branch succeeds exactly when there are as many values as
      placeholders, and then the i-th placeholder becomes the i-th value;
      with too few values it reports the first placeholder left without
      one, with too many it reports that. */
  lemma {:induction false} PositionalFillSpec(ps: seq<Piece>, values: seq<string>, name: string)
    ensures var keys := Keys(ps);
      PositionalFill(ps, values, name) ==
        if |values| == |keys| then Success(Expand(ps, values))
        else if |values| < |keys| then Failure(NotEnoughValues(name, ":" + keys[|values|]))
        else Failure(TooManyValues(name))
  {
    if ps != [] {
      var keys, rest := Keys(ps), Keys(ps[1..]);
      match ps[0]
      case Literal(c) =>
        PositionalFillSpec(ps[1..], values, name);
        assert keys == rest;
      case Placeholder(key) =>
        assert keys == [key] + rest;
        if values != [] {
          PositionalFillSpec(ps[1..], values[1..], name);
          if |values| < |keys| {
            assert keys[|values|] == rest[|values| - 1];
          }
        }
    }
  }

  /** A hash that has every key fills the path as the array of its values
      would, taken in placeholder order. */
  lemma KeyedAsPositional(ps: seq<Piece>, m: map<string, Option<string>>, name: string)
    requires forall k :: k in Keys(ps) ==> Lookup(m, k).Some?
    ensures KeyedFill(ps, m, name) == PositionalFill(ps, LookupAll(m, Keys(ps)), name)
  {
    var keys := Keys(ps);
    assert forall i :: 0 <= i < |keys| ==> keys[i] in keys;
    KeyedFillSpec(ps, m, name);
    PositionalFillSpec(ps, LookupAll(m, keys), name);
  }

  // ---------------------------------------------------------------------
  // Resolving a named route
  // ---------------------------------------------------------------------

  /** Class-level `listed_route` against a names map. */
  function Resolve(names: map<string, string>, name: string, args: Args): Result<string, RouteError> {
    if name !in names then Failure(UnknownRoute(name))
    else
      var path := names[name];
      match args
      case NoArgs => Success(path)
      case Keyed(m) => KeyedFill(Pieces(path), m, name)
      case Positional(vs) => PositionalFill(Pieces(path), vs, name)
  }

  /** The unknown-route error is raised exactly for names the index does
      not hold, whatever the arguments. */
  lemma ResolveUnknown(names: map<string, string>, name: string, args: Args)
    ensures Resolve(names, name, args) == Failure(UnknownRoute(name)) <==> name !in names
  {
    if name in names {
      var ps := Pieces(names[name]);
      match args
      case NoArgs =>
      case Keyed(m) => KeyedFillSpec(ps, m, name);
      case Positional(vs) => PositionalFillSpec(ps, vs, name);
    }
  }

  /** Without arguments the stored path comes back verbatim, placeholders
      and all; with arguments, a path without placeholders comes back
      unchanged from any hash and from an empty array. */
  lemma ResolvePlain(names: map<string, string>, name: string, args: Args)
    requires name in names
    requires args == NoArgs || (Keys(Pieces(names[name])) == [] && (args.Keyed? || args == Positional([])))
    ensures Resolve(names, name, args) == Success(names[name])
  {
    var path := names[name];
    var ps := Pieces(path);
    if args != NoArgs {
      PiecesRoundTrip(path);
      ExpandNoPlaceholders(ps);
      if args.Keyed? {
        KeyedFillSpec(ps, args.hash, name);
      } else {
        PositionalFillSpec(ps, [], name);
      }
    }
  }

  /** The records' names mapped to their paths, a later record overriding an
      earlier one with the same name. */
  function NameIndex(records: seq<Route>): map<string, string> {
    if records == [] then map[]
    else
      var n := |records| - 1;
      var m := NameIndex(records[..n]);
      if records[n].name.Some? then m[records[n].name.value := records[n].path] else m
  }

  /** A name is in the index exactly when some record carries it. */
  lemma {:induction false} NameIndexDomain(records: seq<Route>, k: string)
    ensures k in NameIndex(records) <==> exists i :: 0 <= i < |records| && records[i].name == Some(k)
  {
    if records != [] {
      var n := |records| - 1;
      NameIndexDomain(records[..n], k);
      if k in NameIndex(records[..n]) {
        var i :| 0 <= i < n && records[..n][i].name == Some(k);
        assert records[i].name == Some(k);
      }
      if i :| 0 <= i < |records| && records[i].name == Some(k) {
        if i < n {
          assert records[..n][i].name == Some(k);
        }
      }
    }
  }

  /** The index sends a name to the path of the last record carrying it. */
  lemma {:induction false} NameIndexLast(records: seq<Route>, k: string) returns (i: nat)
    requires k in NameIndex(records)
    ensures i < |records| && records[i].name == Some(k)
    ensures forall j :: i < j < |records| ==> records[j].name != Some(k)
    ensures NameIndex(records)[k] == records[i].path
  {
    var n := |records| - 1;
    if records[n].name == Some(k) {
      i := n;
    } else {
      i := NameIndexLast(records[..n], k);
    }
  }

  /** After loading, a name is unknown exactly when no loaded record
      carries it. */
  lemma LoadedUnknown(records: seq<Route>, name: string, args: Args)
    ensures Resolve(NameIndex(records), name, args) == Failure(UnknownRoute(name))
        <==> forall i :: 0 <= i < |records| ==> records[i].name != Some(name)
  {
    ResolveUnknown(NameIndex(records), name, args);
    NameIndexDomain(records, name);
  }

  // ---------------------------------------------------------------------
  // The plugin's state
  // ---------------------------------------------------------------------

  /** The state the plugin keeps on the application class: the route list
      and the map from route names to paths. */
  class RouteIndex {
    var routeList: seq<Route>
    var names: map<string, string>

    /** The names map is the one the route list determines. */
    predicate Valid()
      reads this
    {
      names == NameIndex(routeList)
    }

    /** An application class the plugin has not loaded routes into yet. */
    constructor()
      ensures routeList == [] && names == map[]
      ensures Valid()
    {
      routeList := [];
      names := map[];
    }

    /** `load_routes` on records already read from the routes file: the list
        keeps every record in order, and the names map is rebuilt from the
        named ones. */
    method LoadRoutes(records: seq<Route>)
      modifies this
      ensures routeList == records
      ensures names == NameIndex(records)
      ensures Valid()
    {
      names := map[];
      var list: seq<Route> := [];
      for i := 0 to |records|
        invariant list == records[..i]
        invariant names == NameIndex(records[..i])
      {
        var r := records[i];
        var route := Route(r.path, None, None);
        if r.methods.Some? {
          route := route.(methods := r.methods);
        }
        if r.name.Some? {
          route := route.(name := r.name);
          names := names[r.name.value := r.path];
        }
        assert records[..i + 1][..i] == records[..i];
        list := list + [route];
      }
      assert records[..|records|] == records;
      routeList := list;
    }

    /** Class-level `listed_route`; it reads the index and changes nothing. */
    method ListedRoute(name: string, args: Args) returns (r: Result<string, RouteError>)
      ensures r == Resolve(names, name, args)
      ensures Valid() ==> r == Resolve(NameIndex(routeList), name, args)
    {
      if name !in names {
        return Failure(UnknownRoute(name));
      }
      var path := names[name];
      match args
      case NoArgs =>
        r := Success(path);
      case Keyed(m) =>
        r := KeyedFill(Pieces(path), m, name);
      case Positional(vs) =>
        r := FillPositional(path, vs, name);
    }
  }

  /** The array branch as the plugin runs it: a copy of the caller's values
      is shifted once per placeholder while the path is scanned. */
  method FillPositional(path: string, args: seq<string>, name: string) returns (r: Result<string, RouteError>)
    ensures r == PositionalFill(Pieces(path), args, name)
  {
    var ps := Pieces(path);
    var values := args;
    var out := "";
    assert ps[0..] == ps;
    PrependEmpty(PositionalFill(ps, args, name));
    for i := 0 to |ps|
      invariant PositionalFill(ps, args, name) == Prepend(out, PositionalFill(ps[i..], values, name))
    {
      assert ps[i..][1..] == ps[i + 1..];
      match ps[i]
      case Literal(c) =>
        PrependPrepend(out, [c], PositionalFill(ps[i + 1..], values, name));
        out := out + [c];
      case Placeholder(key) =>
        if values == [] {
          return Failure(NotEnoughValues(name, ":" + key));
        }
        PrependPrepend(out, values[0], PositionalFill(ps[i + 1..], values[1..], name));
        out := out + values[0];
        values := values[1..];
    }
    assert ps[|ps|..] == [];
    if values != [] {
      return Failure(TooManyValues(name));
    }
    r := Success(out);
    assert out + "" == out;
  }

  /** Instance-level `listed_route`: the class-level result, behind the
      request's script name when the application sets `:add_script_name`. */
  function InstanceListedRoute(app: RouteIndex, addScriptName: bool, scriptName: string,
                               name: string, args: Args): (r: Result<string, RouteError>)
    reads app
    ensures r.Success? <==> Resolve(app.names, name, args).Success?
    ensures r.Failure? ==> r == Resolve(app.names, name, args)
    ensures r.Success? ==> r.value == (if addScriptName then scriptName else "") + Resolve(app.names, name, args).value
  {
    var path := Resolve(app.names, name, args);
    if addScriptName then Prepend(scriptName, path) else path
  }
}
