# roda-route_list, modelled in Dafny

roda-route_list has two parts:

- **The route-annotation scraper** (`RodaRouteParser.parse`). It reads Ruby
  source text line by line. Every line of the form
  `# route[name]: GET|POST /path/:id` becomes a route record with a `path`,
  an optional `methods` list and an optional `name`.
- **The `route_list` plugin.** It loads those records into an application
  class. It keeps them in order as the route list, and it keeps a map from
  route names to paths. `listed_route` turns a route name into its path.
  It can fill the path's `:placeholder` segments from a hash of values or
  from an array of values. The instance-level `listed_route` can put the
  request's script name in front of the result.

The model is split into these modules:

- `RubyText` (`ruby_text.dfy`) covers the Ruby string behaviour both parts
  rely on:
  - the regex character classes `\s`, `\S`, `\w`, `[A-Z|]` and `[^/]`;
  - splitting off the longest run of one class (`Span`);
  - `String#split('|')`, which keeps leading and inner empty fields and
    drops trailing ones;
  - `String#each_line`.
- `RouteParser` (`route_parser.dfy`) covers the scraper.
  - `MatchLine` is a hand-written scanner for the annotation pattern.
  - `LineShape`, `WellFormed` and `Text` state the same pattern as a
    grammar. The scanner and the grammar are proved to agree in both
    directions.
  - `Parse` is the accumulation loop. A string input is first cut into
    lines with `each_line`.
- `PlaceholderScan` (`placeholder_scan.dfy`) models the left-to-right scan
  of `gsub(/:[^\/]+/)`, which cuts a stored path into literal characters
  and placeholders. The scan and its inverse are proved to be a
  bijection onto the well-formed piece sequences.
- `RouteList` (`route_list.dfy`) covers the plugin.
  - The class `RouteIndex` holds the route list and the names map.
  - `LoadRoutes` rebuilds both in a loop. `ListedRoute` resolves a name
    without changing either.
  - The hash branch is the function `KeyedFill`. The array branch is the
    method `FillPositional`: it shifts values off a local copy of the
    caller's values while it scans the path. The function
    `PositionalFill` specifies it.
  - `InstanceListedRoute` is the instance-level wrapper.
- `RouteParserExamples` and `RouteListExamples` work through the documented
  annotation forms and the behaviour the test suite expects.

Errors are values of `RouteError`; `listed_route` raises these as
exceptions. A hash value of `nil` or `false` is written `None`. Names,
keys, methods and values are strings.

## Model

| member | source | states |
|---|---|---|
| RubyText.Span | lib/roda-route_parser.rb:13 | splits a string into its longest prefix of one character class and the rest; the two parts give back the string, and the rest does not start with a character of the class |
| RubyText.SpanOf | lib/roda-route_parser.rb:13 | the longest run is unique: a run of the class followed by a character outside it, or by nothing, is exactly what `Span` splits off |
| RubyText.RubySplit | lib/roda-route_parser.rb:20 | `split('|')` on the methods token; no contract of its own: `RubySplitSpec` and `RubySplitOfJoin` characterise it in both directions |
| RubyText.RubySplitSpec | lib/roda-route_parser.rb:20 | `split('|')` returns `|`-free fields whose last one is non-empty; the input is those fields joined by `|`, followed by one `|` per dropped trailing empty field |
| RubyText.RubySplitOfJoin | lib/roda-route_parser.rb:20 | conversely, any `|`-free fields with a non-empty last one come back from splitting their join, with any number of trailing `|`s |
| RubyText.SplitOneMethod | lib/roda-route_parser.rb:20 | `GET` splits into `["GET"]` |
| RubyText.SplitTwoMethods | lib/roda-route_parser.rb:20 | `GET|POST` splits into `["GET", "POST"]` |
| RubyText.SplitKeepsInnerEmpty | lib/roda-route_parser.rb:20 | `GET||POST` splits into `["GET", "", "POST"]`: an inner empty field is kept |
| RubyText.SplitKeepsLeadingEmpty | lib/roda-route_parser.rb:20 | `|GET` splits into `["", "GET"]`: a leading empty field is kept |
| RubyText.SplitDropsTrailingEmpty | lib/roda-route_parser.rb:20 | `GET|` splits into `["GET"]`: a trailing empty field is dropped |
| RubyText.SplitLoneBar | lib/roda-route_parser.rb:20 | `|` splits into no fields, so the record's methods list is empty |
| RubyText.EachLine | lib/roda-route_parser.rb:7-14 | `each_line` on a string input; no contract of its own: `EachLineSpec` and `EachLineOfConcat` characterise it in both directions |
| RubyText.EachLineSpec | lib/roda-route_parser.rb:7-14 | the lines `each_line` yields concatenate back to the text; each is non-empty, has a line feed at most as its last character, and every line but the last ends in one |
| RubyText.EachLineOfConcat | lib/roda-route_parser.rb:7-14 | conversely, `each_line` gives back any such sequence of lines from their concatenation |
| RouteParser.MatchLine | lib/roda-route_parser.rb:13-27 | the pattern match of one line and the record built from its captures; no contract of its own: `MatchLineComplete`, `MatchLineSound` and `MatchLineIff` characterise it against the grammar of the pattern |
| RouteParser.MatchLineComplete | lib/roda-route_parser.rb:13-27 | every line of the grammar matches, and the record carries the grammar's path, methods split on `|`, and name |
| RouteParser.MatchLineSound | lib/roda-route_parser.rb:13-27 | every line the scanner accepts is a line of the grammar, and its record is the one the grammar's pieces determine |
| RouteParser.MatchLineIff | lib/roda-route_parser.rb:13-27 | a line yields record `r` if and only if it is a grammar line whose pieces determine `r` |
| RouteParser.PathIsLastToken | lib/roda-route_parser.rb:13-17 | a record's path is non-empty and free of whitespace; whitespace precedes it and only whitespace follows it on its line |
| RouteParser.NameAndMethods | lib/roda-route_parser.rb:13-25 | the name is present exactly when the `[name]` form is used, and is then a non-empty run of word characters; the methods are present exactly when a token of capitals and `|` precedes the path, and are that token split on `|` |
| RouteParser.LoneTokenIsPath | lib/roda-route_parser.rb:13 | a single token after the colon is always the path, with no methods, even if it is all capitals |
| RouteParser.TwoTokensNeedMethods | lib/roda-route_parser.rb:13 | two tokens after the colon yield no record unless the first is made of capitals and `|` only |
| RouteParser.AtLeastThreeTokens | lib/roda-route_parser.rb:13 | three or more tokens after the colon yield no record, whatever follows the third |
| RouteParser.NoSpaceAfterColon | lib/roda-route_parser.rb:13 | a colon not followed by whitespace yields no record |
| RouteParser.Parse | lib/roda-route_parser.rb:6-31 | `parse` returns the records of the matching lines of its input, in order; a string input is read through `each_line` |
| RouteParser.SomeIndicesSpec | lib/roda-route_parser.rb:14-28 | the positions of the matching lines, taken in increasing order, are exactly the positions where a line matches |
| RouteParser.ParseLines | lib/roda-route_parser.rb:12-31 | the records of a sequence of lines; no contract of its own: `ParseLinesFilter` and `ParseLinesAppend` characterise it, and `Parse` is proved to compute it |
| RouteParser.ParseLinesFilter | lib/roda-route_parser.rb:12-31 | there is one record per matching line, in line order: the k-th record is the match of the k-th matching line, and non-matching lines are skipped |
| RouteParser.ParseLinesAppend | lib/roda-route_parser.rb:14-29 | parsing two runs of lines one after the other gives the first run's records followed by the second's |
| RouteParser.TextAndStreamAgree | lib/roda-route_parser.rb:7-10 | passing a string gives the same records as passing the stream of its lines |
| RouteParserExamples.DocumentedPlainPath | spec/roda-route_list_spec.rb:44 | `# route: /foo` gives the record with path `/foo` only |
| RouteParserExamples.DocumentedNamedPath | spec/roda-route_list_spec.rb:45 | `# route[bar]: /foo/bar` gives path `/foo/bar`, name `bar` |
| RouteParserExamples.DocumentedMethodPath | spec/roda-route_list_spec.rb:46 | `# route: GET /foo/baz` gives path `/foo/baz`, methods `["GET"]` |
| RouteParserExamples.DocumentedFullForm | spec/roda-route_list_spec.rb:47 | `# route[quux]: GET|POST /foo/baz/quux/:quux_id` gives that path, methods `["GET", "POST"]`, name `quux` |
| RouteParserExamples.LoneCapitalTokenIsPath | lib/roda-route_parser.rb:13 | `# route: GET` gives path `GET` and no methods |
| RouteParserExamples.NoSpaceExample | lib/roda-route_parser.rb:13 | `# route:/foo` yields no record |
| RouteParserExamples.ThreeTokenExample | lib/roda-route_parser.rb:13 | `# route: GET /foo /bar` yields no record |
| PlaceholderScan.Pieces | lib/roda/plugins/route_list.rb:79 | the left-to-right scan `gsub` makes for `/:[^\/]+/`; no contract of its own: `PiecesRoundTrip` and `PiecesOfUnparse` prove it a bijection onto well-formed pieces |
| PlaceholderScan.PiecesRoundTrip | lib/roda/plugins/route_list.rb:79 | the scan loses nothing: its pieces give back the path. It yields placeholders with non-empty, `/`-free keys that end only at a `/` or the end of the path, and a literal `:` only where a `/` or the end follows |
| PlaceholderScan.PiecesOfUnparse | lib/roda/plugins/route_list.rb:79 | conversely, any pieces of that shape are what the scan makes of their text, so placeholders are maximal and non-overlapping |
| PlaceholderScan.ExpandWithMatches | lib/roda/plugins/route_list.rb:79-84 | filling every placeholder with its own matched text gives the path back: characters outside placeholders are never changed |
| PlaceholderScan.ExpandNoPlaceholders | lib/roda/plugins/route_list.rb:79-84 | a path without placeholders is its own expansion |
| PlaceholderScan.ExpandAppend | lib/roda/plugins/route_list.rb:79-91 | substitution works part by part: the values for one stretch of the path land there verbatim and are not scanned again |
| RouteList.FirstMissing | lib/roda/plugins/route_list.rb:79-82 | finds the first key the hash has no non-nil value for; every earlier key has one |
| RouteList.KeyedFill | lib/roda/plugins/route_list.rb:77-84 | the hash branch on the scanned path; no contract of its own: `KeyedFillSpec` characterises it against the reference substitution `Expand` |
| RouteList.KeyedFillSpec | lib/roda/plugins/route_list.rb:77-84 | the hash branch succeeds if and only if every placeholder's key has a value, and then replaces each placeholder by that value; otherwise it reports the first placeholder lacking one, colon included |
| RouteList.KeyedFillIgnoresOtherKeys | lib/roda/plugins/route_list.rb:79-82 | hash entries for keys the path does not mention never change the result |
| RouteList.PositionalFill | lib/roda/plugins/route_list.rb:86-96 | the array branch on the scanned path; no contract of its own: `PositionalFillSpec` characterises it against `Expand`, and `FillPositional` is proved to compute it |
| RouteList.PositionalFillSpec | lib/roda/plugins/route_list.rb:86-96 | the array branch succeeds if and only if there are exactly as many values as placeholders, and then the i-th placeholder becomes the i-th value. With too few values it reports the first placeholder left without one; with too many it reports that |
| RouteList.KeyedAsPositional | lib/roda/plugins/route_list.rb:77-96 | a hash that has every key fills the path as the array of its values would, taken in placeholder order |
| RouteList.Resolve | lib/roda/plugins/route_list.rb:71-101 | class-level `listed_route` against a names map; no contract of its own: `ResolveUnknown`, `ResolvePlain` and the two fill specifications characterise it |
| RouteList.ResolveUnknown | lib/roda/plugins/route_list.rb:72-74 | the unknown-route error is raised exactly for names missing from the names map, whatever the arguments |
| RouteList.ResolvePlain | lib/roda/plugins/route_list.rb:76-100 | without arguments the stored path comes back verbatim, placeholders included; a placeholder-free path comes back unchanged from any hash and from an empty array |
| RouteList.LoadedUnknown | lib/roda/plugins/route_list.rb:72-74 | after loading records, a name is unknown exactly when no loaded record carries it |
| RouteList.NameIndex | lib/roda/plugins/route_list.rb:107-122 | the names map `load_routes` builds; no contract of its own: `NameIndexDomain` and `NameIndexLast` characterise it |
| RouteList.NameIndexDomain | lib/roda/plugins/route_list.rb:107-122 | a name is in the names map exactly when some loaded record carries it |
| RouteList.NameIndexLast | lib/roda/plugins/route_list.rb:118-122 | the names map sends a name to the path of the last record carrying it |
| RouteList.RouteIndex.constructor | lib/roda/plugins/route_list.rb:107 | an index with no routes loaded holds an empty list and an empty names map, which satisfy the invariant that the map is the one the list determines |
| RouteList.RouteIndex.LoadRoutes | lib/roda/plugins/route_list.rb:106-130 | after loading, the route list holds the records in order, each keeping its path and having methods and name only if the record had them; the names map is rebuilt from the named records, so the invariant that the map is the one the list determines holds again |
| RouteList.RouteIndex.ListedRoute | lib/roda/plugins/route_list.rb:71-101 | class-level `listed_route` returns the resolution of the name and arguments against the names map, and changes neither the list nor the map; under the invariant this is the resolution against the map the route list determines |
| RouteList.FillPositional | lib/roda/plugins/route_list.rb:86-96 | shifting a copy of the caller's values once per placeholder while scanning the path gives the array branch's result |
| RouteList.InstanceListedRoute | lib/roda/plugins/route_list.rb:136-141 | the instance-level result succeeds exactly when the class-level one does; then it is the script name followed by the class-level path if `:add_script_name` is set, and the class-level path otherwise. Errors pass through unchanged |
| RouteListExamples.OnePlaceholderResolve | lib/roda/plugins/route_list.rb:76-96 | for a path that is a colon-free prefix plus one placeholder: a hash gives the prefix followed by the key's value, or the missing-value error; an array of one value gives the prefix followed by that value, and an empty or longer array gives the matching error |
| RouteListExamples.LoadedNames | spec/roda-route_list_spec.rb:42-48 | loading the tests' four records names `bar` and `quux` after their paths |
| RouteListExamples.ListedBar | spec/roda-route_list_spec.rb:58-59 | `listed_route(:bar)` is `/foo/bar` |
| RouteListExamples.ListedQuux | spec/roda-route_list_spec.rb:60 | `listed_route(:quux)` is `/foo/baz/quux/:quux_id`, placeholder kept |
| RouteListExamples.ListedQuuxFromHash | spec/roda-route_list_spec.rb:63-65 | `listed_route(:quux, :quux_id=>3)` is `/foo/baz/quux/3` |
| RouteListExamples.ListedQuuxFromArray | spec/roda-route_list_spec.rb:67-69 | `listed_route(:quux, [3])` is `/foo/baz/quux/3` |
| RouteListExamples.ListedUnknown | spec/roda-route_list_spec.rb:71-73 | `listed_route(:foo)` is the unknown-route error |
| RouteListExamples.ListedQuuxEmptyHash | spec/roda-route_list_spec.rb:75-77 | `listed_route(:quux, {})` is the missing-value error for `:quux_id` |
| RouteListExamples.ListedQuuxEmptyArray | spec/roda-route_list_spec.rb:79-81 | `listed_route(:quux, [])` is the not-enough-values error for `:quux_id` |
| RouteListExamples.ListedQuuxTwoValues | spec/roda-route_list_spec.rb:83-85 | `listed_route(:quux, [3, 1])` is the too-many-values error |
| RouteListExamples.InstanceBar | spec/roda-route_list_spec.rb:92-100 | the instance-level `listed_route(:bar)` is `/foo/bar`, or `/a/foo/bar` when `:add_script_name` is set and the script name is `/a` |

## Left out

- File and JSON input are not modelled. This covers `File.expand_path` in
  `configure`, `File.read` and `JSON.parse` in `load_routes`, and the
  `:file` and `:root` options. `LoadRoutes` takes the already decoded
  records. A decoded entry is a `Route`, so malformed entries (no path,
  methods that are not a list) are outside the model.
- `StringIO` is not modelled. A string input is cut into lines by the
  modelled `each_line`.
- The Roda framework glue is not modelled: `register_plugin`, the
  `RodaError` class, and reading `request.script_name` and
  `app.opts[:add_script_name]`. The script name and the flag are
  parameters, and errors are `RouteError` values carrying the route name
  and the matched placeholder rather than message strings.
- Symbols are not modelled. Names, hash keys and methods are strings, so
  `to_sym` is the identity.
- `freeze` is not modelled as such. The stored list and map are values, and
  `ListedRoute` has no `modifies` clause, so nothing after loading changes
  them.
- Arguments that are neither a hash nor an array are not modelled. Ruby
  sends them down the array branch, which calls `empty?` and `shift` on a
  copy of them. Most objects raise `NoMethodError` at `empty?`. A string
  can also end in the not-enough error (an empty string and a placeholder),
  the too-many error (a non-empty string and no placeholder) or the path
  itself (an empty string and no placeholder), and otherwise fails at
  `shift`.
- RouteList.FillPositional: values are strings. Ruby converts each value
  with `to_s`, so an integer `3` arrives here as `"3"`. A `nil` array
  element, which Ruby would turn into an empty string, has no counterpart.
- The `bin/roda-parse_routes` executable and its JSON output are not part
  of this model.
- Only the two fixed patterns are reproduced, by hand-written scanners; no
  general regular-expression engine is modelled.
- Strings are sequences of characters. Source encodings and invalid byte
  sequences are not modelled.
- The plugin's documentation describes a methods list as one or more
  methods. The code splits the methods token with `split('|')`, so a lone
  `|` gives an empty list (`RubyText.SplitLoneBar`). The model follows the
  code.
