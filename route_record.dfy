/** A route record: the unit the annotation scraper emits and the route list
    loads.  `methods` and `name` are absent unless the annotation (or the
    loaded entry) carries them. */
module RouteRecord {
  import opened Wrappers

  datatype Route = Route(path: string, methods: Option<seq<string>>, name: Option<string>)
}
