/** Express routing as the routers use it: a table of routes tried in
    registration order, each a verb and a path pattern of literal segments
    and `:name` parameters. Literal segments match without regard to
    (ASCII) case, a parameter matches any non-empty segment, and the first
    route that matches handles the request. */
module Routing {
  import opened Common
  import opened Text
  import opened Query

  datatype Verb = Get | Post | Put | Delete

  datatype Segment = Lit(text: string) | Param(name: string)

  datatype Route<H> = Route(verb: Verb, pattern: seq<Segment>, handler: H)

  predicate SegmentMatches(p: Segment, s: string) {
    match p
    case Lit(t) => Lower(s) == Lower(t)
    case Param(_) => s != []
  }

  /** The route matches the verb and every segment of the path (the path
      is given relative to the router's mount point, split at `/`). */
  predicate Matches<H>(r: Route<H>, verb: Verb, path: seq<string>) {
    && r.verb == verb
    && |r.pattern| == |path|
    && forall i :: 0 <= i < |path| ==> SegmentMatches(r.pattern[i], path[i])
  }

  /** The position of the route that handles the request, if any. */
  function Dispatch<H>(table: seq<Route<H>>, verb: Verb, path: seq<string>): (r: Option<nat>)
    ensures r.Some? ==> r.value < |table| && Matches(table[r.value], verb, path)
    ensures r.Some? ==> forall j :: 0 <= j < r.value ==> !Matches(table[j], verb, path)
    ensures r.None? <==> forall j :: 0 <= j < |table| ==> !Matches(table[j], verb, path)
  {
    FirstIndex(table, (rt: Route<H>) => Matches(rt, verb, path))
  }

  /** The handler that answers, if any. */
  function Handler<H>(table: seq<Route<H>>, verb: Verb, path: seq<string>): (h: Option<H>)
    ensures h.Some? <==> Dispatch(table, verb, path).Some?
    ensures h.Some? ==> h.value == table[Dispatch(table, verb, path).value].handler
  {
    match Dispatch(table, verb, path)
    case Some(i) => Some(table[i].handler)
    case None => None
  }

  /** A route that matches wins when no earlier route does. */
  lemma FirstMatchWins<H>(table: seq<Route<H>>, verb: Verb, path: seq<string>, k: nat)
    requires k < |table| && Matches(table[k], verb, path)
    requires forall j :: 0 <= j < k ==> !Matches(table[j], verb, path)
    ensures Dispatch(table, verb, path) == Some(k)
  {
  }
}
