/** The gateway's route table as its HTTP framework (Starlette, under FastAPI) walks it: a list
    of routes tried in registration order, each one a path pattern, the methods it accepts and
    the endpoint that answers it. Only the two kinds of pattern the gateway registers are
    understood: a literal path, and a literal head followed by one trailing `path` parameter
    (which may be empty and may contain slashes). */
module Routing {
  import opened Wrappers
  import opened Text

  /** What answers a matched request: one of the gateway's own pages, the static-file mount,
      or the proxy to a table service (at its root, or below it). */
  datatype Endpoint =
    | Page
    | StaticFiles
    | ProxyRoot(service: string)
    | ProxyPath(service: string)

  /** A registered route. The static-file mount answers every method, so its `methods` is
      unused. */
  datatype Route = Route(path: string, methods: seq<string>, name: string, endpoint: Endpoint)

  /** The trailing parameter of a proxy wildcard route. */
  const RestParam: string := "/{rest:path}"

  /** The trailing parameter a mount adds to its own path. */
  const MountParam: string := "/{path:path}"

  /** The pattern a route's path is compiled from: a mount matches everything below its path. */
  function Pattern(r: Route): string {
    if r.endpoint.StaticFiles? then r.path + MountParam else r.path
  }

  /** The literal head of a pattern that ends with a `path` parameter. */
  function ParamHead(pattern: string): (head: Option<string>)
    ensures head.Some? ==> |head.value| < |pattern| && pattern[..|head.value|] == head.value
  {
    if EndsWith(pattern, RestParam) then Some(pattern[..|pattern| - |RestParam|])
    else if EndsWith(pattern, MountParam) then Some(pattern[..|pattern| - |MountParam|])
    else None
  }

  /** Matches a request path against a route's pattern. `Some(binding)` when it matches, where
      `binding` is the value of the trailing parameter (`None` for a literal pattern). */
  function Match(r: Route, path: string): Option<Option<string>> {
    match ParamHead(Pattern(r))
    case Some(head) =>
      if StartsWith(path, head + "/") then Some(Some(path[|head| + 1..])) else None
    case None =>
      if path == Pattern(r) then Some(None) else None
  }

  /** Whether a route answers a method (a full match, once the path matches). */
  predicate Accepts(r: Route, verb: string) {
    r.endpoint.StaticFiles? || verb in r.methods
  }

  /** The first route that matches both path and method, with its binding. */
  function FirstFull(routes: seq<Route>, verb: string, path: string): (f: Option<(Route, Option<string>)>)
    ensures f.Some? ==> f.value.0 in routes && Accepts(f.value.0, verb) && Match(f.value.0, path) == Some(f.value.1)
    ensures f.None? <==> forall r :: r in routes ==> !(Accepts(r, verb) && Match(r, path).Some?)
  {
    if routes == [] then None
    else if Accepts(routes[0], verb) && Match(routes[0], path).Some? then
      Some((routes[0], Match(routes[0], path).value))
    else
      FirstFull(routes[1..], verb, path)
  }

  /** The first route whose pattern matches the path, whatever its methods. */
  function FirstPartial(routes: seq<Route>, path: string): (f: Option<Route>)
    ensures f.Some? ==> f.value in routes && Match(f.value, path).Some?
    ensures f.None? <==> forall r :: r in routes ==> Match(r, path).None?
  {
    if routes == [] then None
    else if Match(routes[0], path).Some? then Some(routes[0])
    else FirstPartial(routes[1..], path)
  }

  /** Python's `path.rstrip("/")`: the path without its trailing slashes, all of them. */
  function StripSlashes(path: string): (r: string)
    ensures r <= path
    ensures r == [] || r[|r| - 1] != '/'
    ensures forall i :: |r| <= i < |path| ==> path[i] == '/'
  {
    if path != [] && path[|path| - 1] == '/' then StripSlashes(path[..|path| - 1]) else path
  }

  /** The path the router tries when nothing matches: without its trailing slashes when it has
      any, with one added otherwise. */
  function ToggleSlash(path: string): string {
    if EndsWith(path, "/") then StripSlashes(path) else path + "/"
  }

  datatype Outcome =
    | Handled(route: Route, binding: Option<string>)
    | MethodNotAllowed(route: Route)
    | Redirect(location: string)
    | NotFound

  /** How the router answers a request: the first route matching path and method handles it;
      failing that, a route matching the path alone answers 405; failing that, a path that
      would match with its trailing slash toggled is redirected there; otherwise 404. */
  function Dispatch(routes: seq<Route>, verb: string, path: string): (o: Outcome)
    ensures o.Handled? <==> exists r :: r in routes && Accepts(r, verb) && Match(r, path).Some?
    ensures o.Handled? ==> o.route in routes && Accepts(o.route, verb) && Match(o.route, path) == Some(o.binding)
    ensures o.MethodNotAllowed? ==> o.route in routes && Match(o.route, path).Some? && !Accepts(o.route, verb)
    ensures o.Redirect? || o.NotFound? <==> forall r :: r in routes ==> Match(r, path).None?
    ensures o.Redirect? ==> o.location == ToggleSlash(path) && path != "/"
    ensures o.Redirect? ==> exists r :: r in routes && Match(r, ToggleSlash(path)).Some?
  {
    match FirstFull(routes, verb, path)
    case Some((r, b)) => Handled(r, b)
    case None =>
      match FirstPartial(routes, path)
      case Some(r) => MethodNotAllowed(r)
      case None =>
        if path != "/" && FirstPartial(routes, ToggleSlash(path)).Some? then Redirect(ToggleSlash(path))
        else NotFound
  }

  /** No route before index `i` matches both path and method. */
  predicate NoFullMatchBefore(routes: seq<Route>, i: int, verb: string, path: string)
    requires 0 <= i <= |routes|
  {
    forall j :: 0 <= j < i ==> !(Accepts(routes[j], verb) && Match(routes[j], path).Some?)
  }

  /** A route that does not match in front of a stretch without full matches extends it. */
  lemma NoFullMatchShift(routes: seq<Route>, k: nat, verb: string, path: string)
    requires k < |routes| - 1
    requires !(Accepts(routes[0], verb) && Match(routes[0], path).Some?)
    requires NoFullMatchBefore(routes[1..], k, verb, path)
    ensures NoFullMatchBefore(routes, k + 1, verb, path)
  {
    forall j | 0 < j < k + 1
      ensures !(Accepts(routes[j], verb) && Match(routes[j], path).Some?)
    {
      assert routes[j] == routes[1..][j - 1];
    }
  }

  /** The first full match is at the earliest index that matches both path and method. */
  lemma {:induction false} FirstFullIndex(routes: seq<Route>, verb: string, path: string) returns (i: nat)
    requires FirstFull(routes, verb, path).Some?
    ensures i < |routes| && routes[i] == FirstFull(routes, verb, path).value.0
    ensures NoFullMatchBefore(routes, i, verb, path)
  {
    if Accepts(routes[0], verb) && Match(routes[0], path).Some? {
      i := 0;
    } else {
      var k := FirstFullIndex(routes[1..], verb, path);
      i := k + 1;
      NoFullMatchShift(routes, k, verb, path);
    }
  }

  /** The route that handles a request is the earliest one matching path and method. */
  lemma HandledByEarliest(routes: seq<Route>, verb: string, path: string) returns (i: nat)
    requires Dispatch(routes, verb, path).Handled?
    ensures i < |routes| && routes[i] == Dispatch(routes, verb, path).route
    ensures NoFullMatchBefore(routes, i, verb, path)
  {
    i := FirstFullIndex(routes, verb, path);
  }

  /** Routes in front that do not match a path leave the first full match of that path as
      it is. */
  lemma {:induction false} SkipUnmatchedFull(front: seq<Route>, back: seq<Route>, verb: string, path: string)
    requires forall r :: r in front ==> Match(r, path).None?
    ensures FirstFull(front + back, verb, path) == FirstFull(back, verb, path)
  {
    if front == [] {
      assert front + back == back;
    } else {
      var all := front + back;
      assert all[1..] == front[1..] + back;
      assert Match(all[0], path).None? by { assert all[0] in front; }
      calc {
        FirstFull(all, verb, path);
        FirstFull(front[1..] + back, verb, path);
        { SkipUnmatchedFull(front[1..], back, verb, path); }
        FirstFull(back, verb, path);
      }
    }
  }

  /** Routes in front that do not match a path leave the first partial match of that path as
      it is. */
  lemma {:induction false} SkipUnmatchedPartial(front: seq<Route>, back: seq<Route>, path: string)
    requires forall r :: r in front ==> Match(r, path).None?
    ensures FirstPartial(front + back, path) == FirstPartial(back, path)
  {
    if front == [] {
      assert front + back == back;
    } else {
      var all := front + back;
      assert all[1..] == front[1..] + back;
      assert Match(all[0], path).None? by { assert all[0] in front; }
      calc {
        FirstPartial(all, path);
        FirstPartial(front[1..] + back, path);
        { SkipUnmatchedPartial(front[1..], back, path); }
        FirstPartial(back, path);
      }
    }
  }

  /** Routes in front that match neither the path nor its toggled form do not change how a
      request is answered. */
  lemma UnmatchedPrefix(front: seq<Route>, back: seq<Route>, verb: string, path: string)
    requires forall r :: r in front ==> Match(r, path).None? && Match(r, ToggleSlash(path)).None?
    ensures Dispatch(front + back, verb, path) == Dispatch(back, verb, path)
  {
    SkipUnmatchedFull(front, back, verb, path);
    SkipUnmatchedPartial(front, back, path);
    SkipUnmatchedPartial(front, back, ToggleSlash(path));
  }

  /** When every route of the list that matches a path is one and the same route, that route
      answers the request: it handles it if it accepts the method and otherwise it is the
      route that refuses the method. */
  lemma {:induction false} SoleMatch(routes: seq<Route>, r: Route, verb: string, path: string)
    requires r in routes && Match(r, path).Some?
    requires forall q :: q in routes && Match(q, path).Some? ==> q == r
    ensures FirstFull(routes, verb, path) == if Accepts(r, verb) then Some((r, Match(r, path).value)) else None
    ensures FirstPartial(routes, path) == Some(r)
  {
    if routes[0] != r {
      assert r in routes[1..];
      SoleMatch(routes[1..], r, verb, path);
    }
  }
}
