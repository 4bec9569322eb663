/** The gateway's reverse-proxy routing (api/hmi_api/main.py): at startup, two routes per
    table service that forward every request under `/<service>` to that service, behind the
    gateway's own pages. The forwarding itself (the HTTP call to the service) is the
    `proxy_to_table` collaborator and is not part of this model; what is modelled is which
    route answers a request and which service path it forwards to. */
module Proxy {
  import opened Wrappers
  import opened Text
  import opened Routing

  /** The methods both proxy routes of a service accept. */
  const ProxyMethods: seq<string> := ["GET", "POST", "PUT", "PATCH", "DELETE"]

  /** The path a proxied request is forwarded to: the service's root, followed by `/` and the
      remainder when a remainder was matched and is not empty. */
  function TargetPath(service: string, rest: Option<string>): (p: string)
    ensures StartsWith(p, "/" + service)
    ensures NonEmpty(rest).None? <==> |p| == |service| + 1
  {
    "/" + service + (if rest.Some? && rest.value != "" then "/" + rest.value else "")
  }

  /** A service name that is one path segment and holds no route-parameter brace. */
  predicate PlainName(s: string) {
    s != "" && '/' !in s && '{' !in s
  }

  predicate AllPlain(services: seq<string>) {
    forall i :: 0 <= i < |services| ==> PlainName(services[i])
  }

  /** The index of the first `/` in `s`, or `|s|` when there is none. */
  function SlashIndex(s: string): (k: nat)
    ensures k <= |s| && (k < |s| ==> s[k] == '/')
    ensures forall i :: 0 <= i < k ==> s[i] != '/'
  {
    if s == [] then 0 else if s[0] == '/' then 0 else 1 + SlashIndex(s[1..])
  }

  /** Reads a service path back as the service it addresses and the remainder below it. */
  function SplitTarget(path: string): Option<(string, Option<string>)> {
    if path == [] || path[0] != '/' then None
    else
      var tail := path[1..];
      var k := SlashIndex(tail);
      if k == |tail| then Some((tail, None)) else Some((tail[..k], Some(tail[k + 1..])))
  }

  /** The remainder as the forwarding sees it: an empty remainder counts as none. */
  function NonEmpty(rest: Option<string>): Option<string> {
    if rest.Some? && rest.value != "" then rest else None
  }

  /** The service and the remainder can be read back from the path a request is forwarded to. */
  lemma TargetPathSplits(service: string, rest: Option<string>)
    requires PlainName(service)
    ensures SplitTarget(TargetPath(service, rest)) == Some((service, NonEmpty(rest)))
  {
    var path := TargetPath(service, rest);
    var tail := path[1..];
    assert tail[..|service|] == service;
    assert forall i :: 0 <= i < |service| ==> tail[i] == service[i] && tail[i] != '/';
    if NonEmpty(rest).Some? {
      assert tail == service + "/" + rest.value;
      assert tail[|service|] == '/';
      assert SlashIndex(tail) == |service|;
      assert tail[|service| + 1..] == rest.value;
    } else {
      assert tail == service;
    }
  }

  /** The route for requests to the service's root. */
  function RootRoute(svc: string): Route {
    Route("/" + svc, ProxyMethods, "proxy_" + svc, ProxyRoot(svc))
  }

  /** The route for requests below the service's root. */
  function PathRoute(svc: string): Route {
    Route("/" + svc + RestParam, ProxyMethods, "proxy_" + svc + "_path", ProxyPath(svc))
  }

  /** The routes registered for the services, in registration order. */
  function ProxyRoutes(services: seq<string>): seq<Route> {
    if services == [] then []
    else
      var svc := services[|services| - 1];
      ProxyRoutes(services[..|services| - 1]) + [RootRoute(svc), PathRoute(svc)]
  }

  /** The gateway's own routes, registered before the proxy routes: the static-file mount,
      then the pages in the order they are declared. */
  const GatewayRoutes: seq<Route> := [
    Route("/static", [], "static", StaticFiles),
    Route("/", ["GET"], "root", Page),
    PageRoute("swagger", "swagger_alias"),
    PageRoute("docs", "docs_redirect"),
    PageRoute("feature-usage", "feature_usage"),
    PageRoute("health", "health"),
    PageRoute("info", "service_info"),
    PageRoute("openapi.json", "openapi_aggregated")
  ]

  /** One of the gateway's own GET pages at `/<segment>`, named after its handler. */
  function PageRoute(segment: string, handler: string): Route {
    Route("/" + segment, ["GET"], handler, Page)
  }

  /** Service names whose paths the gateway's own routes take first. */
  const Reserved: set<string> := {"static", "swagger", "docs", "feature-usage", "health", "info", "openapi.json"}

  /** The route table once the gateway has started. */
  function AppRoutes(services: seq<string>): seq<Route> {
    GatewayRoutes + ProxyRoutes(services)
  }

  /** The application's route table, which registration appends to. */
  class Gateway {
    var routes: seq<Route>

    /** The application with its own routes declared. */
    constructor ()
      ensures routes == GatewayRoutes
    {
      routes := GatewayRoutes;
    }

    /** `app.add_api_route`. */
    method AddApiRoute(path: string, endpoint: Endpoint, methods: seq<string>, name: string)
      modifies this
      ensures routes == old(routes) + [Route(path, methods, name, endpoint)]
    {
      routes := routes + [Route(path, methods, name, endpoint)];
    }

    /** `_register_proxy_routes`: the root route and the wildcard route of every service, in
        the order of the services. */
    method RegisterProxyRoutes(services: seq<string>)
      modifies this
      ensures routes == old(routes) + ProxyRoutes(services)
    {
      for i := 0 to |services|
        invariant routes == old(routes) + ProxyRoutes(services[..i])
      {
        var svc := services[i];
        AddApiRoute("/" + svc, ProxyRoot(svc), ProxyMethods, "proxy_" + svc);
        AddApiRoute("/" + svc + "/{rest:path}", ProxyPath(svc), ProxyMethods, "proxy_" + svc + "_path");
        assert services[..i + 1][..i] == services[..i];
      }
      assert services[..|services|] == services;
    }
  }

  /** Importing the gateway module: the own routes, then the proxy routes. */
  method Startup(services: seq<string>) returns (app: Gateway)
    ensures fresh(app) && app.routes == AppRoutes(services)
  {
    app := new Gateway();
    app.RegisterProxyRoutes(services);
  }

  /** Where a request is forwarded: the service and the path, when a proxy route handles it. */
  datatype Forward = Forward(service: string, path: string)

  function Forwarded(o: Outcome): (f: Option<Forward>)
    ensures f.Some? <==> o.Handled? && (o.route.endpoint.ProxyRoot? || o.route.endpoint.ProxyPath?)
    ensures f.Some? ==> f.value.service == o.route.endpoint.service
    ensures f.Some? && o.route.endpoint.ProxyRoot? ==> f.value.path == "/" + o.route.endpoint.service
    ensures f.Some? && o.route.endpoint.ProxyPath? ==> f.value.path == TargetPath(o.route.endpoint.service, o.binding)
  {
    if o.Handled? then
      match o.route.endpoint
      case ProxyRoot(svc) => Some(Forward(svc, TargetPath(svc, None)))
      case ProxyPath(svc) => Some(Forward(svc, TargetPath(svc, o.binding)))
      case _ => None
    else None
  }

  /** The routes of the services come in pairs: the root route and then the wildcard route of
      each service, in the order of the services. */
  lemma {:induction false} ProxyRoutesLayout(services: seq<string>)
    ensures |ProxyRoutes(services)| == 2 * |services|
    ensures forall i :: 0 <= i < |services| ==>
      ProxyRoutes(services)[2 * i] == RootRoute(services[i]) &&
      ProxyRoutes(services)[2 * i + 1] == PathRoute(services[i])
  {
    if services != [] {
      var init := services[..|services| - 1];
      ProxyRoutesLayout(init);
      forall i | 0 <= i < |init|
        ensures services[i] == init[i]
      {
      }
    }
  }

  /** Every proxy route belongs to one of the services. */
  lemma {:induction false} ProxyRouteOfService(services: seq<string>, r: Route)
    requires r in ProxyRoutes(services)
    ensures exists i :: 0 <= i < |services| && (r == RootRoute(services[i]) || r == PathRoute(services[i]))
  {
    var init := services[..|services| - 1];
    if r in ProxyRoutes(init) {
      ProxyRouteOfService(init, r);
      var i :| 0 <= i < |init| && (r == RootRoute(init[i]) || r == PathRoute(init[i]));
      assert services[i] == init[i];
    } else {
      assert services[|services| - 1] == services[|init|];
    }
  }

  /** A root route matches exactly its own path. */
  lemma MatchRoot(svc: string, path: string)
    requires PlainName(svc)
    ensures Match(RootRoute(svc), path) == if path == "/" + svc then Some(None) else None
  {
    LiteralPattern(svc);
  }

  /** A pattern `/<plain name>` ends with no parameter. */
  lemma LiteralPattern(svc: string)
    requires PlainName(svc)
    ensures ParamHead("/" + svc) == None
  {
    var p := "/" + svc;
    if |RestParam| <= |p| {
      var n := |p| - |RestParam|;
      if n == 0 {
        assert svc[0] in svc;
        assert p[n..][1] == svc[0];
      } else {
        assert svc[n - 1] in svc;
        assert p[n..][0] == svc[n - 1];
      }
    }
  }

  /** A wildcard route matches every path continuing `/<service>/`, binding what follows. */
  lemma MatchPath(svc: string, path: string)
    ensures Match(PathRoute(svc), path) ==
      if StartsWith(path, "/" + svc + "/") then Some(Some(path[|svc| + 2..])) else None
  {
    var p := "/" + svc + RestParam;
    assert EndsWith(p, RestParam);
    assert p[..|p| - |RestParam|] == "/" + svc;
  }

  /** A path below `/<a>/` is neither `/<b>` nor below `/<b>/`, unless `a` and `b` are the same
      name. */
  lemma SegmentsAgree(a: string, b: string, path: string)
    requires PlainName(a) && PlainName(b)
    requires StartsWith(path, "/" + a + "/")
    ensures path != "/" + b
    ensures StartsWith(path, "/" + b + "/") ==> a == b
  {
    assert path[|a| + 1] == '/';
    assert forall i :: 0 <= i < |a| ==> path[i + 1] == a[i];
    if StartsWith(path, "/" + b + "/") {
      assert forall i :: 0 <= i < |b| ==> path[i + 1] == b[i];
      assert path[|b| + 1] == '/';
      if |a| == |b| {
        assert a == path[1..|a| + 1] == b;
      }
    }
  }

  /** A route whose pattern is `/<plain name>` matches exactly that path. */
  lemma MatchLiteral(r: Route, name: string, path: string)
    requires PlainName(name) && r.path == "/" + name && !r.endpoint.StaticFiles?
    ensures Match(r, path) == if path == "/" + name then Some(None) else None
  {
    LiteralPattern(name);
  }

  /** A proxy route that matches a path is the root route of a service whose path it is, or
      the wildcard route of a service the path lies below. */
  lemma ProxyMatch(services: seq<string>, r: Route, path: string) returns (x: string)
    requires AllPlain(services)
    requires r in ProxyRoutes(services) && Match(r, path).Some?
    ensures x in services && PlainName(x)
    ensures (r == RootRoute(x) && path == "/" + x) || (r == PathRoute(x) && StartsWith(path, "/" + x + "/"))
  {
    ProxyRouteOfService(services, r);
    var i :| 0 <= i < |services| && (r == RootRoute(services[i]) || r == PathRoute(services[i]));
    x := services[i];
    if r == RootRoute(x) {
      MatchRoot(x, path);
    } else {
      MatchPath(x, path);
    }
  }

  /** Two proxy routes that match the same path are the same route. */
  lemma ProxyRoutesDisjoint(services: seq<string>, r1: Route, r2: Route, path: string)
    requires AllPlain(services)
    requires r1 in ProxyRoutes(services) && r2 in ProxyRoutes(services)
    requires Match(r1, path).Some? && Match(r2, path).Some?
    ensures r1 == r2
  {
    var a := ProxyMatch(services, r1, path);
    var b := ProxyMatch(services, r2, path);
    if r1 == PathRoute(a) {
      SegmentsAgree(a, b, path);
    } else if r2 == PathRoute(b) {
      SegmentsAgree(b, a, path);
    } else {
      assert a == path[1..] == b;
    }
  }

  /** The request path of a service's root (no remainder) or of a path below it. */
  function RequestPath(svc: string, rest: Option<string>): string {
    if rest.None? then "/" + svc else "/" + svc + "/" + rest.value
  }

  /** The proxy route meant to answer such a request. */
  function RouteFor(svc: string, rest: Option<string>): Route {
    if rest.None? then RootRoute(svc) else PathRoute(svc)
  }

  /** The meant proxy route matches the request path, binding the remainder. */
  lemma RouteForMatches(svc: string, rest: Option<string>)
    requires PlainName(svc)
    ensures Match(RouteFor(svc, rest), RequestPath(svc, rest)) == Some(rest)
  {
    var path := RequestPath(svc, rest);
    if rest.None? {
      MatchRoot(svc, path);
    } else {
      MatchPath(svc, path);
      assert path[..|svc| + 2] == "/" + svc + "/";
      assert path[|svc| + 2..] == rest.value;
    }
  }

  /** A page at `/<name>` does not match the root of another service or any path below it. */
  lemma PageMiss(name: string, handler: string, svc: string, path: string)
    requires PlainName(name) && PlainName(svc) && svc != name
    requires path == "/" + svc || StartsWith(path, "/" + svc + "/")
    ensures Match(PageRoute(name, handler), path).None?
  {
    MatchLiteral(PageRoute(name, handler), name, path);
    if path != "/" + svc {
      SegmentsAgree(svc, name, path);
    } else {
      assert path[1..] == svc;
    }
  }

  /** The static-file mount does not match the root of another service or any path below it. */
  lemma MountMiss(svc: string, path: string)
    requires PlainName(svc) && svc != "static"
    requires path == "/" + svc || StartsWith(path, "/" + svc + "/")
    ensures Match(GatewayRoutes[0], path).None?
  {
    assert ParamHead(Pattern(GatewayRoutes[0])) == Some("/static");
    assert PlainName("static") && "/static/" == "/" + "static" + "/";
    if StartsWith(path, "/static/") {
      SegmentsAgree("static", svc, path);
    }
  }

  /** A path that is `/<svc>` or below `/<svc>/` for a name the gateway does not reserve for
      itself does not match the gateway's own route at index `k`. */
  lemma OwnRouteMiss(k: int, svc: string, path: string)
    requires 0 <= k < |GatewayRoutes|
    requires PlainName(svc) && svc !in Reserved
    requires path == "/" + svc || StartsWith(path, "/" + svc + "/")
    ensures Match(GatewayRoutes[k], path).None?
  {
    if k == 0 {
      MountMiss(svc, path);
    } else if k == 1 {
      assert ParamHead("/") == None;
    } else {
      OwnPageMiss(k, svc, path);
    }
  }

  /** The same for the gateway's pages at `/<segment>`. */
  lemma OwnPageMiss(k: int, svc: string, path: string)
    requires 2 <= k < |GatewayRoutes|
    requires PlainName(svc) && svc !in Reserved
    requires path == "/" + svc || StartsWith(path, "/" + svc + "/")
    ensures Match(GatewayRoutes[k], path).None?
  {
    if k == 2 {
      assert PlainName("swagger");
      PageMiss("swagger", "swagger_alias", svc, path);
    } else if k == 3 {
      assert PlainName("docs");
      PageMiss("docs", "docs_redirect", svc, path);
    } else if k == 4 {
      assert PlainName("feature-usage");
      PageMiss("feature-usage", "feature_usage", svc, path);
    } else if k == 5 {
      assert PlainName("health");
      PageMiss("health", "health", svc, path);
    } else if k == 6 {
      assert PlainName("info");
      PageMiss("info", "service_info", svc, path);
    } else {
      assert PlainName("openapi.json");
      PageMiss("openapi.json", "openapi_aggregated", svc, path);
    }
  }

  /** No route of the gateway's own matches such a path. */
  lemma OwnRoutesMiss(svc: string, path: string)
    requires PlainName(svc) && svc !in Reserved
    requires path == "/" + svc || StartsWith(path, "/" + svc + "/")
    ensures forall r :: r in GatewayRoutes ==> Match(r, path).None?
  {
    forall r | r in GatewayRoutes
      ensures Match(r, path).None?
    {
      var k :| 0 <= k < |GatewayRoutes| && GatewayRoutes[k] == r;
      OwnRouteMiss(k, svc, path);
    }
  }

  /** Every proxy route that matches a request path of a known service is the route meant for
      it. */
  lemma OnlyMeantRouteMatches(services: seq<string>, svc: string, rest: Option<string>, r: Route)
    requires AllPlain(services) && PlainName(svc)
    requires r in ProxyRoutes(services) && Match(r, RequestPath(svc, rest)).Some?
    ensures r == RouteFor(svc, rest)
  {
    var path := RequestPath(svc, rest);
    var x := ProxyMatch(services, r, path);
    if rest.Some? {
      assert StartsWith(path, "/" + svc + "/");
      SegmentsAgree(svc, x, path);
    } else if r == PathRoute(x) {
      SegmentsAgree(x, svc, path);
    } else {
      assert x == path[1..] == svc;
    }
  }

  /** A request to `/<svc>` or to `/<svc>/<rest>` for a registered service the gateway does
      not reserve is answered by that service's proxy route, binding the remainder, when the
      method is one of the proxy methods, and refused with 405 otherwise. */
  lemma ProxyReachable(services: seq<string>, svc: string, verb: string, rest: Option<string>)
    requires AllPlain(services) && svc in services && svc !in Reserved
    ensures Dispatch(AppRoutes(services), verb, RequestPath(svc, rest)) ==
      if verb in ProxyMethods then Handled(RouteFor(svc, rest), rest) else MethodNotAllowed(RouteFor(svc, rest))
  {
    var path := RequestPath(svc, rest);
    var meant := RouteFor(svc, rest);
    var routes := ProxyRoutes(services);
    var i :| 0 <= i < |services| && services[i] == svc;
    ProxyRoutesLayout(services);
    assert meant == routes[2 * i] || meant == routes[2 * i + 1];
    RouteForMatches(svc, rest);
    forall r | r in routes && Match(r, path).Some?
      ensures r == meant
    {
      OnlyMeantRouteMatches(services, svc, rest, r);
    }
    SoleMatch(routes, meant, verb, path);
    if rest.Some? {
      assert StartsWith(path, "/" + svc + "/");
    }
    OwnRoutesMiss(svc, path);
    SkipUnmatchedFull(GatewayRoutes, routes, verb, path);
    SkipUnmatchedPartial(GatewayRoutes, routes, path);
  }

  /** A route of the table with a proxy endpoint is one of the proxy routes. */
  lemma ProxyEndpointIsProxyRoute(services: seq<string>, r: Route)
    requires r in AppRoutes(services)
    requires r.endpoint.ProxyRoot? || r.endpoint.ProxyPath?
    ensures r in ProxyRoutes(services)
  {
  }

  /** A proxy route of the table that matches a path forwards it to its service, at the same
      path, except that `/<svc>/` goes to `/<svc>`. */
  lemma ForwardedByRoute(services: seq<string>, r: Route, b: Option<string>, path: string)
    requires AllPlain(services)
    requires r in ProxyRoutes(services) && Match(r, path) == Some(b)
    ensures Forwarded(Handled(r, b)).Some?
    ensures Forwarded(Handled(r, b)).value.service in services
    ensures Forwarded(Handled(r, b)).value.path == path || path == Forwarded(Handled(r, b)).value.path + "/"
  {
    var x := ProxyMatch(services, r, path);
    if r == PathRoute(x) {
      ForwardedBelow(x, path);
    } else {
      MatchRoot(x, path);
      assert TargetPath(x, None) == "/" + x;
    }
  }

  /** The wildcard route forwards a path below `/<x>/` to itself, or `/<x>/` to `/<x>`. */
  lemma ForwardedBelow(x: string, path: string)
    requires StartsWith(path, "/" + x + "/")
    ensures var f := Forwarded(Handled(PathRoute(x), Match(PathRoute(x), path).value)).value;
      f.service == x && (f.path == path || path == f.path + "/")
  {
    MatchPath(x, path);
    var rest := path[|x| + 2..];
    assert path == "/" + x + "/" + rest;
    assert TargetPath(x, Some(rest)) == if rest == "" then "/" + x else path;
  }

  /** Whatever request a proxy route handles is forwarded to one of the services, at the very
      path it was made to, except that a request to `/<svc>/` goes to `/<svc>`. */
  lemma ForwardedIsRequestPath(services: seq<string>, verb: string, path: string)
    requires AllPlain(services)
    ensures var o := Dispatch(AppRoutes(services), verb, path);
      Forwarded(o).Some? ==>
        Forwarded(o).value.service in services &&
        (Forwarded(o).value.path == path || path == Forwarded(o).value.path + "/")
  {
    var o := Dispatch(AppRoutes(services), verb, path);
    if Forwarded(o).Some? {
      ProxyEndpointIsProxyRoute(services, o.route);
      ForwardedByRoute(services, o.route, o.binding, path);
    }
  }

  /** Two names whose paths a path is at or below are the same name. */
  lemma SameSegment(x: string, y: string, path: string)
    requires PlainName(x) && PlainName(y)
    requires path == "/" + x || StartsWith(path, "/" + x + "/")
    requires path == "/" + y || StartsWith(path, "/" + y + "/")
    ensures x == y
  {
    if StartsWith(path, "/" + x + "/") {
      SegmentsAgree(x, y, path);
    } else if StartsWith(path, "/" + y + "/") {
      SegmentsAgree(y, x, path);
    } else {
      assert x == path[1..] == y;
    }
  }

  /** The toggled form of a path at or below `/<x>` is again at or below `/<x>`. */
  lemma ToggleStaysBelow(x: string, path: string)
    requires PlainName(x)
    requires path == "/" + x || StartsWith(path, "/" + x + "/")
    ensures ToggleSlash(path) == "/" + x || StartsWith(ToggleSlash(path), "/" + x + "/")
  {
    var q := ToggleSlash(path);
    var head := "/" + x + "/";
    if path == "/" + x {
      assert path[|path| - 1] == x[|x| - 1] && x[|x| - 1] in x;
      assert q == path + "/" && q[..|head|] == head;
    } else if EndsWith(path, "/") {
      assert path[..|head|] == head;
      assert path[|head| - 2] == x[|x| - 1] && x[|x| - 1] in x;
      assert |head| - 2 < |q|;
      if |q| == |head| - 1 {
        assert q == path[..|head| - 1] == "/" + x;
      } else {
        assert q[..|head|] == path[..|head|];
      }
    } else {
      assert q[..|head|] == path[..|head|];
    }
  }

  /** No route matches a path at or below `/<x>` when `x` is neither a registered service nor
      reserved by the gateway. */
  lemma NoRouteMatches(services: seq<string>, x: string, path: string)
    requires AllPlain(services) && PlainName(x) && x !in services && x !in Reserved
    requires path == "/" + x || StartsWith(path, "/" + x + "/")
    ensures forall r :: r in AppRoutes(services) ==> Match(r, path).None?
  {
    OwnRoutesMiss(x, path);
    forall r | r in ProxyRoutes(services)
      ensures Match(r, path).None?
    {
      if Match(r, path).Some? {
        var y := ProxyMatch(services, r, path);
        SameSegment(x, y, path);
      }
    }
  }

  /** A request for an unknown service is answered 404, whatever its method. */
  lemma UnknownServiceNotFound(services: seq<string>, x: string, verb: string, path: string)
    requires AllPlain(services) && PlainName(x) && x !in services && x !in Reserved
    requires path == "/" + x || StartsWith(path, "/" + x + "/")
    ensures Dispatch(AppRoutes(services), verb, path) == NotFound
  {
    NoRouteMatches(services, x, path);
    ToggleStaysBelow(x, path);
    NoRouteMatches(services, x, ToggleSlash(path));
  }
}
