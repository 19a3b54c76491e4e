/** The router (Router.go): route registration, the first-match lookup, and the
    decision ServeHTTP takes for one request, as a function from the router,
    the request and the handlers' behaviour to the written output. */
module Router {
  import opened Base
  import opened GoText
  import opened Matcher
  import Responses
  import Requests

  /** A handler is an opaque token; what it does is a parameter of ServeHTTP.
      `NilHandler` is Go's nil func value, which every registration method and
      NotFound accept: calling it panics. */
  datatype Handler = Handler(id: nat) | NilHandler

  datatype RouteEntry = RouteEntry(Method: string, Path: string, Handler: Handler)

  datatype Router = Router(routes: seq<RouteEntry>, notFound: Handler, root: string)

  /** The zero Router: no routes, a nil NotFound handler, no root. */
  const NewRouter := Router([], NilHandler, "")

  // ---------------------------------------------------------------------------
  // Registration

  /** url: the route is appended; earlier routes keep their positions. */
  function Url(rt: Router, verb: string, path: string, h: Handler): (rt': Router)
    ensures |rt'.routes| == |rt.routes| + 1
    ensures rt'.routes[..|rt.routes|] == rt.routes
    ensures rt'.routes[|rt.routes|] == RouteEntry(verb, path, h)
    ensures rt'.notFound == rt.notFound && rt'.root == rt.root
  {
    rt.(routes := rt.routes + [RouteEntry(verb, path, h)])
  }

  /** The last registered route. */
  function Latest(rt: Router): RouteEntry
    requires |rt.routes| > 0
  {
    rt.routes[|rt.routes| - 1]
  }

  function Get(rt: Router, path: string, h: Handler): (rt': Router)
    ensures |rt'.routes| > 0 && Latest(rt') == RouteEntry("GET", path, h)
    ensures |rt'.routes| == |rt.routes| + 1 && rt'.routes[..|rt.routes|] == rt.routes
    ensures rt'.notFound == rt.notFound && rt'.root == rt.root
  {
    Url(rt, "GET", path, h)
  }

  function Post(rt: Router, path: string, h: Handler): (rt': Router)
    ensures |rt'.routes| > 0 && Latest(rt') == RouteEntry("POST", path, h)
    ensures |rt'.routes| == |rt.routes| + 1 && rt'.routes[..|rt.routes|] == rt.routes
    ensures rt'.notFound == rt.notFound && rt'.root == rt.root
  {
    Url(rt, "POST", path, h)
  }

  function Put(rt: Router, path: string, h: Handler): (rt': Router)
    ensures |rt'.routes| > 0 && Latest(rt') == RouteEntry("PUT", path, h)
    ensures |rt'.routes| == |rt.routes| + 1 && rt'.routes[..|rt.routes|] == rt.routes
    ensures rt'.notFound == rt.notFound && rt'.root == rt.root
  {
    Url(rt, "PUT", path, h)
  }

  function Patch(rt: Router, path: string, h: Handler): (rt': Router)
    ensures |rt'.routes| > 0 && Latest(rt') == RouteEntry("PATCH", path, h)
    ensures |rt'.routes| == |rt.routes| + 1 && rt'.routes[..|rt.routes|] == rt.routes
    ensures rt'.notFound == rt.notFound && rt'.root == rt.root
  {
    Url(rt, "PATCH", path, h)
  }

  function Delete(rt: Router, path: string, h: Handler): (rt': Router)
    ensures |rt'.routes| > 0 && Latest(rt') == RouteEntry("DELETE", path, h)
    ensures |rt'.routes| == |rt.routes| + 1 && rt'.routes[..|rt.routes|] == rt.routes
    ensures rt'.notFound == rt.notFound && rt'.root == rt.root
  {
    Url(rt, "DELETE", path, h)
  }

  /** Route: any verb, stored verbatim. */
  function Route(rt: Router, verb: string, path: string, h: Handler): (rt': Router)
    ensures |rt'.routes| > 0 && Latest(rt') == RouteEntry(verb, path, h)
    ensures |rt'.routes| == |rt.routes| + 1 && rt'.routes[..|rt.routes|] == rt.routes
    ensures rt'.notFound == rt.notFound && rt'.root == rt.root
  {
    Url(rt, verb, path, h)
  }

  /** NotFound: replaces the fallback handler, nil included; routes and root
      are kept. */
  function NotFound(rt: Router, h: Handler): (rt': Router)
    ensures rt'.notFound == h && rt'.routes == rt.routes && rt'.root == rt.root
  {
    rt.(notFound := h)
  }

  /** Root: replaces the URL prefix; routes and fallback are kept. */
  function Root(rt: Router, urlRoot: string): (rt': Router)
    ensures rt'.root == urlRoot && rt'.routes == rt.routes && rt'.notFound == rt.notFound
  {
    rt.(root := urlRoot)
  }

  // ---------------------------------------------------------------------------
  // findHandler

  /** The result of findHandler; `Panicked` stands for a panic inside the matcher. */
  datatype Lookup = Found(handler: Handler, params: StringMap) | NoHandler | Panicked

  /** One route tried against a request, as findHandler does it: the verb must be
      equal up to ASCII case, then isAMatch decides, including its panic when
      the URL is shorter than the root. */
  function Attempt(e: RouteEntry, root: string, verb: string, url: string): (o: Outcome)
    ensures !EqualFold(verb, e.Method) ==> o == NoMatch
    ensures EqualFold(verb, e.Method) && |url| < |root| ==> o == Panic
    ensures EqualFold(verb, e.Method) && |url| >= |root| ==>
      o == MatchBits(Segments(e.Path), Segments(url[|root|..]))
  {
    if !EqualFold(verb, e.Method) then NoMatch else IsAMatch(root, e.Path, url)
  }

  /** The same attempt with the corrected matcher of Matcher.IsAMatchIntended. */
  function AttemptIntended(e: RouteEntry, root: string, verb: string, url: string): (o: Outcome)
    ensures !EqualFold(verb, e.Method) ==> o == NoMatch
    ensures EqualFold(verb, e.Method) && !(root <= url) ==> o == NoMatch
    ensures EqualFold(verb, e.Method) && root <= url ==>
      o == MatchBitsIntended(Segments(e.Path), Segments(url[|root|..]))
  {
    if !EqualFold(verb, e.Method) then NoMatch else IsAMatchIntended(root, e.Path, url)
  }

  /** Where the root is a prefix of the URL and both segment-count rules accept,
      the corrected attempt gives what the Go code's attempt gives. */
  lemma AttemptsAgree(e: RouteEntry, root: string, verb: string, url: string)
    requires root <= url
    requires var p, u := Segments(e.Path), Segments(url[|root|..]);
      |u| >= BracketedCount(p) && |u| >= |p| - BracketedCount(p)
    ensures AttemptIntended(e, root, verb, url) == Attempt(e, root, verb, url)
  {
    IsAMatchAgrees(root, e.Path, url);
  }

  /** What a decisive attempt means for the lookup. */
  function Resolve(h: Handler, o: Outcome): Lookup
  {
    match o
    case Matched(params) => Found(h, params)
    case Panic => Panicked
    case NoMatch => NoHandler
  }

  /** Route `j` is the first route whose attempt does not say "no match". */
  predicate DecidesAt(routes: seq<RouteEntry>, root: string, verb: string, url: string, from: nat, j: nat)
  {
    && from <= j < |routes|
    && Attempt(routes[j], root, verb, url) != NoMatch
    && forall k | from <= k < j :: Attempt(routes[k], root, verb, url) == NoMatch
  }

  /** The loop of findHandler from route `from` onwards. */
  function FindFrom(routes: seq<RouteEntry>, root: string, verb: string, url: string, from: nat): (res: Lookup)
    requires from <= |routes|
    ensures res == NoHandler <==> forall j | from <= j < |routes| :: Attempt(routes[j], root, verb, url) == NoMatch
    ensures forall j: nat | DecidesAt(routes, root, verb, url, from, j) ::
      res == Resolve(routes[j].Handler, Attempt(routes[j], root, verb, url))
    decreases |routes| - from
  {
    if from == |routes| then NoHandler
    else
      var o := Attempt(routes[from], root, verb, url);
      if o == NoMatch then
        ShiftDecides(routes, root, verb, url, from);
        FindFrom(routes, root, verb, url, from + 1)
      else
        DecidesFirst(routes, root, verb, url, from);
        Resolve(routes[from].Handler, o)
  }

  /** Past a route that does not match, the deciding route is the same. */
  lemma ShiftDecides(routes: seq<RouteEntry>, root: string, verb: string, url: string, from: nat)
    requires from < |routes| && Attempt(routes[from], root, verb, url) == NoMatch
    ensures forall j: nat :: DecidesAt(routes, root, verb, url, from, j) <==> DecidesAt(routes, root, verb, url, from + 1, j)
    ensures (forall j | from <= j < |routes| :: Attempt(routes[j], root, verb, url) == NoMatch) <==>
      (forall j | from + 1 <= j < |routes| :: Attempt(routes[j], root, verb, url) == NoMatch)
  {
  }

  /** A route that does not reject decides the lookup from its own position. */
  lemma DecidesFirst(routes: seq<RouteEntry>, root: string, verb: string, url: string, from: nat)
    requires from < |routes| && Attempt(routes[from], root, verb, url) != NoMatch
    ensures DecidesAt(routes, root, verb, url, from, from)
    ensures forall j: nat | DecidesAt(routes, root, verb, url, from, j) :: j == from
    ensures !(forall j | from <= j < |routes| :: Attempt(routes[j], root, verb, url) == NoMatch)
  {
  }

  /** findHandler: the earliest registered route that accepts the request. */
  function FindHandler(rt: Router, verb: string, url: string): (res: Lookup)
    ensures res == NoHandler <==>
      forall j | 0 <= j < |rt.routes| :: Attempt(rt.routes[j], rt.root, verb, url) == NoMatch
    ensures forall j: nat | DecidesAt(rt.routes, rt.root, verb, url, 0, j) ::
      res == Resolve(rt.routes[j].Handler, Attempt(rt.routes[j], rt.root, verb, url))
  {
    FindFrom(rt.routes, rt.root, verb, url, 0)
  }

  /** The earliest deciding route is unique, so the lookup is fully determined by
      the route at which it decides. */
  lemma DecidesAtUnique(routes: seq<RouteEntry>, root: string, verb: string, url: string, from: nat, i: nat, j: nat)
    requires DecidesAt(routes, root, verb, url, from, i)
    requires DecidesAt(routes, root, verb, url, from, j)
    ensures i == j
  {
  }

  /** Registering a route never changes a lookup that an earlier route already
      decides; a lookup that found nothing is decided by the new route alone. */
  lemma {:induction false} RegistrationKeepsPriority(rt: Router, e: RouteEntry, verb: string, url: string)
    ensures var before := FindHandler(rt, verb, url);
      var after := FindHandler(rt.(routes := rt.routes + [e]), verb, url);
      && (before != NoHandler ==> after == before)
      && (before == NoHandler ==> after == Resolve(e.Handler, Attempt(e, rt.root, verb, url)))
  {
    AppendFrom(rt.routes, e, rt.root, verb, url, 0);
  }

  lemma {:induction false} AppendFrom(routes: seq<RouteEntry>, e: RouteEntry, root: string, verb: string, url: string, from: nat)
    requires from <= |routes|
    ensures var before := FindFrom(routes, root, verb, url, from);
      var after := FindFrom(routes + [e], root, verb, url, from);
      && (before != NoHandler ==> after == before)
      && (before == NoHandler ==> after == Resolve(e.Handler, Attempt(e, root, verb, url)))
    decreases |routes| - from
  {
    var ext := routes + [e];
    if from == |routes| {
      assert ext[from] == e;
      assert FindFrom(ext, root, verb, url, from + 1) == NoHandler;
    } else {
      assert ext[from] == routes[from];
      AppendFrom(routes, e, root, verb, url, from + 1);
    }
  }

  /** EqualFold is an equivalence, so requests whose methods differ only in
      ASCII case are routed alike. */
  lemma {:induction false} MethodCaseInsensitive(rt: Router, m1: string, m2: string, url: string)
    requires EqualFold(m1, m2)
    ensures FindHandler(rt, m1, url) == FindHandler(rt, m2, url)
  {
    forall e: RouteEntry | true
      ensures Attempt(e, rt.root, m1, url) == Attempt(e, rt.root, m2, url)
    {
      assert EqualFold(m1, e.Method) <==> EqualFold(m2, e.Method);
    }
    SameAttempts(rt.routes, rt.root, m1, m2, url, 0);
  }

  lemma {:induction false} SameAttempts(routes: seq<RouteEntry>, root: string, m1: string, m2: string, url: string, from: nat)
    requires from <= |routes|
    requires forall j | from <= j < |routes| ::
      Attempt(routes[j], root, m1, url) == Attempt(routes[j], root, m2, url)
    ensures FindFrom(routes, root, m1, url, from) == FindFrom(routes, root, m2, url, from)
    decreases |routes| - from
  {
    if from < |routes| {
      var o := Attempt(routes[from], root, m1, url);
      assert o == Attempt(routes[from], root, m2, url);
      if o == NoMatch {
        SameAttempts(routes, root, m1, m2, url, from + 1);
      }
    }
  }

  // ---------------------------------------------------------------------------
  // ServeHTTP

  /** The parts of an incoming net/http request that ServeHTTP reads. */
  datatype HttpRequest = HttpRequest(
    Method: string,
    Path: string,
    Host: string,
    UserAgent: string,
    forwardedFor: string,
    remoteAddr: string,
    body: Requests.BodySource)

  /** What ServeHTTP writes: a status, headers and body; a redirect written by
      http.Redirect (whose own Location header and short body are not modelled);
      or nothing at all, because a panic aborted the handler goroutine. */
  datatype Output =
    | Written(status: int, headers: StringMap, body: Bytes)
    | Redirected(status: int, headers: StringMap, location: string)
    | Aborted

  const AllowHeaders := "Access-Control-Allow-Headers"
  const AllowOrigin := "Access-Control-Allow-Origin"
  const AllowMethods := "Access-Control-Allow-Methods"

  /** corsInjector: sets the three CORS headers, keeping all other headers. */
  function CorsInjector(h: StringMap): (h': StringMap)
    ensures h'.Keys == h.Keys + {AllowHeaders, AllowOrigin, AllowMethods}
    ensures h'[AllowHeaders] == "*" && h'[AllowOrigin] == "*"
    ensures h'[AllowMethods] == "GET,POST,PUT,PATCH,DELETE,OPTIONS"
    ensures forall k | k in h && k !in {AllowHeaders, AllowOrigin, AllowMethods} :: h'[k] == h[k]
  {
    h[AllowHeaders := "*"][AllowOrigin := "*"][AllowMethods := "GET,POST,PUT,PATCH,DELETE,OPTIONS"]
  }

  /** ResponseWriter.WriteHeader panics on a code outside [100, 999]; an unset
      status (0) is such a code. */
  predicate ValidCode(code: int)
  {
    100 <= code <= 999
  }

  /** Copies every handler header over `base`; a handler header wins over a
      header already present. */
  function Overlay(base: StringMap, extra: StringMap): (h: StringMap)
    ensures h.Keys == base.Keys + extra.Keys
    ensures forall k | k in extra :: h[k] == extra[k]
    ensures forall k | k in base && k !in extra :: h[k] == base[k]
  {
    map k | k in base.Keys + extra.Keys :: if k in extra then extra[k] else base[k]
  }

  /** The headers set before the handler's own: X-Build-Date when the build date
      is non-empty, then the CORS triple. */
  function PresetHeaders(buildDate: string): StringMap
  {
    CorsInjector(if |buildDate| > 0 then map["X-Build-Date" := buildDate] else map[])
  }

  /** The tail of ServeHTTP: how the handler's response record is written. The
      contract follows the code's three cases; RedirectIgnoresHeadersAndContent,
      HandlerHeadersOverride and UntouchedResponseAborts state their effect. */
  function WriteResponse(resp: Responses.Response, buildDate: string): (out: Output)
    ensures !ValidCode(resp.StatusCode) ==> out == Aborted
    ensures ValidCode(resp.StatusCode) && resp.Redirect.DoRedirect ==>
      out == Redirected(resp.StatusCode, PresetHeaders(buildDate), resp.Redirect.Destination)
    ensures ValidCode(resp.StatusCode) && !resp.Redirect.DoRedirect ==>
      && out.Written? && out.status == resp.StatusCode && out.body == resp.Content
      && out.headers == Overlay(PresetHeaders(buildDate), resp.Headers)
  {
    var preset := PresetHeaders(buildDate);
    if !ValidCode(resp.StatusCode) then Aborted
    else if resp.Redirect.DoRedirect then Redirected(resp.StatusCode, preset, resp.Redirect.Destination)
    else Written(resp.StatusCode, Overlay(preset, resp.Headers), resp.Content)
  }

  const NoProvider := "No provider could be found"

  /** ServeHTTP after the lookup: a panic in the matcher aborts the goroutine;
      with no handler the NotFound handler runs with no parameters, or the fixed
      404 is written when it is nil; a found handler runs with the bound
      parameters, and a nil one panics when called; the handler's response is
      then written. The contract is the Go code's case table itself; what the
      cases mean together is stated by the laws below (OptionsIgnoresRoutes,
      EmptyRouter, RootPanicAborts, NilNotFoundRestores404, NilRouteAborts). */
  function Dispatch(lookup: Lookup, notFound: Handler, req: HttpRequest, buildDate: string,
                    handle: (Handler, Requests.Request) -> Responses.Response): (out: Output)
    ensures lookup == Panicked ==> out == Aborted
    ensures lookup == NoHandler && notFound == NilHandler ==> out == Written(404, map[], NoProvider)
    ensures lookup == NoHandler && notFound != NilHandler ==>
      out == WriteResponse(handle(notFound, HandlerRequest(req, map[])), buildDate)
    ensures lookup.Found? && lookup.handler == NilHandler ==> out == Aborted
    ensures lookup.Found? && lookup.handler != NilHandler ==>
      out == WriteResponse(handle(lookup.handler, HandlerRequest(req, lookup.params)), buildDate)
  {
    match lookup
    case Panicked => Aborted
    case Found(h, params) =>
      if h == NilHandler then Aborted
      else WriteResponse(handle(h, HandlerRequest(req, params)), buildDate)
    case NoHandler =>
      if notFound == NilHandler then Written(404, map[], NoProvider)
      else WriteResponse(handle(notFound, HandlerRequest(req, map[])), buildDate)
  }

  /** ServeHTTP. `buildDate` is the BuildDate environment variable ("" when
      unset) and `handle` says what each handler returns for a request. OPTIONS
      is answered before any lookup; every other method is dispatched on the
      result of findHandler. */
  function ServeHTTP(rt: Router, req: HttpRequest, buildDate: string,
                     handle: (Handler, Requests.Request) -> Responses.Response): (out: Output)
    ensures req.Method == "OPTIONS" ==> out == Written(200, CorsInjector(map[]), "")
    ensures req.Method != "OPTIONS" ==>
      out == Dispatch(FindHandler(rt, req.Method, req.Path), rt.notFound, req, buildDate, handle)
  {
    if req.Method == "OPTIONS" then Written(200, CorsInjector(map[]), "")
    else Dispatch(FindHandler(rt, req.Method, req.Path), rt.notFound, req, buildDate, handle)
  }

  /** The request record a handler receives: the bound parameters (none for the
      NotFound handler), an unread body and the zero response. */
  function HandlerRequest(req: HttpRequest, params: StringMap): (r: Requests.Request)
    ensures r.args == params && r.URL == req.Path && r.response == Responses.Empty
    ensures Requests.Body(r).1 == req.body.data
  {
    Requests.NewRequest(params, req.Host, req.Path, req.UserAgent, req.forwardedFor, req.remoteAddr, req.body)
  }

  // ---------------------------------------------------------------------------
  // Dispatch laws

  /** An OPTIONS request is answered without looking at the routes, the
      fallback, the root or the handlers. */
  lemma OptionsIgnoresRoutes(rt1: Router, rt2: Router, req: HttpRequest, d1: string, d2: string,
                             h1: (Handler, Requests.Request) -> Responses.Response,
                             h2: (Handler, Requests.Request) -> Responses.Response)
    requires req.Method == "OPTIONS"
    ensures ServeHTTP(rt1, req, d1, h1) == ServeHTTP(rt2, req, d2, h2)
    ensures ServeHTTP(rt1, req, d1, h1).Written? && ServeHTTP(rt1, req, d1, h1).status == 200
    ensures ServeHTTP(rt1, req, d1, h1).headers[AllowOrigin] == "*"
  {
  }

  /** A redirect ignores the handler's headers and content: two responses that
      differ only there are written identically. */
  lemma RedirectIgnoresHeadersAndContent(resp: Responses.Response, headers: StringMap, content: Bytes, buildDate: string)
    requires resp.Redirect.DoRedirect
    ensures WriteResponse(resp, buildDate) == WriteResponse(resp.(Headers := headers, Content := content), buildDate)
  {
  }

  /** Outside redirects, CORS headers are set first and the handler's headers
      overwrite them; the CORS headers the handler does not set survive. */
  lemma HandlerHeadersOverride(resp: Responses.Response, buildDate: string)
    requires ValidCode(resp.StatusCode) && !resp.Redirect.DoRedirect
    ensures var out := WriteResponse(resp, buildDate);
      && (forall k | k in resp.Headers :: out.headers[k] == resp.Headers[k])
      && (AllowOrigin !in resp.Headers ==> out.headers[AllowOrigin] == "*")
      && (|buildDate| > 0 && "X-Build-Date" !in resp.Headers ==> out.headers["X-Build-Date"] == buildDate)
      && out.body == resp.Content
  {
  }

  /** A handler that never set a status gets its goroutine aborted by
      WriteHeader(0). */
  lemma UntouchedResponseAborts(buildDate: string)
    ensures WriteResponse(Responses.Empty, buildDate) == Aborted
  {
  }

  /** An empty router answers every non-OPTIONS request with the fixed 404, and
      with a fallback it hands the request to the fallback with no parameters. */
  lemma EmptyRouter(req: HttpRequest, h: Handler, buildDate: string,
                    handle: (Handler, Requests.Request) -> Responses.Response)
    requires req.Method != "OPTIONS"
    ensures ServeHTTP(NewRouter, req, buildDate, handle) == Written(404, map[], NoProvider)
    ensures h != NilHandler ==>
      ServeHTTP(NotFound(NewRouter, h), req, buildDate, handle) == WriteResponse(handle(h, HandlerRequest(req, map[])), buildDate)
    ensures h == NilHandler ==>
      ServeHTTP(NotFound(NewRouter, h), req, buildDate, handle) == Written(404, map[], NoProvider)
  {
  }

  /** NotFound(nil) undoes an earlier NotFound: a request no route decides gets
      the fixed 404 again, whatever fallback was installed before. */
  lemma {:induction false} NilNotFoundRestores404(rt: Router, req: HttpRequest, buildDate: string,
                                                  handle: (Handler, Requests.Request) -> Responses.Response)
    requires req.Method != "OPTIONS"
    requires FindHandler(rt, req.Method, req.Path) == NoHandler
    ensures ServeHTTP(NotFound(rt, NilHandler), req, buildDate, handle) == Written(404, map[], NoProvider)
  {
    var rt' := NotFound(rt, NilHandler);
    SameRoutesSameLookup(rt, rt', req.Method, req.Path);
  }

  /** The lookup reads only the routes and the root. */
  lemma SameRoutesSameLookup(rt1: Router, rt2: Router, verb: string, url: string)
    requires rt1.routes == rt2.routes && rt1.root == rt2.root
    ensures FindHandler(rt1, verb, url) == FindHandler(rt2, verb, url)
  {
  }

  /** A route registered with a nil handler panics when it is the one that
      accepts the request, and nothing is written. */
  lemma NilRouteAborts(rt: Router, path: string, req: HttpRequest, buildDate: string,
                       handle: (Handler, Requests.Request) -> Responses.Response)
    requires req.Method == "GET"
    requires FindHandler(rt, req.Method, req.Path) == NoHandler
    requires Attempt(RouteEntry("GET", path, NilHandler), rt.root, req.Method, req.Path).Matched?
    ensures ServeHTTP(Get(rt, path, NilHandler), req, buildDate, handle) == Aborted
  {
    RegistrationKeepsPriority(rt, RouteEntry("GET", path, NilHandler), req.Method, req.Path);
  }

  /** GET "/" against a router holding only `Get("/", h)`: the pattern "/" is one
      empty segment, as is the URL, so `h` runs with no parameters; a handler
      answering Success("OK") yields 200 and "OK" with the CORS headers. */
  lemma RootRouteExample(h: Handler, req: HttpRequest, handle: (Handler, Requests.Request) -> Responses.Response)
    requires h != NilHandler
    requires req.Method == "GET" && req.Path == "/"
    requires handle(h, HandlerRequest(req, map[])) ==
      Responses.Response(200, map[], "OK", Responses.RedirectInfo(false, ""))
    ensures ServeHTTP(Get(NewRouter, "/", h), req, "", handle) == Written(200, CorsInjector(map[]), "OK")
  {
    var rt := Get(NewRouter, "/", h);
    SegmentsOfRoot();
    assert EqualFold("GET", "GET");
    assert MatchBits([""], [""]) == Matched(map[]) by {
      assert BracketedCount([""]) == 0 by { assert [""][..0] == []; }
      assert Fits("", "");
      assert BindAll([""], [""], 1) == map[];
    }
    assert "/"[0..] == "/";
    assert Attempt(rt.routes[0], rt.root, req.Method, req.Path) == Matched(map[]);
    assert FindHandler(rt, req.Method, req.Path) == Found(h, map[]);
    assert Overlay(CorsInjector(map[]), map[]) == CorsInjector(map[]);
  }

  /** A request for a URL the only route does not match gets the fixed 404. */
  lemma UnmatchedRouteExample(h: Handler, req: HttpRequest, buildDate: string,
                              handle: (Handler, Requests.Request) -> Responses.Response)
    requires req.Method == "GET" && req.Path == "/undefined/route"
    ensures ServeHTTP(Get(NewRouter, "/defined/route", h), req, buildDate, handle) == Written(404, map[], NoProvider)
  {
    var rt := Get(NewRouter, "/defined/route", h);
    LiteralExample();
    assert Attempt(rt.routes[0], rt.root, req.Method, req.Path) == NoMatch;
  }

  /** A `:one` route hands its handler a request whose argument "one" is the URL
      segment in that place. */
  lemma ParamRouteExample(h: Handler, req: HttpRequest, buildDate: string,
                          handle: (Handler, Requests.Request) -> Responses.Response)
    requires h != NilHandler
    requires req.Method == "GET" && req.Path == "/url/param/working"
    ensures var args := map["one" := "working"];
      && ServeHTTP(Get(NewRouter, "/url/param/:one", h), req, buildDate, handle)
           == WriteResponse(handle(h, HandlerRequest(req, args)), buildDate)
      && Requests.ArgExists(HandlerRequest(req, args), "one")
      && Requests.GetArg(HandlerRequest(req, args), "one") == "working"
  {
    var rt := Get(NewRouter, "/url/param/:one", h);
    ParamExample();
    assert EqualFold("GET", "GET");
    assert Attempt(rt.routes[0], rt.root, req.Method, req.Path) == Matched(map["one" := "working"]);
    assert FindHandler(rt, req.Method, req.Path) == Found(h, map["one" := "working"]);
  }

  /** With root "/prefix", a request for "/here" is shorter than the root:
      slicing the URL panics inside findHandler, and nothing is written. */
  lemma RootPanicAborts(h: Handler, req: HttpRequest, buildDate: string,
                        handle: (Handler, Requests.Request) -> Responses.Response)
    requires req.Method == "GET" && req.Path == "/here"
    ensures ServeHTTP(Root(Get(NewRouter, "/here", h), "/prefix"), req, buildDate, handle) == Aborted
  {
    var rt := Root(Get(NewRouter, "/here", h), "/prefix");
    assert EqualFold("GET", "GET");
    assert Attempt(rt.routes[0], rt.root, req.Method, req.Path) == Panic;
    assert FindHandler(rt, req.Method, req.Path) == Panicked;
  }

  /** As written, "/a" is rejected by the route "/a/[:b]/[:c]": the URL has one
      segment and the pattern two bracketed ones, so the request gets the 404. */
  lemma OptionalRouteRejected(h: Handler, req: HttpRequest, buildDate: string,
                              handle: (Handler, Requests.Request) -> Responses.Response)
    requires req.Method == "GET" && req.Path == "/a"
    ensures ServeHTTP(Get(NewRouter, "/a/[:b]/[:c]", h), req, buildDate, handle) == Written(404, map[], NoProvider)
  {
    var rt := Get(NewRouter, "/a/[:b]/[:c]", h);
    AsWrittenOptionalExtensionFails();
    assert EqualFold("GET", "GET");
    assert Attempt(rt.routes[0], rt.root, req.Method, req.Path) == NoMatch;
  }
}
