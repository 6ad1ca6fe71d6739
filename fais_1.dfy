/**
 * The application object of fais1/fais-1.js: the same route table and
 * registrars as src/fais.js, an `assets` setter, a shortcut that streams
 * every URL starting with `/public` as a static file, and a request loop
 * that tests `^pattern$` against the whole URL, query string included.
 */
module Fais1 {
  import opened Wrappers
  import opened UrlParser
  import UrlParser1
  import opened Regex
  import QueryParser
  import opened Router

  /** The static-file prefix the request callback tests, and the initial `assetsFolder`. */
  const PublicPrefix: string := "/public"

  /** `s.startsWith(prefix)`. */
  predicate StartsWith(s: string, prefix: string) {
    |prefix| <= |s| && s[..|prefix|] == prefix
  }

  /** The body of the 404 answer: the URL followed by ` Route Not found`. */
  function NotFoundText(url: string): string {
    url + " Route Not found"
  }

  /** What the request callback of fais1/fais-1.js does with `req` on table `t`. */
  function Serve(t: Table, parseMethod: string, req: Request, callsNext: bool): Outcome
    requires Wf(t)
  {
    if StartsWith(req.url, PublicPrefix) then Static(req.url)
    else Respond(t, parseMethod, req, true, NotFoundText(req.url), callsNext)
  }

  class App {
    /** `routeTable`: path to record. */
    var routeTable: map<string, Record>
    /** `Object.keys(routeTable)`: the paths in the order they were first registered. */
    var keys: seq<string>
    var parseMethod: string
    /** `assetsFolder`, which `assets` sets and nothing reads. */
    var assetsFolder: string

    ghost function State(): Table
      reads this
    {
      Table(routeTable, keys)
    }

    ghost predicate Valid()
      reads this
    {
      Wf(State())
    }

    constructor ()
      ensures Valid() && routeTable == map[] && keys == [] && parseMethod == "json"
      ensures assetsFolder == PublicPrefix
    {
      routeTable := map[];
      keys := [];
      parseMethod := "json";
      assetsFolder := PublicPrefix;
    }

    /** `assets(folder)`: record the folder; routing and the static shortcut do not change. */
    method Assets(folder: string)
      modifies this
      ensures assetsFolder == folder
      ensures routeTable == old(routeTable) && keys == old(keys) && parseMethod == old(parseMethod)
    {
      assetsFolder := folder;
    }

    /** `registerPath`: create the record if missing, then merge the method's two slots into it. */
    method RegisterPath(path: string, callback: Slot, verb: string, middleware: Slot)
      requires Valid()
      modifies this
      ensures Valid()
      ensures State() == Register(old(State()), path, verb, callback, middleware)
      ensures parseMethod == old(parseMethod) && assetsFolder == old(assetsFolder)
    {
      ghost var before := State();
      if path !in routeTable {
        routeTable := routeTable[path := map[]];
        keys := keys + [path];
      }
      routeTable := routeTable[path := Merge(routeTable[path], verb, callback, middleware)];
      assert routeTable == before.routes[path := Merge(if path in before.routes then before.routes[path] else map[], verb, callback, middleware)];
      assert State() == Register(before, path, verb, callback, middleware);
      RegisterKeys(before, path, verb, callback, middleware);
    }

    /**
     * The body shared by `get`, `post`, `put` and `delete`: one rest
     * argument is the handler and clears the middleware; otherwise the
     * first is the middleware and the second the handler.
     */
    method Verb(verb: string, path: string, rest: seq<Slot>)
      requires Valid()
      modifies this
      ensures Valid()
      ensures |rest| == 1 ==> State() == Register(old(State()), path, verb, rest[0], None)
      ensures |rest| != 1 ==> State() == Register(old(State()), path, verb, Arg(rest, 1), Arg(rest, 0))
      ensures parseMethod == old(parseMethod) && assetsFolder == old(assetsFolder)
    {
      if |rest| == 1 {
        RegisterPath(path, rest[0], verb, None);
      } else {
        RegisterPath(path, Arg(rest, 1), verb, Arg(rest, 0));
      }
    }

    method Get(path: string, rest: seq<Slot>)
      requires Valid()
      modifies this
      ensures Valid() && parseMethod == old(parseMethod) && assetsFolder == old(assetsFolder)
      ensures State() == Register(old(State()), path, "get", Arity(rest).0, Arity(rest).1)
    {
      Verb("get", path, rest);
    }

    method Post(path: string, rest: seq<Slot>)
      requires Valid()
      modifies this
      ensures Valid() && parseMethod == old(parseMethod) && assetsFolder == old(assetsFolder)
      ensures State() == Register(old(State()), path, "post", Arity(rest).0, Arity(rest).1)
    {
      Verb("post", path, rest);
    }

    method Put(path: string, rest: seq<Slot>)
      requires Valid()
      modifies this
      ensures Valid() && parseMethod == old(parseMethod) && assetsFolder == old(assetsFolder)
      ensures State() == Register(old(State()), path, "put", Arity(rest).0, Arity(rest).1)
    {
      Verb("put", path, rest);
    }

    method Delete(path: string, rest: seq<Slot>)
      requires Valid()
      modifies this
      ensures Valid() && parseMethod == old(parseMethod) && assetsFolder == old(assetsFolder)
      ensures State() == Register(old(State()), path, "delete", Arity(rest).0, Arity(rest).1)
    {
      Verb("delete", path, rest);
    }

    /** `bodyParse(method)`: switch the body mode; the table is untouched. */
    method BodyParse(mode: string)
      modifies this
      ensures parseMethod == mode
      ensures routeTable == old(routeTable) && keys == old(keys) && assetsFolder == old(assetsFolder)
    {
      parseMethod := mode;
    }

    /**
     * The request callback: a URL starting with `/public` is streamed as a
     * file; otherwise visit the keys in order, compile each route, and stop
     * at the first whose pattern matches the whole URL and that has a
     * handler for the method. `callsNext` says whether the middleware calls
     * `next`; the body is what `readBody` would collect.
     */
    method Handle(req: Request, callsNext: bool) returns (out: Outcome)
      requires Valid()
      ensures out == Serve(State(), parseMethod, req, callsNext)
    {
      var routes := keys;
      var match_ := false;
      if StartsWith(req.url, PublicPrefix) {
        return Static(req.url);
      }
      var verb := Lower(req.verb);
      out := NotFound(404, NotFoundText(req.url));
      ghost var steps := Steps(State(), verb, req.url, true);
      RespondByScan(State(), parseMethod, req, true, NotFoundText(req.url), callsNext);
      var i := 0;
      while i < |routes|
        invariant 0 <= i <= |routes| == |steps|
        invariant ScanFrom(steps, i) == ScanFrom(steps, 0)
        invariant !match_
      {
        var step := TestRoute(i, verb, req.url);
        assert steps[i] == step;
        if step.Throws? {
          return Failed(SyntaxErrorThrown);
        }
        if step.Unmodelled? {
          return Undetermined(routes[i]);
        }
        if step.Takes? {
          AnchoredIsUnanchored(step.toks, req.url);
          out := Selected(routes[i], step.toks, step.handler, req, verb, callsNext);
          match_ := true;
          break;
        }
        i := i + 1;
      }
      if !match_ {
        out := NotFound(404, NotFoundText(req.url));
      }
    }

    /**
     * The test of one key inside the loop: compile the route, build the
     * RegExp `^…$` anchored at both ends (which may throw), test it against
     * the whole URL, and look up the handler for the method.
     */
    method TestRoute(i: nat, verb: string, url: string) returns (step: Step)
      requires Valid() && i < |keys|
      ensures step == StepAt(State(), verb, url, true, i)
    {
      var route := keys[i];
      var parsedRoute := UrlParser1.UrlParser(route);
      var regex := NewRegExp(parsedRoute);
      if regex.Err? {
        return if regex.error == SyntaxError then Throws else Unmodelled;
      }
      var optionalyMatched := Exec(regex.value, url, true).Some?;
      if optionalyMatched && Lookup(routeTable[route], verb).Some? {
        return Takes(regex.value, Lookup(routeTable[route], verb).value);
      }
      return PassedOver;
    }

    /**
     * The steps after `route` is selected with handler `callback`:
     * `req.params` from the unanchored match, `req.query`, `req.body`, then
     * the middleware, after which the handler runs if it called `next`.
     */
    method Selected(route: string, toks: seq<Token>, callback: Callback, req: Request,
                    verb: string, callsNext: bool) returns (out: Outcome)
      requires route in routeTable && Exec(toks, req.url, false).Some?
      ensures out == Proceed(routeTable[route], route, toks, callback, parseMethod, req, verb, callsNext)
    {
      var middleware := Lookup(routeTable[route], MiddlewareKey(verb));
      var m := Exec(toks, req.url, false).value;
      ExecSound(toks, req.url, false);
      var params := Groups(toks, m.caps);
      var query := QueryParser.QueryParser(req.url);
      if query.None? {
        return Failed(URIErrorThrown);
      }
      var body: Body;
      if parseMethod == "json" {
        if req.body == "" {
          body := EmptyObject;
        } else {
          return Failed(TypeErrorThrown);
        }
      } else {
        body := Text(req.body);
      }
      var result := middleware.None? || callsNext;
      out := Routed(route, params, query.value, body, callback, middleware, result);
    }
  }

  /**
   * Every URL starting with `/public` is served as a static file, whatever
   * the routes; `assetsFolder` plays no part in the decision.
   */
  lemma PublicBypassesRoutes(t: Table, parseMethod: string, req: Request, callsNext: bool, rest: string)
    requires Wf(t) && req.url == PublicPrefix + rest
    ensures Serve(t, parseMethod, req, callsNext) == Static(req.url)
  {
    assert req.url[..|PublicPrefix|] == PublicPrefix;
  }

  /** Any other URL is routed, or answered 404 with the URL and ` Route Not found`, exactly as no route is selected. */
  lemma NotFoundNamesTheUrl(t: Table, parseMethod: string, req: Request, callsNext: bool)
    requires Wf(t) && !StartsWith(req.url, PublicPrefix)
    ensures Serve(t, parseMethod, req, callsNext).NotFound?
      <==> forall k :: 0 <= k < |t.order| ==> Skipped(t, Lower(req.verb), req.url, true, k)
    ensures Serve(t, parseMethod, req, callsNext).NotFound? ==>
      Serve(t, parseMethod, req, callsNext) == NotFound(404, req.url + " Route Not found")
  {
    NotFoundWhenNoneSelected(t, parseMethod, req, true, NotFoundText(req.url), callsNext);
  }

  /**
   * Anchoring makes a route without parameters match only itself: a
   * request routed to such a route has exactly that URL, so `/home` never
   * takes `/home/extra`.
   */
  lemma LiteralRouteMatchesOnlyItself(t: Table, parseMethod: string, req: Request, callsNext: bool)
    requires Wf(t) && Serve(t, parseMethod, req, callsNext).Routed?
    requires Plain(Serve(t, parseMethod, req, callsNext).route)
    requires ':' !in Serve(t, parseMethod, req, callsNext).route
    ensures req.url == Serve(t, parseMethod, req, callsNext).route
  {
    var o := Serve(t, parseMethod, req, callsNext);
    RoutedToFirstEligible(t, parseMethod, req, true, NotFoundText(req.url), callsNext);
    var j :| 0 <= j < |t.order| && t.order[j] == o.route && Eligible(t, Lower(req.verb), req.url, true, j);
    LiteralRoute(o.route, req.url, true);
  }

  /**
   * The whole URL, query string included, must match the anchored
   * pattern, and no compiled route can match a `?`: a URL with a query
   * string is never routed, and a routed request's query is always empty.
   */
  lemma QueryStringIsNeverRouted(t: Table, parseMethod: string, req: Request, callsNext: bool)
    requires Wf(t) && AllPlain(t)
    ensures Serve(t, parseMethod, req, callsNext).Routed? ==> '?' !in req.url
    ensures Serve(t, parseMethod, req, callsNext).Routed? ==> Serve(t, parseMethod, req, callsNext).query == map[]
  {
    var o := Serve(t, parseMethod, req, callsNext);
    if o.Routed? {
      RoutedToFirstEligible(t, parseMethod, req, true, NotFoundText(req.url), callsNext);
      var j :| 0 <= j < |t.order| && t.order[j] == o.route && Eligible(t, Lower(req.verb), req.url, true, j);
      RegExpOfRoute(o.route);
      TokensPlain(o.route);
      AnchoredMatchIsPlain(Tokens(o.route), req.url);
      QueryParser.NoQueryString(req.url);
    }
  }
}
