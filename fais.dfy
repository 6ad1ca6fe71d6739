/**
 * The application object of src/fais.js: a route table that the verb
 * registrars rewrite, the body-parsing mode, and the request callback,
 * whose loop tests each route's compiled pattern against the URL without
 * anchoring it.
 */
module Fais {
  import opened Wrappers
  import opened UrlParser
  import opened Regex
  import QueryParser
  import opened Router

  /** The body of the 404 answer. */
  const NotFoundText: string := "Not found"

  /** What the request callback of src/fais.js does with `req` on table `t`. */
  function Serve(t: Table, parseMethod: string, req: Request, callsNext: bool): Outcome
    requires Wf(t)
  {
    Respond(t, parseMethod, req, false, NotFoundText, callsNext)
  }

  class App {
    /** `routeTable`: path to record. */
    var routeTable: map<string, Record>
    /** `Object.keys(routeTable)`: the paths in the order they were first registered. */
    var keys: seq<string>
    var parseMethod: string

    ghost function State(): Table
      reads this
    {
      Table(routeTable, keys)
    }

    ghost predicate Valid()
      reads this
    {
      Wf(State())
    }

    constructor ()
      ensures Valid() && routeTable == map[] && keys == [] && parseMethod == "json"
    {
      routeTable := map[];
      keys := [];
      parseMethod := "json";
    }

    /** `registerPath`: create the record if missing, then merge the method's two slots into it. */
    method RegisterPath(path: string, callback: Slot, verb: string, middleware: Slot)
      requires Valid()
      modifies this
      ensures Valid()
      ensures State() == Register(old(State()), path, verb, callback, middleware)
      ensures parseMethod == old(parseMethod)
    {
      ghost var before := State();
      if path !in routeTable {
        routeTable := routeTable[path := map[]];
        keys := keys + [path];
      }
      routeTable := routeTable[path := Merge(routeTable[path], verb, callback, middleware)];
      assert routeTable == before.routes[path := Merge(if path in before.routes then before.routes[path] else map[], verb, callback, middleware)];
      assert State() == Register(before, path, verb, callback, middleware);
      RegisterKeys(before, path, verb, callback, middleware);
    }

    /**
     * The body shared by `get`, `post`, `put` and `delete`: one rest
     * argument is the handler and clears the middleware; otherwise the
     * first is the middleware and the second the handler.
     */
    method Verb(verb: string, path: string, rest: seq<Slot>)
      requires Valid()
      modifies this
      ensures Valid()
      ensures |rest| == 1 ==> State() == Register(old(State()), path, verb, rest[0], None)
      ensures |rest| != 1 ==> State() == Register(old(State()), path, verb, Arg(rest, 1), Arg(rest, 0))
      ensures parseMethod == old(parseMethod)
    {
      if |rest| == 1 {
        RegisterPath(path, rest[0], verb, None);
      } else {
        RegisterPath(path, Arg(rest, 1), verb, Arg(rest, 0));
      }
    }

    method Get(path: string, rest: seq<Slot>)
      requires Valid()
      modifies this
      ensures Valid() && parseMethod == old(parseMethod)
      ensures State() == Register(old(State()), path, "get", Arity(rest).0, Arity(rest).1)
    {
      Verb("get", path, rest);
    }

    method Post(path: string, rest: seq<Slot>)
      requires Valid()
      modifies this
      ensures Valid() && parseMethod == old(parseMethod)
      ensures State() == Register(old(State()), path, "post", Arity(rest).0, Arity(rest).1)
    {
      Verb("post", path, rest);
    }

    method Put(path: string, rest: seq<Slot>)
      requires Valid()
      modifies this
      ensures Valid() && parseMethod == old(parseMethod)
      ensures State() == Register(old(State()), path, "put", Arity(rest).0, Arity(rest).1)
    {
      Verb("put", path, rest);
    }

    method Delete(path: string, rest: seq<Slot>)
      requires Valid()
      modifies this
      ensures Valid() && parseMethod == old(parseMethod)
      ensures State() == Register(old(State()), path, "delete", Arity(rest).0, Arity(rest).1)
    {
      Verb("delete", path, rest);
    }

    /** `bodyParse(method)`: switch the body mode; the table is untouched. */
    method BodyParse(mode: string)
      modifies this
      ensures parseMethod == mode
      ensures routeTable == old(routeTable) && keys == old(keys)
    {
      parseMethod := mode;
    }

    /**
     * The request callback: visit the keys in order, compile each route,
     * and stop at the first whose pattern occurs in the URL and that has a
     * handler for the method. `callsNext` says whether the middleware calls
     * `next`; the body is what `readBody` would collect.
     */
    method Handle(req: Request, callsNext: bool) returns (out: Outcome)
      requires Valid()
      ensures out == Serve(State(), parseMethod, req, callsNext)
    {
      var routes := keys;
      var verb := Lower(req.verb);
      var match_ := false;
      out := NotFound(404, NotFoundText);
      ghost var steps := Steps(State(), verb, req.url, false);
      RespondByScan(State(), parseMethod, req, false, NotFoundText, callsNext);
      var i := 0;
      while i < |routes|
        invariant 0 <= i <= |routes| == |steps|
        invariant ScanFrom(steps, i) == ScanFrom(steps, 0)
        invariant !match_
      {
        var step := TestRoute(i, verb, req.url);
        assert steps[i] == step;
        if step.Throws? {
          return Failed(SyntaxErrorThrown);
        }
        if step.Unmodelled? {
          return Undetermined(routes[i]);
        }
        if step.Takes? {
          out := Selected(routes[i], step.toks, step.handler, req, verb, callsNext);
          match_ := true;
          break;
        }
        i := i + 1;
      }
      if !match_ {
        out := NotFound(404, NotFoundText);
      }
    }

    /**
     * The test of one key inside the loop: compile the route, build the
     * RegExp (which may throw), test it against the URL without anchoring,
     * and look up the handler for the method.
     */
    method TestRoute(i: nat, verb: string, url: string) returns (step: Step)
      requires Valid() && i < |keys|
      ensures step == StepAt(State(), verb, url, false, i)
    {
      var route := keys[i];
      var parsedRoute := UrlParser.UrlParser(route);
      var re := NewRegExp(parsedRoute);
      if re.Err? {
        return if re.error == SyntaxError then Throws else Unmodelled;
      }
      if Exec(re.value, url, false).Some? && Lookup(routeTable[route], verb).Some? {
        return Takes(re.value, Lookup(routeTable[route], verb).value);
      }
      return PassedOver;
    }

    /**
     * The steps after `route` is selected with handler `callback`:
     * `req.params` from the unanchored match, `req.query`, `req.body`, then
     * the middleware, after which the handler runs if it called `next`.
     */
    method Selected(route: string, toks: seq<Token>, callback: Callback, req: Request,
                    verb: string, callsNext: bool) returns (out: Outcome)
      requires route in routeTable && Exec(toks, req.url, false).Some?
      ensures out == Proceed(routeTable[route], route, toks, callback, parseMethod, req, verb, callsNext)
    {
      var middleware := Lookup(routeTable[route], MiddlewareKey(verb));
      var m := Exec(toks, req.url, false).value;
      ExecSound(toks, req.url, false);
      var params := Groups(toks, m.caps);
      var query := QueryParser.QueryParser(req.url);
      if query.None? {
        return Failed(URIErrorThrown);
      }
      var body: Body;
      if parseMethod == "json" {
        if req.body == "" {
          body := EmptyObject;
        } else {
          return Failed(TypeErrorThrown);
        }
      } else {
        body := Text(req.body);
      }
      var result := middleware.None? || callsNext;
      out := Routed(route, params, query.value, body, callback, middleware, result);
    }
  }

  /** The 404 answer of src/fais.js: given exactly when no route is selected, with the body `Not found`. */
  lemma NotFoundAnswer(t: Table, parseMethod: string, req: Request, callsNext: bool)
    requires Wf(t)
    ensures Serve(t, parseMethod, req, callsNext).NotFound?
      <==> forall k :: 0 <= k < |t.order| ==> Skipped(t, Lower(req.verb), req.url, false, k)
    ensures Serve(t, parseMethod, req, callsNext).NotFound? ==>
      Serve(t, parseMethod, req, callsNext) == NotFound(404, "Not found")
  {
    NotFoundWhenNoneSelected(t, parseMethod, req, false, NotFoundText, callsNext);
  }

  /**
   * With `/` registered first for GET, every GET request whose URL has a
   * `/` goes to `/`: it is never answered 404, and if it is routed at all
   * it is routed there.
   */
  lemma RootRouteTakesEveryGet(t: Table, parseMethod: string, req: Request, callsNext: bool, a: nat)
    requires Wf(t) && |t.order| > 0 && t.order[0] == "/"
    requires Lookup(t.routes["/"], "get").Some?
    requires Lower(req.verb) == "get" && a < |req.url| && req.url[a] == '/'
    ensures !Serve(t, parseMethod, req, callsNext).NotFound?
    ensures Serve(t, parseMethod, req, callsNext).Routed? ==> Serve(t, parseMethod, req, callsNext).route == "/"
  {
    RootRouteCapturesEveryGet(t, req.url, a);
  }

  /** A single callback registers the handler and leaves no middleware, whatever was registered before. */
  lemma SingleCallbackClearsMiddleware(t: Table, path: string, verb: string, handler: Slot)
    ensures var r := Register(t, path, verb, Arity([handler]).0, Arity([handler]).1).routes[path];
      Lookup(r, verb) == handler && Lookup(r, MiddlewareKey(verb)) == None
  {
  }

  /** Two callbacks register the first as middleware and the second as handler. */
  lemma TwoCallbacksSetMiddleware(t: Table, path: string, verb: string, middleware: Slot, handler: Slot)
    ensures var r := Register(t, path, verb, Arity([middleware, handler]).0, Arity([middleware, handler]).1).routes[path];
      Lookup(r, verb) == handler && Lookup(r, MiddlewareKey(verb)) == middleware
  {
  }
}
