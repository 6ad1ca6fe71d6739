/**
 * The route table and the request loop shared by src/fais.js and
 * fais1/fais-1.js, as functions of the table's state.
 *
 * The table maps a path to a record whose properties are named after
 * methods: `get` holds the handler and `get-middleware` the middleware.
 * Its keys are kept in insertion order (`Object.keys`). A request visits
 * the keys in that order, compiles each route, and selects the first one
 * whose pattern matches the URL and that has a handler for the lower-cased
 * method. The two files differ only in the anchoring of the match, the
 * 404 body and a static-file shortcut, which their modules add.
 */
module Router {
  import opened Wrappers
  import opened UrlParser
  import opened Regex
  import opened QueryParser

  /** A function value passed to a registrar, known only by its identity. */
  datatype Callback = Callback(id: nat)

  /** A property value: a callback, or `undefined`. */
  type Slot = Option<Callback>

  /** One path's record: property name to value. */
  type Record = map<string, Slot>

  /** The name of the property holding a method's middleware. */
  function MiddlewareKey(verb: string): string {
    verb + "-middleware"
  }

  /** Reading a property: a missing one is `undefined`. */
  function Lookup(rec: Record, key: string): Slot {
    if key in rec then rec[key] else None
  }

  /** `routeTable` together with the order of its keys. */
  datatype Table = Table(routes: map<string, Record>, order: seq<string>)

  /** The key order lists every path of the table exactly once. */
  ghost predicate Wf(t: Table) {
    && (forall p :: p in t.routes <==> p in t.order)
    && (forall a, b :: 0 <= a < b < |t.order| ==> t.order[a] != t.order[b])
  }

  /** `{...record, [verb]: callback, [verb + "-middleware"]: middleware}`. */
  function Merge(rec: Record, verb: string, callback: Slot, middleware: Slot): Record {
    rec[verb := callback][MiddlewareKey(verb) := middleware]
  }

  /** The table after `registerPath(path, callback, method, middleware)`. */
  function Register(t: Table, path: string, verb: string, callback: Slot, middleware: Slot): Table {
    var rec := if path in t.routes then t.routes[path] else map[];
    Table(t.routes[path := Merge(rec, verb, callback, middleware)],
          if path in t.routes then t.order else t.order + [path])
  }

  /**
   * A new path is appended to the key order and an existing one keeps its
   * place; the other paths' records are untouched.
   */
  lemma RegisterKeys(t: Table, path: string, verb: string, callback: Slot, middleware: Slot)
    ensures var r := Register(t, path, verb, callback, middleware);
      && (Wf(t) ==> Wf(r))
      && r.order == (if path in t.routes then t.order else t.order + [path])
      && r.routes.Keys == t.routes.Keys + {path}
      && forall p :: p in t.routes && p != path ==> r.routes[p] == t.routes[p]
  {
  }

  /**
   * The record of `path` gets the method's handler and middleware, and
   * every other property keeps the value it had (none, on a new path).
   */
  lemma RegisterSlots(t: Table, path: string, verb: string, callback: Slot, middleware: Slot)
    ensures var rec := Register(t, path, verb, callback, middleware).routes[path];
      && Lookup(rec, verb) == callback
      && Lookup(rec, MiddlewareKey(verb)) == middleware
      && forall k :: k != verb && k != MiddlewareKey(verb) ==>
           Lookup(rec, k) == if path in t.routes then Lookup(t.routes[path], k) else None
  {
  }

  /** The `k`-th rest argument of a registrar: `undefined` past the end. */
  function Arg(rest: seq<Slot>, k: nat): Slot {
    if k < |rest| then rest[k] else None
  }

  /**
   * The (handler, middleware) a verb registrar passes on: a single
   * argument is the handler; otherwise the first is the middleware and the
   * second the handler.
   */
  function Arity(rest: seq<Slot>): (Slot, Slot) {
    if |rest| == 1 then (rest[0], None) else (Arg(rest, 1), Arg(rest, 0))
  }

  /** `toLowerCase` on the ASCII letters an HTTP method is written in. */
  function LowerChar(c: char): char {
    if 'A' <= c <= 'Z' then (c as int - 'A' as int + 'a' as int) as char else c
  }

  function Lower(s: string): (r: string)
    ensures |r| == |s| && forall k :: 0 <= k < |s| ==> r[k] == LowerChar(s[k])
  {
    if s == [] then [] else [LowerChar(s[0])] + Lower(s[1..])
  }

  /** The request as the loop sees it; `body` is what `readBody` collects. */
  datatype Request = Request(verb: string, url: string, body: string)

  /** `req.body`: the empty object `{}` in JSON mode, or the text as read. */
  datatype Body = EmptyObject | Text(text: string)

  /** An exception that escapes the request callback. */
  datatype Fault = SyntaxErrorThrown | URIErrorThrown | TypeErrorThrown

  datatype Outcome =
    | Routed(route: string, params: Option<map<string, string>>, query: Query, body: Body,
             handler: Callback, middleware: Slot, handlerRuns: bool)
    | NotFound(status: nat, message: string)
    | Failed(fault: Fault)
    | Static(path: string)
    | Undetermined(route: string)  // the loop reached a route whose pattern lies outside the modelled fragment

  /** Where the scan of the keys stops. */
  datatype Scan =
    | Hit(index: nat, toks: seq<Token>, handler: Callback)
    | Miss
    | Threw
    | Beyond(index: nat)

  /**
   * What one route does to the scan: its constructor throws, its compiled
   * source lies outside the modelled fragment (so the model cannot say
   * whether it matches), it is passed over, or it is taken with these
   * tokens and handler.
   */
  datatype Step = Throws | Unmodelled | PassedOver | Takes(toks: seq<Token>, handler: Callback)

  /** The verdict on the route at position `i`: compile it, test it against `url`, look up the handler for `verb`. */
  function StepAt(t: Table, verb: string, url: string, anchored: bool, i: nat): (r: Step)
    requires Wf(t) && i < |t.order|
    ensures r.Throws? <==> NewRegExp(Compile(t.order[i])) == Err(SyntaxError)
    ensures r.Unmodelled? <==> NewRegExp(Compile(t.order[i])) == Err(Unsupported)
    ensures r.Takes? ==>
      && NewRegExp(Compile(t.order[i])) == Ok(r.toks)
      && Exec(r.toks, url, anchored).Some?
      && Lookup(t.routes[t.order[i]], verb) == Some(r.handler)
    ensures r.Takes? <==>
      && NewRegExp(Compile(t.order[i])).Ok?
      && Exec(NewRegExp(Compile(t.order[i])).value, url, anchored).Some?
      && Lookup(t.routes[t.order[i]], verb).Some?
    ensures r.PassedOver? <==>
      && NewRegExp(Compile(t.order[i])).Ok?
      && !(Exec(NewRegExp(Compile(t.order[i])).value, url, anchored).Some?
           && Lookup(t.routes[t.order[i]], verb).Some?)
  {
    match NewRegExp(Compile(t.order[i]))
    case Err(SyntaxError) => Throws
    case Err(Unsupported) => Unmodelled
    case Ok(toks) =>
      if Exec(toks, url, anchored).Some? && Lookup(t.routes[t.order[i]], verb).Some? then
        Takes(toks, Lookup(t.routes[t.order[i]], verb).value)
      else
        PassedOver
  }

  /** The verdicts on the keys, in `Object.keys` order. */
  function Steps(t: Table, verb: string, url: string, anchored: bool): seq<Step>
    requires Wf(t)
  {
    seq(|t.order|, k requires 0 <= k < |t.order| => StepAt(t, verb, url, anchored, k))
  }

  /** The route at position `i` compiles, matches `url`, and has a handler for `verb`. */
  predicate Eligible(t: Table, verb: string, url: string, anchored: bool, i: nat)
    requires Wf(t) && i < |t.order|
  {
    StepAt(t, verb, url, anchored, i).Takes?
  }

  /** The route at position `i` compiles and is passed over: its pattern does not match, or it has no handler. */
  predicate Skipped(t: Table, verb: string, url: string, anchored: bool, i: nat)
    requires Wf(t) && i < |t.order|
  {
    StepAt(t, verb, url, anchored, i).PassedOver?
  }

  /** The selection loop over the verdicts from position `i` on: the first verdict that is not "passed over" ends it. */
  function ScanFrom(steps: seq<Step>, i: nat): (r: Scan)
    requires i <= |steps|
    ensures r.Hit? ==> i <= r.index < |steps| && steps[r.index] == Takes(r.toks, r.handler)
    ensures r.Beyond? ==> i <= r.index < |steps| && steps[r.index].Unmodelled?
    decreases |steps| - i
  {
    if i == |steps| then Miss
    else match steps[i]
      case Throws => Threw
      case Unmodelled => Beyond(i)
      case Takes(toks, handler) => Hit(i, toks, handler)
      case PassedOver => ScanFrom(steps, i + 1)
  }

  /** The body step: in JSON mode a non-empty body reaches the missing `JSON.urlParser` and throws. */
  function ParseBody(parseMethod: string, raw: string): Result<Body, Fault> {
    if parseMethod == "json" then
      if raw == "" then Ok(EmptyObject) else Err(TypeErrorThrown)
    else
      Ok(Text(raw))
  }

  /**
   * What follows the selection of `route`: its parameters from the
   * unanchored match, the query, the body, and whether the handler runs,
   * which it does when there is no middleware or the middleware calls `next`.
   */
  function Proceed(rec: Record, route: string, toks: seq<Token>, handler: Callback,
                   parseMethod: string, req: Request, verb: string, callsNext: bool): (r: Outcome)
    ensures r.Routed? || r.Failed?
    ensures r.Routed? ==> r.route == route && r.handler == handler
  {
    match Exec(toks, req.url, false)
    case None => Failed(TypeErrorThrown)
    case Some(m) =>
      ExecSound(toks, req.url, false);
      match ParseQuery(req.url)
      case None => Failed(URIErrorThrown)
      case Some(query) =>
        match ParseBody(parseMethod, req.body)
        case Err(fault) => Failed(fault)
        case Ok(body) =>
          var middleware := Lookup(rec, MiddlewareKey(verb));
          Routed(route, Groups(toks, m.caps), query, body, handler, middleware,
                 middleware.None? || callsNext)
  }

  /** The request callback after any shortcut: select, then proceed or answer 404 with `notFound`. */
  function Respond(t: Table, parseMethod: string, req: Request, anchored: bool,
                   notFound: string, callsNext: bool): (r: Outcome)
    requires Wf(t)
    ensures r.NotFound? <==> ScanFrom(Steps(t, Lower(req.verb), req.url, anchored), 0).Miss?
    ensures r.NotFound? ==> r == NotFound(404, notFound)
    ensures !r.Static?
  {
    var verb := Lower(req.verb);
    match ScanFrom(Steps(t, verb, req.url, anchored), 0)
    case Threw => Failed(SyntaxErrorThrown)
    case Miss => NotFound(404, notFound)
    case Beyond(i) => Undetermined(t.order[i])
    case Hit(i, toks, handler) =>
      Proceed(t.routes[t.order[i]], t.order[i], toks, handler, parseMethod, req, verb, callsNext)
  }

  /** The answer by where the scan stops: a throw, no route, a route outside the fragment, or the steps after the selected one. */
  lemma RespondByScan(t: Table, parseMethod: string, req: Request, anchored: bool,
                      notFound: string, callsNext: bool)
    requires Wf(t)
    ensures var scan := ScanFrom(Steps(t, Lower(req.verb), req.url, anchored), 0);
      var r := Respond(t, parseMethod, req, anchored, notFound, callsNext);
      && (scan.Threw? ==> r == Failed(SyntaxErrorThrown))
      && (scan.Miss? ==> r == NotFound(404, notFound))
      && (scan.Beyond? ==> r == Undetermined(t.order[scan.index]))
      && (scan.Hit? ==> r == Proceed(t.routes[t.order[scan.index]], t.order[scan.index], scan.toks,
                                     scan.handler, parseMethod, req, Lower(req.verb), callsNext))
  {
  }

  /** Every key of the table is a plain route pattern. */
  ghost predicate AllPlain(t: Table) {
    forall p :: p in t.routes ==> Plain(p)
  }

  /** Registering the same path and method again replaces both slots, as if the first call never happened. */
  lemma ReRegisterReplaces(t: Table, path: string, verb: string, c1: Slot, m1: Slot, c2: Slot, m2: Slot)
    ensures Register(Register(t, path, verb, c1, m1), path, verb, c2, m2) == Register(t, path, verb, c2, m2)
  {
    var rec := if path in t.routes then t.routes[path] else map[];
    var t1 := Register(t, path, verb, c1, m1);
    assert t1.routes[path] == Merge(rec, verb, c1, m1);
    MergeTwice(rec, verb, c1, m1, c2, m2);
    assert t1.routes[path := Merge(rec, verb, c2, m2)] == t.routes[path := Merge(rec, verb, c2, m2)];
  }

  lemma MergeTwice(rec: Record, verb: string, c1: Slot, m1: Slot, c2: Slot, m2: Slot)
    ensures Merge(Merge(rec, verb, c1, m1), verb, c2, m2) == Merge(rec, verb, c2, m2)
  {
  }

  /**
   * The scan selects position `j` exactly when the verdict there is
   * "taken" and every verdict before it is "passed over"; what follows `j`
   * is never looked at.
   */
  lemma {:induction false} ScanSelectsFirst(steps: seq<Step>, i: nat, j: nat)
    requires i <= j < |steps|
    ensures (ScanFrom(steps, i).Hit? && ScanFrom(steps, i).index == j)
      <==> (steps[j].Takes? && forall k :: i <= k < j ==> steps[k].PassedOver?)
    decreases j - i
  {
    if i < j {
      ScanSelectsFirst(steps, i + 1, j);
    }
  }

  /** The scan finds nothing exactly when every verdict from `i` on is "passed over". */
  lemma {:induction false} ScanMisses(steps: seq<Step>, i: nat)
    requires i <= |steps|
    ensures ScanFrom(steps, i) == Miss <==> forall k :: i <= k < |steps| ==> steps[k].PassedOver?
    decreases |steps| - i
  {
    if i < |steps| {
      ScanMisses(steps, i + 1);
    }
  }

  /** The 404 answer is given exactly when no route is selected, with status 404 and the given body. */
  lemma NotFoundWhenNoneSelected(t: Table, parseMethod: string, req: Request, anchored: bool,
                                 notFound: string, callsNext: bool)
    requires Wf(t)
    ensures Respond(t, parseMethod, req, anchored, notFound, callsNext).NotFound?
      <==> forall k :: 0 <= k < |t.order| ==> Skipped(t, Lower(req.verb), req.url, anchored, k)
    ensures Respond(t, parseMethod, req, anchored, notFound, callsNext).NotFound? ==>
      Respond(t, parseMethod, req, anchored, notFound, callsNext) == NotFound(404, notFound)
  {
    var steps := Steps(t, Lower(req.verb), req.url, anchored);
    ScanMisses(steps, 0);
    var o := Respond(t, parseMethod, req, anchored, notFound, callsNext);
    assert o.NotFound? <==> ScanFrom(steps, 0).Miss?;
    if forall k :: 0 <= k < |steps| ==> steps[k].PassedOver? {
      forall k | 0 <= k < |t.order|
        ensures Skipped(t, Lower(req.verb), req.url, anchored, k)
      {
        assert steps[k] == StepAt(t, Lower(req.verb), req.url, anchored, k);
      }
    } else {
      var k :| 0 <= k < |steps| && !steps[k].PassedOver?;
      assert steps[k] == StepAt(t, Lower(req.verb), req.url, anchored, k);
      assert !Skipped(t, Lower(req.verb), req.url, anchored, k);
    }
  }

  /**
   * A routed request went to the first eligible route, with that route's
   * handler and middleware, the decoded query and the parsed body; the
   * handler runs exactly when there is no middleware or it calls `next`.
   */
  lemma RoutedToFirstEligible(t: Table, parseMethod: string, req: Request, anchored: bool,
                              notFound: string, callsNext: bool)
    requires Wf(t) && Respond(t, parseMethod, req, anchored, notFound, callsNext).Routed?
    ensures var o := Respond(t, parseMethod, req, anchored, notFound, callsNext);
      var verb := Lower(req.verb);
      && (exists j :: 0 <= j < |t.order| && t.order[j] == o.route
            && Eligible(t, verb, req.url, anchored, j)
            && forall k :: 0 <= k < j ==> Skipped(t, verb, req.url, anchored, k))
      && Lookup(t.routes[o.route], verb) == Some(o.handler)
      && o.middleware == Lookup(t.routes[o.route], MiddlewareKey(verb))
      && (o.handlerRuns <==> o.middleware.None? || callsNext)
      && ParseQuery(req.url) == Some(o.query)
      && ParseBody(parseMethod, req.body) == Ok(o.body)
  {
    var verb := Lower(req.verb);
    var steps := Steps(t, verb, req.url, anchored);
    var j := ScanFrom(steps, 0).index;
    ScanSelectsFirst(steps, 0, j);
    assert forall k :: 0 <= k < j ==> steps[k] == StepAt(t, verb, req.url, anchored, k);
  }

  /**
   * The only `TypeError` is the JSON body step: it is thrown exactly when a
   * route is selected, the query decodes, the mode is JSON and the body is
   * not empty.
   */
  lemma TypeErrorIsTheBodyStep(t: Table, parseMethod: string, req: Request, anchored: bool,
                               notFound: string, callsNext: bool)
    requires Wf(t)
    ensures Respond(t, parseMethod, req, anchored, notFound, callsNext) == Failed(TypeErrorThrown)
      <==> && ScanFrom(Steps(t, Lower(req.verb), req.url, anchored), 0).Hit?
           && ParseQuery(req.url).Some?
           && parseMethod == "json" && req.body != ""
  {
    var scan := ScanFrom(Steps(t, Lower(req.verb), req.url, anchored), 0);
    if scan.Hit? && anchored {
      AnchoredIsUnanchored(scan.toks, req.url);
    }
  }

  /**
   * Unanchored, a route without parameters registered first for a method
   * is selected for every URL of that method that contains it: a `/` route
   * registered first captures every request path.
   */
  lemma FirstLiteralRouteCaptures(t: Table, verb: string, url: string, a: nat)
    requires Wf(t) && |t.order| > 0
    requires Plain(t.order[0]) && ':' !in t.order[0]
    requires Lookup(t.routes[t.order[0]], verb).Some?
    requires OccursAt(t.order[0], url, a)
    ensures ScanFrom(Steps(t, verb, url, false), 0).Hit? && ScanFrom(Steps(t, verb, url, false), 0).index == 0
  {
    LiteralRoute(t.order[0], url, false);
  }

  /** The `/` route registered first for GET is selected for every GET request whose URL contains a `/`. */
  lemma RootRouteCapturesEveryGet(t: Table, url: string, a: nat)
    requires Wf(t) && |t.order| > 0 && t.order[0] == "/"
    requires Lookup(t.routes["/"], "get").Some?
    requires a < |url| && url[a] == '/'
    ensures ScanFrom(Steps(t, "get", url, false), 0).Hit? && ScanFrom(Steps(t, "get", url, false), 0).index == 0
  {
    assert url[a..a + 1] == "/";
    FirstLiteralRouteCaptures(t, "get", url, a);
  }

  /**
   * The model leaves the answer undetermined only at a registered route
   * with a regex metacharacter in it: on a table of plain routes every
   * answer is determined.
   */
  lemma UndeterminedOnlyOffFragment(t: Table, parseMethod: string, req: Request, anchored: bool,
                                    notFound: string, callsNext: bool)
    requires Wf(t)
    ensures var o := Respond(t, parseMethod, req, anchored, notFound, callsNext);
      o.Undetermined? ==> o.route in t.routes && !Plain(o.route)
    ensures AllPlain(t) ==> !Respond(t, parseMethod, req, anchored, notFound, callsNext).Undetermined?
  {
    var steps := Steps(t, Lower(req.verb), req.url, anchored);
    var scan := ScanFrom(steps, 0);
    if scan.Beyond? {
      var route := t.order[scan.index];
      assert steps[scan.index] == StepAt(t, Lower(req.verb), req.url, anchored, scan.index);
      if Plain(route) {
        RegExpOfRoute(route);
        assert false;
      }
    }
  }

  /**
   * The `params` of a routed request are the groups of the unanchored
   * `match` of the selected route's pattern: the captures and the literals
   * spell a substring of the URL, every group of the route maps to its own
   * capture, and for a plain route the pattern is the route's tokens.
   */
  lemma RoutedParams(t: Table, parseMethod: string, req: Request, anchored: bool,
                     notFound: string, callsNext: bool)
    requires Wf(t) && Respond(t, parseMethod, req, anchored, notFound, callsNext).Routed?
    ensures var o := Respond(t, parseMethod, req, anchored, notFound, callsNext);
      && NewRegExp(Compile(o.route)).Ok?
      && var toks := NewRegExp(Compile(o.route)).value;
      && (Plain(o.route) ==> toks == Tokens(o.route))
      && Exec(toks, req.url, false).Some?
      && var m := Exec(toks, req.url, false).value;
      && ValidCaps(toks, m.caps)
      && o.params == Groups(toks, m.caps)
      && m.start <= m.end <= |req.url|
      && Fill(toks, m.caps) == req.url[m.start..m.end]
      && forall k :: 0 <= k < |toks| && toks[k].Param? ==>
           && ParamCount(toks[..k]) < |m.caps|
           && o.params.Some? && toks[k].name in o.params.value
           && o.params.value[toks[k].name] == m.caps[ParamCount(toks[..k])]
  {
    var o := Respond(t, parseMethod, req, anchored, notFound, callsNext);
    var verb := Lower(req.verb);
    var steps := Steps(t, verb, req.url, anchored);
    var scan := ScanFrom(steps, 0);
    assert scan.Hit?;
    assert steps[scan.index] == StepAt(t, verb, req.url, anchored, scan.index);
    var toks := scan.toks;
    assert o.route == t.order[scan.index];
    var m := Exec(toks, req.url, false).value;
    ExecSound(toks, req.url, false);
    if Plain(o.route) {
      RegExpOfRoute(o.route);
    }
    forall k | 0 <= k < |toks| && toks[k].Param?
      ensures && ParamCount(toks[..k]) < |m.caps|
              && o.params.Some? && toks[k].name in o.params.value
              && o.params.value[toks[k].name] == m.caps[ParamCount(toks[..k])]
    {
      GroupsLookup(toks, m.caps, k);
      ParamCountPrefix(toks, k);
    }
  }
}
