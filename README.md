# Fais routing core, modelled in Dafny

Fais is a small Node.js web framework. An application object keeps a
route table and registers handlers through `get`, `post`, `put` and
`delete`. Each request goes through one loop: the loop compiles every
registered path with `urlParser`, tests the resulting `RegExp` against
the URL, and hands the first route with a handler for the request's
method the captured parameters, the decoded query (`queryParser`) and
the body. Two helpers register whole groups of routes under a common
prefix. The repository holds two generations of the core:

- `src/`: unanchored matching and a `Not found` answer.
- `fais1/`: anchored `^…$` matching, a `/public` static-file shortcut,
  and a 404 body that names the URL.

This project models both generations side by side:

| module | file | models |
|---|---|---|
| `Wrappers` | wrappers.dfy | `Option` and `Result` |
| `UrlParser` | url_parser.dfy | `urlParser` of src/url-parser.js. The method keeps the index loop and its look-ahead inner loop. It is proved equal to `Compile`, whose output is the rendering of a token sequence (`Lit(c)` or `Param(name)`). |
| `UrlParser1` | url_parser_1.dfy | `urlParser` of fais1/url-parser-1.js, proved to compute the same `Compile` |
| `Regex` | regex.dfy | The fragment of JavaScript regular expressions the compiler emits. Parsing a source back into tokens models `new RegExp`, including its `SyntaxError` for bad or duplicate group names. A backtracking matcher with greedy `\w+` models `test`/`match`. `groups` is a map, or `undefined` when the pattern has no groups. |
| `UriCodec` | uri_codec.dfy | `decodeURIComponent` (percent escapes, UTF-8, `URIError`) and an `encodeURIComponent` partner |
| `QueryParser` | query_parser.dfy | `queryParser` of src/query-parser.js. The method keeps the loop that writes into `params`, proved against `ParseQuery`. |
| `Router` | router.dfy | What both generations share: `registerPath`'s merge, the registrars' arity rule, and the request loop as a scan over per-route verdicts, followed by params, query, body and middleware |
| `Fais` | fais.dfy | The application object of src/fais.js, a class whose methods rewrite `routeTable` and its key order |
| `Fais1` | fais_1.dfy | The application object of fais1/fais-1.js, adding `assets` and the `/public` shortcut |
| `RoutePlan` | route_plan.dfy | The registrations a list of groups issues, and the table they leave |
| `RouteGroups` | route_groups.dfy | `addRouteGroupsFunc` of src/route-groups.js |
| `UtilsRouteGroups` | utils_route_groups.dfy | `addRouteGroups` of src/utils/route-groups.js |

Modelling choices:

- **Request callback.** It is a method of the application class. Its
  `ensures` ties the answer to a function (`Serve`) of the table, the body
  mode, the request and one boolean that says whether the middleware calls
  `next`.
- **Answers.** An exception that escapes the callback (`SyntaxError`,
  `URIError`, `TypeError`) is an answer of its own. When the loop reaches
  a route whose compiled source lies outside the modelled fragment (a
  metacharacter that is not part of a complete `(?<name>\w+)` group, such
  as the `.` of `/v1.0`), the answer is `Undetermined`: the model does not
  say whether JavaScript would match that pattern. A complete group written
  into the route text, as in `/(?<id>\w+)`, is inside the fragment and is
  compiled, tested or rejected like one that `:id` produces.
- **Callbacks.** They are known only by their identity.
- **Query and body.** `queryParser` returns `None` where
  `decodeURIComponent` would throw. The body is the text `readBody` would
  collect.

## Model

| member | source | states |
|---|---|---|
| UrlParser.UrlParser | src/url-parser.js:6-29 | The loop's output is `Compile(url)`, the rendering of the token sequence of `url` |
| UrlParser.WordRunEnd | src/url-parser.js:14-20 | The end of the name run lies between its start and the end of the pattern |
| UrlParser.WordRunIsMaximal | src/url-parser.js:14-22 | A parameter name is the maximal run of word characters after the `:`: every character in it is a word character, and the character that stops it is not |
| UrlParser.CompileRendersTokens | src/url-parser.js:9-26 | The accumulated string equals the rendering of the tokens: each literal as itself, each parameter as `(?<name>\w+)` |
| UrlParser.NoColonCompilesToItself | src/url-parser.js:9-26 | A pattern without `:` compiles to itself unchanged |
| UrlParser.ColonStep | src/url-parser.js:11-22 | At a `:` followed by the word run `name`, the output gets exactly the group for `name`, and scanning resumes at the first character after the run |
| UrlParser.LiteralStep | src/url-parser.js:23-24 | Any character other than `:`, a regex metacharacter included, is copied without escaping |
| UrlParser.EmptyNameGroup | src/url-parser.js:12-21 | A `:` at the end, or one before a non-word character, gives a group with an empty name, `(?<>\w+)` |
| UrlParser.ParamCountIsColonCount | src/url-parser.js:11-21 | The number of capture groups equals the number of `:` characters in the pattern |
| UrlParser.TokensRoundTrip | src/url-parser.js:9-26 | Reading the tokens back as a pattern gives the original pattern: tokenisation loses nothing |
| UrlParser.TokensWellFormed | src/url-parser.js:14-22 | Every group has a word-character name; a group is followed by another group, by a non-word literal or by the end; no literal is a `:` |
| UrlParser.TokensUnique | src/url-parser.js:9-26 | A well-formed token sequence that reads back as the pattern is the tokenisation of that pattern, so the split is unique |
| UrlParser1.UrlParser | fais1/url-parser-1.js:1-22 | The fais1 compiler computes the same `Compile(url)` as src/url-parser.js for every input |
| Regex.RegExpOfRoute | src/fais.js:54-56 | For a plain route, `new RegExp` of the compiled source gives back the route's tokens, or a `SyntaxError` when a group name is empty, starts with a digit or repeats |
| Regex.WrittenGroupIsInFragment | src/fais.js:54-56 | A route that spells a complete `(?<name>\w+)` group itself is not plain, yet `new RegExp` of its compiled source gives the same pattern as `/:name`, or a `SyntaxError` exactly when the name is empty or starts with a digit |
| Regex.ParseRender | src/fais.js:56 | Parsing the rendering of plain tokens gives the tokens back |
| Regex.MatchAtSound | src/fais.js:63 | A match found at a position fills the literals and the `\w+` captures into exactly the matched text, ending at the end when anchored |
| Regex.MatchAtComplete | src/fais.js:63 | Any way of filling the pattern that spells a substring starting at that position is found by the backtracking matcher |
| Regex.SearchSound | src/fais.js:63 | The search returns the leftmost start at which the pattern matches |
| Regex.SearchComplete | src/fais.js:63 | A match at any position is found, at that position or to its left |
| Regex.ExecSound | src/fais.js:55-56 | A successful `test`/`match` spells out a substring of the URL, the whole URL when anchored |
| Regex.ExecComplete | src/fais.js:55-56 | Whenever the pattern can spell a substring of the URL (the whole URL when anchored), `test` succeeds |
| Regex.ExecLeftmost | src/fais.js:63 | No match of the pattern starts before the one `match` returns |
| Regex.AdjacentGroupsSplitTheRun | src/url-parser.js:14-21 | `/:a:b` compiles to two adjacent groups, and against `xyz` the first captures `xy` and the second `z`: adjacent groups split a run by backtracking |
| Regex.ParamTakesWholeRun | src/fais.js:63-66 | A group followed by a literal or the end captures the whole word run at its position (greedy `\w+` is deterministic here) |
| Regex.GroupsDomain | src/fais.js:66 | `m.groups` has a key only for a group name of the pattern |
| Regex.GroupsLookup | src/fais.js:66 | Each named group maps to the capture of its own position |
| Regex.FillPlain | src/fais.js:63 | The text a plain pattern matches holds no regex metacharacter |
| Regex.LiteralRoute | src/fais.js:55-56 | A plain route without `:` compiles, and it matches a URL exactly when it occurs in it (unanchored) or equals it (anchored) |
| Regex.AnchoredIsUnanchored | fais1/fais-1.js:82-88 | A URL that matches `^p$` also matches `p`, so the unanchored `match` after an anchored `test` always succeeds |
| Regex.AnchoredMatchIsPlain | fais1/fais-1.js:82-83 | A URL that matches a plain pattern anchored holds no `?` or other metacharacter |
| UriCodec.EscapedByte | src/query-parser.js:18-19 | An escape is `%` and two hex digits, and its value is a byte |
| UriCodec.DecodeWithoutPercent | src/query-parser.js:18-19 | Text without `%` decodes to itself |
| UriCodec.DecodeShrinks | src/query-parser.js:18-19 | Decoding never lengthens the text |
| UriCodec.DecodeRejectsBadEscape | src/query-parser.js:18-19 | A `%` not followed by two hex digits makes decoding throw `URIError` |
| UriCodec.EscapesAreWellFormed | src/query-parser.js:18-19 | Every `%` inside a decoded run of escapes starts a well-formed escape |
| UriCodec.Utf8RoundTrip | src/query-parser.js:18-19 | Every code point's UTF-8 bytes have the lead byte for their length and decode back to the code point |
| UriCodec.DecodeEncode | src/query-parser.js:18-19 | Decoding the percent-encoding of any text gives the text back |
| QueryParser.QueryParser | src/query-parser.js:6-24 | The loop writing into `params` computes `ParseQuery(url)` |
| QueryParser.IndexOf | src/query-parser.js:7 | `indexOf` is the first occurrence, or none exactly when the character is absent |
| QueryParser.SplitJoin | src/query-parser.js:13 | Joining the pieces of `split` with the separator gives the text back |
| QueryParser.JoinSplit | src/query-parser.js:13 | Splitting pieces joined with the separator gives the pieces back, when none holds it |
| QueryParser.SplitPiecesLackSep | src/query-parser.js:13 | No piece of `split` holds the separator |
| QueryParser.SplitAtSep | src/query-parser.js:13 | Splitting distributes over a separator: `a + sep + b` splits into the pieces of `a` followed by those of `b` |
| QueryParser.NoQueryString | src/query-parser.js:7-10 | A URL without `?` gives the empty object |
| QueryParser.QueryAfterFirstMark | src/query-parser.js:7-13 | Only the text after the first `?` is split on `&` and assigned; a later `?` stays in a key or value |
| QueryParser.ValueStopsAtSecondEquals | src/query-parser.js:17 | In a piece with two or more `=`, the value is the text between the first and the second |
| QueryParser.MissingValueIsUndefined | src/query-parser.js:17-19 | A piece without `=` gets the value `"undefined"`, and fails exactly when its key fails to decode |
| QueryParser.FailsIffSomePieceFails | src/query-parser.js:16-21 | The parse throws exactly when some piece fails to decode |
| QueryParser.KeyUntouched | src/query-parser.js:16-21 | A key that no piece decodes to keeps its earlier presence and value |
| QueryParser.LastWins | src/query-parser.js:20 | When a key repeats, the last piece with that key decides its value |
| QueryParser.KeysBound | src/query-parser.js:16-21 | Each piece adds at most one key |
| QueryParser.QueryKeysBound | src/query-parser.js:13-21 | The object has at most as many keys as the query has `&`-separated pieces |
| Router.RegisterKeys | src/fais.js:94-102 | Registration creates the record of a new path at the end of the key order, keeps an existing path's place, and leaves other paths untouched |
| Router.RegisterSlots | src/fais.js:98-102 | The record gets the method's handler and middleware, and every other property, including other methods' slots, keeps its value |
| Router.ReRegisterReplaces | src/fais.js:98-102 | Registering the same path and method twice leaves the table the second registration alone would leave |
| Router.Lower | src/fais.js:57 | `toLowerCase` keeps the length and lower-cases each character |
| Router.StepAt | src/fais.js:54-58 | A route's verdict throws exactly when the constructor raises `SyntaxError`, is unmodelled exactly when the compiled source lies outside the modelled fragment, and is taken exactly when the compiled pattern matches and the record has a handler for the method, being passed over otherwise |
| Router.ScanFrom | src/fais.js:52-86 | The loop stops on a taken route, with that route's tokens and handler, or on an unmodelled one |
| Router.ScanSelectsFirst | src/fais.js:50-58 | The loop selects position `j` exactly when route `j` is taken and every earlier route is passed over; later routes are never examined |
| Router.ScanMisses | src/fais.js:52-87 | The loop ends without a match exactly when every route is passed over |
| Router.Proceed | src/fais.js:59-85 | After selection the outcome is routed to the selected route and handler, or it is an escaping exception |
| Router.Respond | src/fais.js:49-91 | The answer is 404 with the given body exactly when the loop ends without a match, and never a static file |
| Router.NotFoundWhenNoneSelected | src/fais.js:88-91 | The 404 answer is given exactly when every route is passed over |
| Router.UndeterminedOnlyOffFragment | src/fais.js:54-56 | The answer is undetermined only at a registered route with a regex metacharacter, so on a table of plain routes every answer is determined |
| Router.RoutedParams | src/fais.js:63-66 | A routed request's `params` are the groups of the unanchored `match` of the selected route: the captures and literals spell a substring of the URL, each group of the route maps to its own capture, and a plain route's pattern is its own tokens |
| Router.RoutedToFirstEligible | src/fais.js:50-85 | A routed request went to the first eligible route, with that route's handler and middleware, the parsed query and body; the handler runs exactly when there is no middleware or it calls `next` |
| Router.TypeErrorIsTheBodyStep | src/fais.js:69-72 | `TypeError` escapes exactly when a route is selected, the query decodes, the mode is JSON and the body is not empty |
| Router.FirstLiteralRouteCaptures | src/fais.js:55-56 | Unanchored, a plain (no regex metacharacter) parameter-free route registered first is selected for every URL of its method that contains it |
| Router.RootRouteCapturesEveryGet | src/fais.js:55-58 | A `/` route registered first for GET is selected for every GET URL containing a `/` |
| Fais.App.constructor | src/fais.js:30-32 | A new application has an empty table and the JSON body mode |
| Fais.App.RegisterPath | src/fais.js:94-103 | The table becomes the merge of the record with the method's handler and middleware slots, still well formed |
| Fais.App.Verb | src/fais.js:106-133 | One callback registers it as handler with no middleware; otherwise the first is the middleware and the second the handler |
| Fais.App.Get | src/fais.js:106-112 | `get` registers through the arity rule under `get` |
| Fais.App.Post | src/fais.js:113-119 | `post` registers through the arity rule under `post` |
| Fais.App.Put | src/fais.js:120-126 | `put` registers through the arity rule under `put` |
| Fais.App.Delete | src/fais.js:127-133 | `delete` registers through the arity rule under `delete` |
| Fais.App.BodyParse | src/fais.js:134 | The body mode becomes the argument and the table is unchanged |
| Fais.App.Handle | src/fais.js:49-92 | The request loop answers `Serve`: the unanchored selection, followed by params, query, body and middleware, or `Not found`, for any table |
| Fais.App.TestRoute | src/fais.js:54-58 | One iteration's test computes that route's verdict |
| Fais.App.Selected | src/fais.js:59-85 | The steps after selection compute `Proceed` for the selected route |
| Fais.NotFoundAnswer | src/fais.js:88-91 | The answer is status 404 with body `Not found` exactly when no route is selected |
| Fais.RootRouteTakesEveryGet | src/fais.js:55-58 | With `/` registered first for GET, no GET request whose URL has a `/` gets a 404, and a routed one goes to `/` |
| Fais.SingleCallbackClearsMiddleware | src/fais.js:107-108 | A single callback becomes the handler and clears the method's middleware |
| Fais.TwoCallbacksSetMiddleware | src/fais.js:109-110 | With two callbacks the first is the middleware and the second the handler |
| Fais1.App.constructor | fais1/fais-1.js:45-47 | A new application has an empty table and the JSON body mode; the assets folder starts as `/public` |
| Fais1.App.Assets | fais1/fais-1.js:129-131 | `assets` sets the folder and nothing else |
| Fais1.App.RegisterPath | fais1/fais-1.js:117-126 | The table becomes the merge of the record with the method's slots |
| Fais1.App.Verb | fais1/fais-1.js:133-160 | The same arity rule as src/fais.js |
| Fais1.App.Get | fais1/fais-1.js:133-139 | `get` registers through the arity rule |
| Fais1.App.Post | fais1/fais-1.js:140-146 | `post` registers through the arity rule |
| Fais1.App.Put | fais1/fais-1.js:147-153 | `put` registers through the arity rule |
| Fais1.App.Delete | fais1/fais-1.js:154-160 | `delete` registers through the arity rule |
| Fais1.App.BodyParse | fais1/fais-1.js:161 | The body mode becomes the argument and the table is unchanged |
| Fais1.App.Handle | fais1/fais-1.js:65-115 | The request callback answers `Serve`: `/public` first, then the anchored selection, or the 404 naming the URL, for any table |
| Fais1.App.TestRoute | fais1/fais-1.js:79-84 | One iteration's anchored test computes that route's verdict |
| Fais1.App.Selected | fais1/fais-1.js:85-108 | The steps after selection compute `Proceed`, with the parameters of the unanchored `match` |
| Fais1.PublicBypassesRoutes | fais1/fais-1.js:71-76 | Every URL starting with `/public` is served as a static file, whatever the routes and the assets folder |
| Fais1.NotFoundNamesTheUrl | fais1/fais-1.js:111-114 | The 404 answer is given exactly when no route is selected, with body `<url> Route Not found` |
| Fais1.LiteralRouteMatchesOnlyItself | fais1/fais-1.js:80-84 | A request routed to a plain (no regex metacharacter) parameter-free route has exactly that URL, so `/home` never takes `/home/extra` |
| Fais1.QueryStringIsNeverRouted | fais1/fais-1.js:82-91 | On a table of plain routes (no regex metacharacter) the whole URL, query included, must match, so a routed URL has no `?` and an empty query |
| RoutePlan.StripSlash | src/route-groups.js:28 | `replace(/\/$/, "")` removes one trailing `/`, exactly when there is one |
| RoutePlan.RegisterAllConcat | src/route-groups.js:18-21 | Registering two lists in turn leaves the table that registering their concatenation leaves |
| RoutePlan.RoutesPlanAt | src/route-groups.js:21-29 | Each route of a group yields one registration, with its own method and handler and the joined path |
| RoutePlan.PlanPosition | src/route-groups.js:18-29 | Each route of each group is registered exactly once, at its place in group order then route order |
| RoutePlan.PlanLength | src/route-groups.js:18-21 | There are exactly as many registrations as routes |
| RouteGroups.AddRouteGroupsFunc | src/route-groups.js:17-32 | The nested loops leave the table that registering the plan in group order, then route order, leaves |
| RouteGroups.AddGroup | src/route-groups.js:19-30 | One group's inner loop registers its routes in order |
| RouteGroups.AddRoute | src/route-groups.js:24-29 | One route is registered under its updated path with its method and handler, and without middleware |
| RouteGroups.WelcomeExample | src/route-groups.js:6-15 | Under `/welcome`, `/` registers `/welcome` and `/home` registers `/welcome/home` |
| RouteGroups.NoPrefixKeepsPath | src/route-groups.js:24-27 | A missing, empty or `/` prefix registers the path unchanged, trailing `/` included |
| RouteGroups.PrefixJoins | src/route-groups.js:28 | Any other prefix is joined to the path and at most one trailing `/` is removed |
| UtilsRouteGroups.AddRouteGroups | src/utils/route-groups.js:17-26 | The nested loops leave the table that registering the plan in group order, then route order, leaves |
| UtilsRouteGroups.AddGroup | src/utils/route-groups.js:19-24 | One group's inner loop registers its routes in order, under the joined path |
| UtilsRouteGroups.EmptyPrefixRootIsEmpty | src/utils/route-groups.js:22 | An empty prefix with path `/` registers the empty path |
| UtilsRouteGroups.MissingPrefixIsUndefined | src/utils/route-groups.js:22 | A missing prefix is joined as the text `undefined`, with at most one trailing `/` removed |
| UtilsRouteGroups.AgreesWithRouteGroups | src/utils/route-groups.js:22 | For a prefix other than empty or `/`, the path equals the one src/route-groups.js registers |
| UtilsRouteGroups.SamePlanAsRouteGroups | src/utils/route-groups.js:17-26 | When no group has a missing, empty or `/` prefix, both helpers issue the same registrations |
| UtilsRouteGroups.DiffersOnSlashPrefix | src/utils/route-groups.js:22 | On a `/` prefix the helpers differ: `/home/` stays `/home/` in one and becomes `//home` in the other |

## Left out

- The HTTP server, `listen` and `_server`: network I/O. The request callback is a method that takes the request as a value.
- `readBody`: stream I/O. The body is given as the text it would collect, and a stream error is not modelled.
- The JSON body step calls `JSON.urlParser`, which does not exist. The model keeps only its effect, a `TypeError` on any non-empty body in JSON mode, and an empty body gives `{}`.
- `createResponse`, `res.send`, `res.json` and `res.render`: response writes and foreign libraries. An answer is an `Outcome` value.
- `nunjucks`, src/view-engins.js and the static-file stream of fais1: foreign libraries and file I/O. A `/public` URL is answered `Static(url)`.
- `processMiddleware`: the promise and the `next` callback are reduced to one boolean, whether the middleware calls `next`. A middleware that never calls `next` leaves the request unanswered; the model records this as "handler does not run".
- Handlers and middleware are opaque callbacks: what they write is not modelled.
- fais1/query-parser-1.js is not part of this model. The fais1 module uses the src/query-parser.js parser.
- Router.StepAt: only the `(?<name>\w+)` fragment of JavaScript regular expressions is modelled. A route whose compiled source lies outside that fragment (a metacharacter that is not part of a complete `(?<name>\w+)` group, such as the `.` of `/v1.0`) gets the verdict `Unmodelled`, and the loop's answer from that route on is `Undetermined`, where JavaScript would build the pattern and test it.
- Fais.App.Handle: answers `Undetermined` when the loop reaches a route outside the modelled fragment, as `Router.StepAt` describes.
- Fais1.App.Handle: the same `Undetermined` answer as `Fais.App.Handle`.
- Regex.RegExpOfRoute: stated for plain routes only. `new RegExp` of any source outside the modelled fragment is answered `Unsupported` instead of following full JavaScript syntax.
- Router.Lower: `toLowerCase` is modelled on ASCII letters only. HTTP method names are ASCII.
- Strings are sequences of Unicode scalar values, not UTF-16 code units, so a lone surrogate written directly in a URL cannot be represented. An escape that decodes to a surrogate throws `URIError`, as in JavaScript.
- `Object.keys` order: keys are kept in first-registration order. JavaScript lists integer-like keys first, and the model does not model that.
- Paths and method names that collide with `Object.prototype` properties (such as `constructor`) are not modelled. A `__proto__` query key is modelled as the no-op assignment it is.
- RouteGroups.AddRouteGroupsFunc: requires every route's method to be `get`, `post`, `put` or `delete`. Another name either throws a `TypeError` (`_server`, or a name found neither on the app object nor on its prototype), or calls a different function: `bodyParse` sets the body mode to the path, `listen` starts the server, and inherited `Object.prototype` methods such as `toString` run. None of this is modelled.
- RouteGroups.AddGroup: the same known-method requirement as `RouteGroups.AddRouteGroupsFunc`.
- RouteGroups.AddRoute: the same known-method requirement as `RouteGroups.AddRouteGroupsFunc`.
- UtilsRouteGroups.AddRouteGroups: the same known-method requirement as `RouteGroups.AddRouteGroupsFunc`.
- UtilsRouteGroups.AddGroup: the same known-method requirement as `RouteGroups.AddRouteGroupsFunc`.
- A prefix is either absent or a string. Other falsy values (`0`, `null`, `false`) are folded into "absent" for src/route-groups.js, and non-string prefixes are not modelled.
- Callbacks that are not functions are not modelled. A registered slot is a callback or `undefined`.
- `assetsFolder` is module-level state in fais1/fais-1.js. Here it is a field of the application object; nothing reads it.
- The `continue` in src/route-groups.js is modelled as an `if`/`else` with the same effect. Each loop body is a method of its own (`AddGroup`, `AddRoute`, `TestRoute`, `Selected`).
- The demo applications (example/, _index.js) are not part of this model.
