/**
 * `addRouteGroupsFunc` of src/route-groups.js: register every route of
 * every group on an application, its path joined to the group's prefix
 * unless the prefix is missing, empty or `/`.
 */
module RouteGroups {
  import opened Wrappers
  import opened Router
  import opened RoutePlan
  import Fais

  /** The path a route is registered under. */
  function UpdatedPath(prefix: Option<string>, path: string): string {
    if prefix.None? || prefix.value == "" || prefix.value == "/" then path
    else StripSlash(prefix.value + path)
  }

  /** The outer loop over the groups, each handled by `AddGroup`: every route is registered in group order, then route order. */
  method AddRouteGroupsFunc(app: Fais.App, routeGroups: seq<Group>)
    requires app.Valid() && AllKnown(routeGroups)
    modifies app
    ensures app.Valid() && app.parseMethod == old(app.parseMethod)
    ensures app.State() == RegisterAll(old(app.State()), Plan(UpdatedPath, routeGroups))
  {
    ghost var goal := RegisterAll(app.State(), Plan(UpdatedPath, routeGroups));
    var g := 0;
    while g < |routeGroups|
      invariant 0 <= g <= |routeGroups|
      invariant app.Valid() && app.parseMethod == old(app.parseMethod)
      invariant RegisterAll(app.State(), Plan(UpdatedPath, routeGroups[g..])) == goal
    {
      var group := routeGroups[g];
      PlanSplit(UpdatedPath, routeGroups, g);
      ghost var before := app.State();
      AddGroup(app, group.routes, group.prefix);
      RegisterAllConcat(before, RoutesPlan(UpdatedPath, group.prefix, group.routes), Plan(UpdatedPath, routeGroups[g + 1..]));
      g := g + 1;
    }
  }

  /** One group: `const { routes, prefix } = group` and the inner loop over its routes, each iteration being `AddRoute`. */
  method AddGroup(app: Fais.App, routes: seq<RouteDef>, prefix: Option<string>)
    requires app.Valid() && KnownVerbs(routes)
    modifies app
    ensures app.Valid() && app.parseMethod == old(app.parseMethod)
    ensures app.State() == RegisterAll(old(app.State()), RoutesPlan(UpdatedPath, prefix, routes))
  {
    ghost var regs := RoutesPlan(UpdatedPath, prefix, routes);
    ghost var goal := RegisterAll(app.State(), regs);
    var r := 0;
    while r < |routes|
      invariant 0 <= r <= |routes|
      invariant app.Valid() && app.parseMethod == old(app.parseMethod)
      invariant RegisterAll(app.State(), regs[r..]) == goal
    {
      RoutesPlanAt(UpdatedPath, prefix, routes, r);
      ghost var before := app.State();
      AddRoute(app, prefix, routes[r]);
      RegisterAllStep(before, app.State(), regs, r, goal);
      r := r + 1;
    }
    assert regs[|routes|..] == [];
  }

  /**
   * One iteration of the inner loop: `app[method](path, handler)` with the
   * path as given or joined to the prefix; the `continue` after the first
   * registration is the `else` here.
   */
  method AddRoute(app: Fais.App, prefix: Option<string>, route: RouteDef)
    requires app.Valid() && KnownVerb(route.verb)
    modifies app
    ensures app.Valid() && app.parseMethod == old(app.parseMethod)
    ensures app.State() == Register(old(app.State()), UpdatedPath(prefix, route.path), route.verb, route.handler, None)
  {
    if prefix.None? || prefix.value == "" || prefix.value == "/" {
      app.Verb(route.verb, route.path, [route.handler]);
    } else {
      var updatedPath := StripSlash(prefix.value + route.path);
      app.Verb(route.verb, updatedPath, [route.handler]);
    }
  }

  /** The example of the doc comment: under `/welcome`, `/` becomes `/welcome` and `/home` becomes `/welcome/home`. */
  lemma WelcomeExample()
    ensures UpdatedPath(Some("/welcome"), "/") == "/welcome"
    ensures UpdatedPath(Some("/welcome"), "/home") == "/welcome/home"
  {
    assert ("/welcome" + "/")[..|"/welcome" + "/"| - 1] == "/welcome";
  }

  /** A missing, empty or `/` prefix registers the path as given, a trailing `/` included. */
  lemma NoPrefixKeepsPath(prefix: Option<string>, path: string)
    requires prefix.None? || prefix == Some("") || prefix == Some("/")
    ensures UpdatedPath(prefix, path) == path
  {
  }

  /** Any other prefix is joined to the path, and at most one trailing `/` is dropped. */
  lemma PrefixJoins(prefix: string, path: string)
    requires prefix != "" && prefix != "/"
    ensures var p := UpdatedPath(Some(prefix), path);
      prefix + path == p || prefix + path == p + "/"
  {
  }
}
