/**
 * `addRouteGroups` of src/utils/route-groups.js: the same nested loops as
 * src/route-groups.js, but every path is joined to the prefix as written,
 * a missing prefix rendering as `undefined`, and one trailing `/` dropped.
 */
module UtilsRouteGroups {
  import opened Wrappers
  import opened Router
  import opened RoutePlan
  import RouteGroups
  import Fais

  /** `${prefix}`: a missing prefix renders as `undefined`. */
  function PrefixText(prefix: Option<string>): string {
    if prefix.None? then "undefined" else prefix.value
  }

  /** The path a route is registered under. */
  function UpdatedPath(prefix: Option<string>, path: string): string {
    StripSlash(PrefixText(prefix) + path)
  }

  /** The outer loop over the groups, each handled by `AddGroup`: every route is registered in group order, then route order. */
  method AddRouteGroups(app: Fais.App, routeGroups: seq<Group>)
    requires app.Valid() && AllKnown(routeGroups)
    modifies app
    ensures app.Valid() && app.parseMethod == old(app.parseMethod)
    ensures app.State() == RegisterAll(old(app.State()), Plan(UpdatedPath, routeGroups))
  {
    ghost var goal := RegisterAll(app.State(), Plan(UpdatedPath, routeGroups));
    var g := 0;
    while g < |routeGroups|
      invariant 0 <= g <= |routeGroups|
      invariant app.Valid() && app.parseMethod == old(app.parseMethod)
      invariant RegisterAll(app.State(), Plan(UpdatedPath, routeGroups[g..])) == goal
    {
      var group := routeGroups[g];
      PlanSplit(UpdatedPath, routeGroups, g);
      ghost var before := app.State();
      AddGroup(app, group.routes, group.prefix);
      RegisterAllConcat(before, RoutesPlan(UpdatedPath, group.prefix, group.routes), Plan(UpdatedPath, routeGroups[g + 1..]));
      g := g + 1;
    }
  }

  /** One group: `const { routes, prefix } = group` and the inner loop, each iteration calling `app[method](path, handler)`. */
  method AddGroup(app: Fais.App, routes: seq<RouteDef>, prefix: Option<string>)
    requires app.Valid() && KnownVerbs(routes)
    modifies app
    ensures app.Valid() && app.parseMethod == old(app.parseMethod)
    ensures app.State() == RegisterAll(old(app.State()), RoutesPlan(UpdatedPath, prefix, routes))
  {
    ghost var regs := RoutesPlan(UpdatedPath, prefix, routes);
    ghost var goal := RegisterAll(app.State(), regs);
    var r := 0;
    while r < |routes|
      invariant 0 <= r <= |routes|
      invariant app.Valid() && app.parseMethod == old(app.parseMethod)
      invariant RegisterAll(app.State(), regs[r..]) == goal
    {
      RoutesPlanAt(UpdatedPath, prefix, routes, r);
      ghost var before := app.State();
      var route := routes[r];
      var updatedPath := StripSlash(PrefixText(prefix) + route.path);
      assert updatedPath == regs[r].path;
      app.Verb(route.verb, updatedPath, [route.handler]);
      RegisterAllStep(before, app.State(), regs, r, goal);
      r := r + 1;
    }
    assert regs[|routes|..] == [];
  }

  /** With an empty prefix, the route `/` is registered under the empty path. */
  lemma EmptyPrefixRootIsEmpty()
    ensures UpdatedPath(Some(""), "/") == ""
  {
    assert "" + "/" == "/";
  }

  /** A missing prefix is joined as the text `undefined`. */
  lemma MissingPrefixIsUndefined(path: string)
    ensures var p := UpdatedPath(None, path);
      "undefined" + path == p || "undefined" + path == p + "/"
  {
  }

  /** For a prefix that is neither empty nor `/`, both helpers register the same path. */
  lemma AgreesWithRouteGroups(prefix: string, path: string)
    requires prefix != "" && prefix != "/"
    ensures UpdatedPath(Some(prefix), path) == RouteGroups.UpdatedPath(Some(prefix), path)
  {
  }

  /**
   * When every group has a prefix that is neither empty nor `/`, both
   * helpers issue the same registrations and leave the same table.
   */
  lemma {:induction false} SamePlanAsRouteGroups(groups: seq<Group>)
    requires forall g :: 0 <= g < |groups| ==>
      groups[g].prefix.Some? && groups[g].prefix.value != "" && groups[g].prefix.value != "/"
    ensures Plan(UpdatedPath, groups) == Plan(RouteGroups.UpdatedPath, groups)
    decreases |groups|
  {
    if groups != [] {
      SamePlanAsRouteGroups(groups[1..]);
      var prefix, routes := groups[0].prefix, groups[0].routes;
      assert RoutesPlan(UpdatedPath, prefix, routes) == RoutesPlan(RouteGroups.UpdatedPath, prefix, routes);
    }
  }

  /**
   * The two helpers differ on a `/` prefix: src/route-groups.js keeps
   * `/home/` as given, this one registers `//home`.
   */
  lemma DiffersOnSlashPrefix()
    ensures RouteGroups.UpdatedPath(Some("/"), "/home/") == "/home/"
    ensures UpdatedPath(Some("/"), "/home/") == "//home"
  {
    assert ("/" + "/home/")[..|"/" + "/home/"| - 1] == "//home";
  }
}
