/**
 * What the two route-group helpers have in common: the shape of a group,
 * the registrations they issue, and the table those registrations leave.
 */
module RoutePlan {
  import opened Wrappers
  import opened Router

  /** A route object `{ method, path, handler }`. */
  datatype RouteDef = RouteDef(verb: string, path: string, handler: Slot)

  /** A group object `{ routes, prefix }`; a missing prefix is `None`. */
  datatype Group = Group(routes: seq<RouteDef>, prefix: Option<string>)

  /** The registrar names an application object has: `app[method]` is one of these. */
  predicate KnownVerb(verb: string) {
    verb == "get" || verb == "post" || verb == "put" || verb == "delete"
  }

  predicate KnownVerbs(routes: seq<RouteDef>) {
    forall r :: 0 <= r < |routes| ==> KnownVerb(routes[r].verb)
  }

  predicate AllKnown(groups: seq<Group>) {
    forall g :: 0 <= g < |groups| ==> KnownVerbs(groups[g].routes)
  }

  /** `s.replace(/\/$/, "")`: one trailing `/` removed. */
  function StripSlash(s: string): (r: string)
    ensures s == r || s == r + "/"
    ensures s == r + "/" <==> |s| > 0 && s[|s| - 1] == '/'
  {
    if |s| > 0 && s[|s| - 1] == '/' then s[..|s| - 1] else s
  }

  /** `app[method](path, handler)` for each registration in turn: one handler, so no middleware. */
  function RegisterAll(t: Table, regs: seq<RouteDef>): Table
    decreases |regs|
  {
    if regs == [] then t
    else RegisterAll(Register(t, regs[0].path, regs[0].verb, regs[0].handler, None), regs[1..])
  }

  /** One registration of a loop that is to leave `goal` after the registrations `regs[r..]`. */
  lemma RegisterAllStep(before: Table, after: Table, regs: seq<RouteDef>, r: nat, goal: Table)
    requires r < |regs| && RegisterAll(before, regs[r..]) == goal
    requires after == Register(before, regs[r].path, regs[r].verb, regs[r].handler, None)
    ensures RegisterAll(after, regs[r + 1..]) == goal
  {
    assert regs[r..][1..] == regs[r + 1..];
  }

  /** Registering `a` and then `b` leaves the table that registering `a + b` does. */
  lemma {:induction false} RegisterAllConcat(t: Table, a: seq<RouteDef>, b: seq<RouteDef>)
    ensures RegisterAll(t, a + b) == RegisterAll(RegisterAll(t, a), b)
    decreases |a|
  {
    if a == [] {
      assert a + b == b;
    } else {
      assert (a + b)[1..] == a[1..] + b;
      RegisterAllConcat(Register(t, a[0].path, a[0].verb, a[0].handler, None), a[1..], b);
    }
  }

  /** How a helper turns a group's prefix and a route's path into the registered path. */
  type PathJoin = (Option<string>, string) -> string

  /** The registrations for one group's routes, in route order. */
  function RoutesPlan(join: PathJoin, prefix: Option<string>, routes: seq<RouteDef>): (regs: seq<RouteDef>)
    ensures |regs| == |routes|
  {
    seq(|routes|, k requires 0 <= k < |routes| =>
      RouteDef(routes[k].verb, join(prefix, routes[k].path), routes[k].handler))
  }

  lemma RoutesPlanAt(join: PathJoin, prefix: Option<string>, routes: seq<RouteDef>, r: nat)
    requires r < |routes|
    ensures RoutesPlan(join, prefix, routes)[r] == RouteDef(routes[r].verb, join(prefix, routes[r].path), routes[r].handler)
  {
  }

  /** The registrations for all groups: group order, then route order. */
  function Plan(join: PathJoin, groups: seq<Group>): seq<RouteDef> {
    if groups == [] then [] else RoutesPlan(join, groups[0].prefix, groups[0].routes) + Plan(join, groups[1..])
  }

  /** The number of routes in `groups`. */
  function RouteCount(groups: seq<Group>): nat {
    if groups == [] then 0 else |groups[0].routes| + RouteCount(groups[1..])
  }

  lemma PlanSplit(join: PathJoin, groups: seq<Group>, g: nat)
    requires g < |groups|
    ensures Plan(join, groups[g..]) == RoutesPlan(join, groups[g].prefix, groups[g].routes) + Plan(join, groups[g + 1..])
  {
    assert groups[g..][1..] == groups[g + 1..];
  }

  /**
   * Each route of each group is registered exactly once, with its own
   * method and handler, at position `RouteCount(groups[..g]) + r`: group
   * order first, then route order.
   */
  lemma {:induction false} PlanPosition(join: PathJoin, groups: seq<Group>, g: nat, r: nat)
    requires g < |groups| && r < |groups[g].routes|
    ensures |Plan(join, groups)| == RouteCount(groups)
    ensures RouteCount(groups[..g]) + r < |Plan(join, groups)|
    ensures var route := groups[g].routes[r];
      Plan(join, groups)[RouteCount(groups[..g]) + r]
        == RouteDef(route.verb, join(groups[g].prefix, route.path), route.handler)
    decreases g
  {
    PlanLength(join, groups);
    if g > 0 {
      PlanPosition(join, groups[1..], g - 1, r);
      assert groups[1..][g - 1] == groups[g];
      assert groups[..g][1..] == groups[1..][..g - 1];
    } else {
      assert groups[..0] == [];
    }
  }

  lemma {:induction false} PlanLength(join: PathJoin, groups: seq<Group>)
    ensures |Plan(join, groups)| == RouteCount(groups)
    decreases |groups|
  {
    if groups != [] {
      PlanLength(join, groups[1..]);
    }
  }
}
