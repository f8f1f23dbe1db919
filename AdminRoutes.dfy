/**
 * The admin route table: every admin route sits in a group behind
 * authentication, and the two POST routes sit in an inner group that also
 * requires the `admin` role. The update route needs authentication only.
 */
module AdminRoutes {

  datatype HttpMethod = Post | Put

  /** The three admin endpoints. */
  datatype Endpoint = StoreTravel | StoreTour | UpdateTravel

  /** A route middleware: `auth:sanctum`, or `role:<name>`. */
  datatype Guard = Authenticated | HasRole(role: string)

  datatype Route = Route(verb: HttpMethod, uri: string, endpoint: Endpoint, guards: seq<Guard>)

  datatype Decision = Allow | Unauthenticated | Forbidden

  /** The status a refusal is answered with. */
  function DenialStatus(d: Decision): nat
    requires d != Allow
  {
    match d
    case Unauthenticated => 401
    case Forbidden => 403
  }

  /** The outer `admin` group's middleware. */
  const AdminGroup: seq<Guard> := [Authenticated]

  /** The inner group's middleware. */
  const AdminRoleGroup: seq<Guard> := [HasRole("admin")]

  /** The route table, each route carrying the middleware of the groups it is declared in, outermost first. */
  const Routes: seq<Route> := [
    Route(Post, "admin/travels", StoreTravel, AdminGroup + AdminRoleGroup),
    Route(Post, "admin/travels/{travel}/tours", StoreTour, AdminGroup + AdminRoleGroup),
    Route(Put, "admin/travels/{travel}", UpdateTravel, AdminGroup)
  ]

  /** The declared route of an endpoint. */
  function RouteOf(e: Endpoint): (r: Route)
    ensures r in Routes && r.endpoint == e
  {
    match e
    case StoreTravel => Routes[0]
    case StoreTour => Routes[1]
    case UpdateTravel => Routes[2]
  }

  predicate Passes(g: Guard, authenticated: bool, roles: set<string>)
  {
    match g
    case Authenticated => authenticated
    case HasRole(role) => role in roles
  }

  /** What a failing middleware answers. */
  function Refusal(g: Guard): Decision
  {
    match g
    case Authenticated => Unauthenticated
    case HasRole(_) => Forbidden
  }

  /** Guard `i` is the first in `guards` that the caller does not pass. */
  predicate FirstFailure(guards: seq<Guard>, i: int, authenticated: bool, roles: set<string>)
  {
    0 <= i < |guards| && !Passes(guards[i], authenticated, roles) &&
    forall j :: 0 <= j < i ==> Passes(guards[j], authenticated, roles)
  }

  /** Runs the middleware in order; the first one that fails decides. */
  function RunGuards(guards: seq<Guard>, authenticated: bool, roles: set<string>): (d: Decision)
    ensures d == Allow <==> forall i :: 0 <= i < |guards| ==> Passes(guards[i], authenticated, roles)
    ensures d != Allow ==> exists i :: FirstFailure(guards, i, authenticated, roles) && d == Refusal(guards[i])
  {
    if guards == [] then Allow
    else if !Passes(guards[0], authenticated, roles) then Refusal(guards[0])
    else
      var d := RunGuards(guards[1..], authenticated, roles);
      assert d != Allow ==> exists i :: FirstFailure(guards, i, authenticated, roles) && d == Refusal(guards[i]) by {
        if d != Allow {
          var i :| FirstFailure(guards[1..], i, authenticated, roles) && d == Refusal(guards[1..][i]);
          assert guards[i + 1] == guards[1..][i];
          assert forall j :: 1 <= j < i + 1 ==> guards[j] == guards[1..][j - 1];
          assert FirstFailure(guards, i + 1, authenticated, roles);
        }
      }
      d
  }

  /** The gate in front of an endpoint: it depends on nothing but the caller's authentication and roles. */
  function Gate(e: Endpoint, authenticated: bool, roles: set<string>): Decision
  {
    RunGuards(RouteOf(e).guards, authenticated, roles)
  }

  /** Whether an endpoint is declared in the admin-role group. */
  predicate AdminOnly(e: Endpoint)
  {
    e == StoreTravel || e == StoreTour
  }

  // Properties of the gate.

  /** The gate in closed form: no authentication gives 401, then admin-only routes without the role give 403. */
  lemma GateDecision(e: Endpoint, authenticated: bool, roles: set<string>)
    ensures Gate(e, authenticated, roles) ==
      if !authenticated then Unauthenticated
      else if AdminOnly(e) && "admin" !in roles then Forbidden
      else Allow
  {
    var guards := RouteOf(e).guards;
    assert guards[0] == Authenticated;
    if authenticated && AdminOnly(e) {
      assert guards[1] == HasRole("admin");
    }
  }

  /** Every admin route answers an unauthenticated caller with 401, whatever roles are claimed. */
  lemma UnauthenticatedIsAlways401(e: Endpoint, roles: set<string>)
    ensures Gate(e, false, roles) == Unauthenticated
    ensures DenialStatus(Gate(e, false, roles)) == 401
  {
    GateDecision(e, false, roles);
  }

  /** An authenticated caller without the admin role (an editor, say) is refused both POST routes with 403. */
  lemma NonAdminIsForbiddenToCreate(e: Endpoint, roles: set<string>)
    requires AdminOnly(e) && "admin" !in roles
    ensures Gate(e, true, roles) == Forbidden
    ensures DenialStatus(Gate(e, true, roles)) == 403
  {
    GateDecision(e, true, roles);
  }

  /** An authenticated admin may use every admin route. */
  lemma AdminIsAllowedEverywhere(e: Endpoint, roles: set<string>)
    requires "admin" in roles
    ensures Gate(e, true, roles) == Allow
  {
    GateDecision(e, true, roles);
  }

  /** The update route admits any authenticated caller, with any roles or none. */
  lemma UpdateNeedsOnlyAuthentication(roles: set<string>)
    ensures Gate(UpdateTravel, true, roles) == Allow
    ensures RouteOf(UpdateTravel).verb == Put
  {
    GateDecision(UpdateTravel, true, roles);
  }

  /** Holding more roles never turns an allowed request into a refused one. */
  lemma {:induction false} MoreRolesNeverRefuse(guards: seq<Guard>, authenticated: bool, roles: set<string>, more: set<string>)
    requires roles <= more
    requires RunGuards(guards, authenticated, roles) == Allow
    ensures RunGuards(guards, authenticated, more) == Allow
  {
    if guards != [] {
      assert Passes(guards[0], authenticated, roles);
      MoreRolesNeverRefuse(guards[1..], authenticated, roles, more);
    }
  }

  /** The same for the gate of each admin endpoint. */
  lemma GateIsMonotoneInRoles(e: Endpoint, authenticated: bool, roles: set<string>, more: set<string>)
    requires roles <= more && Gate(e, authenticated, roles) == Allow
    ensures Gate(e, authenticated, more) == Allow
  {
    MoreRolesNeverRefuse(RouteOf(e).guards, authenticated, roles, more);
  }
}
