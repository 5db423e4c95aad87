/**
 * The `auth` middleware (src/middlewares/auth.middleware.ts).
 *
 * A request passes when it carries an `authorization` header, the token in it
 * verifies, and the roles of the token's user grant the action on the route.
 * Roles are scanned in order and the first role that decides wins: a role with
 * no permission configuration denies, a role whose configuration has no entry
 * for the route allows, a role whose entry lists the action allows, and a role
 * whose entry does not list it hands over to the next role. When no role
 * decides, access is denied.
 *
 * Token verification (a signed-token library keyed by the configured secret)
 * is a parameter: a function from the token to the decoded claims, or to
 * nothing when verification fails.
 */
module AuthMiddleware {
  import opened Optional

  datatype Role = Role(name: string)

  /** The part of the decoded token the middleware reads: `auth.user.roles`. */
  datatype TokenUser = TokenUser(roles: seq<Role>)
  datatype Claims = Claims(user: TokenUser)

  /** What the middleware reads of the request. */
  datatype Request = Request(
    authorization: Option<string>,
    verb: string,
    hasId: bool,
    routeName: string)

  /** The configured permissions: role name to route name to the actions it may take there. */
  type Permissions = map<string, map<string, seq<string>>>

  /** The token verifier: the decoded claims, or `None` when verification throws. */
  type Verifier = string -> Option<Claims>

  datatype Verdict = Proceed | AccessDenied

  /** The request context; `auth` is written when the token verifies. */
  class RequestData {
    var auth: Option<Claims>

    constructor ()
      ensures auth == None
    {
      auth := None;
    }
  }

  /**
   * `methodToAction`: the action an HTTP method stands for; reading one record
   * is distinguished from reading all of them by the presence of an `id`.
   */
  function MethodToAction(verb: string, hasId: bool): (action: Option<string>)
    ensures action == Some("read:own") <==> verb == "GET" && hasId
    ensures action == Some("read:all") <==> verb == "GET" && !hasId
    ensures action == Some("write") <==> verb == "POST"
    ensures action == Some("update") <==> verb == "PUT"
    ensures action == Some("delete") <==> verb == "DELETE"
    ensures action == None <==> verb !in {"GET", "POST", "PUT", "DELETE"}
  {
    if verb == "GET" then Some(if hasId then "read:own" else "read:all")
    else if verb == "POST" then Some("write")
    else if verb == "PUT" then Some("update")
    else if verb == "DELETE" then Some("delete")
    else None
  }

  /** A header that is missing or empty is no token at all. */
  predicate HasToken(header: Option<string>) {
    header.Some? && header.value != ""
  }

  /** `resource.includes(action)`: an unknown method's action is in no list. */
  predicate Lists(resource: seq<string>, action: Option<string>) {
    action.Some? && action.value in resource
  }

  /** A role that settles the scan in favour of access. */
  predicate Allows(perms: Permissions, role: string, route: string, action: Option<string>) {
    role in perms && (route !in perms[role] || Lists(perms[role][route], action))
  }

  /** A role that hands the decision to the next one: configured, with a route entry lacking the action. */
  predicate Passes(perms: Permissions, role: string, route: string, action: Option<string>) {
    role in perms && route in perms[role] && !Lists(perms[role][route], action)
  }

  /** The scan over the roles, first deciding role first. */
  function Decide(roles: seq<string>, perms: Permissions, route: string, action: Option<string>): bool
  {
    if roles == [] then false
    else if roles[0] !in perms then false
    else if route !in perms[roles[0]] then true
    else if Lists(perms[roles[0]][route], action) then true
    else Decide(roles[1..], perms, route, action)
  }

  function RoleNames(roles: seq<Role>): (names: seq<string>)
    ensures |names| == |roles| && forall i :: 0 <= i < |roles| ==> names[i] == roles[i].name
  {
    seq(|roles|, i requires 0 <= i < |roles| => roles[i].name)
  }

  /** An empty role list is always denied. */
  lemma NoRolesDenied(perms: Permissions, route: string, action: Option<string>)
    ensures !Decide([], perms, route, action)
  {
  }

  /**
   * Access is granted exactly when some role allows and every role before it
   * has a permission configuration: a role without one denies, even when a
   * later role would allow.
   */
  lemma {:induction false} DecideIffEarliestAllows(roles: seq<string>, perms: Permissions, route: string, action: Option<string>)
    ensures Decide(roles, perms, route, action) <==>
              exists i :: 0 <= i < |roles| && Allows(perms, roles[i], route, action) &&
                forall j :: 0 <= j < i ==> roles[j] in perms
  {
    if roles != [] {
      DecideIffEarliestAllows(roles[1..], perms, route, action);
      if Decide(roles, perms, route, action) {
        if !Allows(perms, roles[0], route, action) {
          var i :| 0 <= i < |roles[1..]| && Allows(perms, roles[1..][i], route, action) &&
                   forall j :: 0 <= j < i ==> roles[1..][j] in perms;
          assert roles[i + 1] == roles[1..][i];
          assert forall j :: 0 <= j < i + 1 ==> roles[j] in perms by {
            forall j | 0 <= j < i + 1 ensures roles[j] in perms {
              if j > 0 { assert roles[j] == roles[1..][j - 1]; }
            }
          }
        }
      } else {
        forall i | 0 <= i < |roles| && Allows(perms, roles[i], route, action)
          ensures exists j :: 0 <= j < i && roles[j] !in perms
        {
          if roles[0] in perms {
            assert i != 0;
            assert roles[1..][i - 1] == roles[i];
            var j :| 0 <= j < i - 1 && roles[1..][j] !in perms;
            assert roles[j + 1] !in perms;
          } else {
            assert i != 0;
          }
        }
      }
    }
  }

  /**
   * The first role that does not hand over decides alone: it grants access if
   * it allows and denies it otherwise, whatever the roles after it say.
   */
  lemma {:induction false} FirstDecidingRoleWins(roles: seq<string>, k: nat, perms: Permissions, route: string, action: Option<string>)
    requires k < |roles| && !Passes(perms, roles[k], route, action)
    requires forall j :: 0 <= j < k ==> Passes(perms, roles[j], route, action)
    ensures Decide(roles, perms, route, action) == Allows(perms, roles[k], route, action)
    decreases k
  {
    if k > 0 {
      assert Passes(perms, roles[0], route, action);
      forall j | 0 <= j < k - 1 ensures Passes(perms, roles[1..][j], route, action) {
        assert roles[1..][j] == roles[j + 1];
      }
      FirstDecidingRoleWins(roles[1..], k - 1, perms, route, action);
    }
  }

  /** When every role hands over, nobody decided and access is denied. */
  lemma {:induction false} AllPassingDenied(roles: seq<string>, perms: Permissions, route: string, action: Option<string>)
    requires forall j :: 0 <= j < |roles| ==> Passes(perms, roles[j], route, action)
    ensures !Decide(roles, perms, route, action)
  {
    if roles != [] {
      forall j | 0 <= j < |roles| - 1 ensures Passes(perms, roles[1..][j], route, action) {
        assert roles[1..][j] == roles[j + 1];
      }
      AllPassingDenied(roles[1..], perms, route, action);
    }
  }

  /**
   * The whole middleware as a decision: no token or a token that fails
   * verification is refused before any role is looked at; otherwise the roles
   * of the verified user decide.
   */
  function Authorize(request: Request, verify: Verifier, perms: Permissions): (verdict: Verdict)
    ensures !HasToken(request.authorization) ==> verdict == AccessDenied
    ensures HasToken(request.authorization) && verify(request.authorization.value).None? ==>
              verdict == AccessDenied
    ensures verdict == Proceed <==>
              HasToken(request.authorization) && verify(request.authorization.value).Some? &&
              var roles := RoleNames(verify(request.authorization.value).value.user.roles);
              var action := MethodToAction(request.verb, request.hasId);
              exists i :: 0 <= i < |roles| && Allows(perms, roles[i], request.routeName, action) &&
                forall j :: 0 <= j < i ==> roles[j] in perms
  {
    if !HasToken(request.authorization) then AccessDenied
    else
      match verify(request.authorization.value)
      case None => AccessDenied
      case Some(claims) =>
        var roles := RoleNames(claims.user.roles);
        var action := MethodToAction(request.verb, request.hasId);
        DecideIffEarliestAllows(roles, perms, request.routeName, action);
        if Decide(roles, perms, request.routeName, action) then Proceed else AccessDenied
  }

  /**
   * `handle`: reject a missing token, verify it and store the claims in
   * `data.auth`, then scan the roles with a flag, breaking at the first role
   * that decides. `auth` is written only when verification succeeds.
   */
  method Handle(data: RequestData, request: Request, verify: Verifier, perms: Permissions)
    returns (verdict: Verdict)
    modifies data
    ensures verdict == Authorize(request, verify, perms)
    ensures data.auth ==
              if HasToken(request.authorization) && verify(request.authorization.value).Some?
              then verify(request.authorization.value)
              else old(data.auth)
  {
    var token := request.authorization;
    if !HasToken(token) {
      return AccessDenied;
    }
    var decoded := verify(token.value);
    if decoded.None? {
      return AccessDenied;
    }
    data.auth := decoded;

    var action := MethodToAction(request.verb, request.hasId);
    var roles := decoded.value.user.roles;
    ghost var names := RoleNames(roles);
    var hasPermission := false;
    var i := 0;
    while i < |roles|
      invariant 0 <= i <= |roles|
      invariant !hasPermission
      invariant Decide(names, perms, request.routeName, action) ==
                Decide(names[i..], perms, request.routeName, action)
    {
      var name := roles[i].name;
      assert names[i..][0] == name && names[i..][1..] == names[i + 1..];
      if name !in perms {
        hasPermission := false;
        break;
      }
      var permission := perms[name];
      if request.routeName !in permission {
        hasPermission := true;
        break;
      }
      if request.routeName !in permission || Lists(permission[request.routeName], action) {
        hasPermission := true;
        break;
      }
      i := i + 1;
    }

    if !hasPermission {
      return AccessDenied;
    }
    return Proceed;
  }
}
