/** The admin and superadmin guards (src/middleware/roleGuard.ts), and how
    the three role guards relate to the role hierarchy and to the tokens
    the auth service issues. */
module RoleGuard {
  import opened Common
  import opened Accounts
  import opened AuthMiddleware
  import AuthService

  const AdminOnlyText: string := "Admin access required"
  const SuperAdminOnlyText: string := "Superadmin access required"

  /** `isAdmin`: a missing user is refused with 403 as well. */
  function IsAdmin(user: Option<ReqUser>): (r: Verdict)
    ensures r.Refuse? ==> r == Refuse(403, AdminOnlyText)
  {
    if user.None? || (user.value.role != Some("admin") && user.value.role != Some("superadmin"))
    then Refuse(403, AdminOnlyText)
    else Pass
  }

  /** `isSuperAdmin`. */
  function IsSuperAdmin(user: Option<ReqUser>): (r: Verdict)
    ensures r.Refuse? ==> r == Refuse(403, SuperAdminOnlyText)
  {
    if user.None? || user.value.role != Some("superadmin") then Refuse(403, SuperAdminOnlyText)
    else Pass
  }

  /** The role hierarchy the guards encode: each guard admits the roles at
      or above its own level. */
  function Rank(r: Role): (n: nat)
    ensures n <= 3
  {
    match r
    case Normal => 0
    case Seller => 1
    case Admin => 2
    case SuperAdmin => 3
  }

  /** For a user whose role claim names a role, each guard passes exactly
      when that role is ranked at or above the guard's level. */
  lemma GuardsAreRankThresholds(id: int, role: Role)
    ensures var u := Some(ReqUser(id, Some(RoleName(role))));
      && (IsSellerOrAdmin(u) == Pass <==> Rank(role) >= 1)
      && (IsAdmin(u) == Pass <==> Rank(role) >= 2)
      && (IsSuperAdmin(u) == Pass <==> Rank(role) >= 3)
  {
  }

  /** A role claim that names none of the four roles, or no claim at all,
      passes no guard. */
  lemma UnknownRolePassesNothing(user: ReqUser)
    requires user.role.None? || ParseRole(user.role.value).None?
    ensures IsSellerOrAdmin(Some(user)) == Refuse(403, SellerOnlyText)
    ensures IsAdmin(Some(user)) == Refuse(403, AdminOnlyText)
    ensures IsSuperAdmin(Some(user)) == Refuse(403, SuperAdminOnlyText)
  {
  }

  /** The guards nest: whoever the superadmin guard admits, the admin guard
      admits, and whoever the admin guard admits, the seller guard admits. */
  lemma GuardsNest(user: Option<ReqUser>)
    ensures IsSuperAdmin(user) == Pass ==> IsAdmin(user) == Pass
    ensures IsAdmin(user) == Pass ==> IsSellerOrAdmin(user) == Pass
  {
  }

  /** Tokens as issued: `login` signs `{ id }` only, so the authenticated
      user has no role and every role guard answers 403, whatever the
      account's role is. */
  lemma LoginTokenPassesNoGuard(db: Users, email: string, password: string,
                                matches: (string, string) -> bool,
                                sign: Claims -> string, verify: string -> Option<Claims>)
    requires forall c :: ' ' !in sign(c) && verify(sign(c)) == Some(c)
    requires AuthService.Login(db, email, password, matches, sign).Ok?
    ensures var session := AuthService.Login(db, email, password, matches, sign).value;
      var g := Authenticate(Some(BearerPrefix + session.token), verify);
      && g == Next(ReqUser(session.user.id, None))
      && IsSellerOrAdmin(Some(g.user)).Refuse?
      && IsAdmin(Some(g.user)).Refuse?
      && IsSuperAdmin(Some(g.user)).Refuse?
  {
    var session := AuthService.Login(db, email, password, matches, sign).value;
    SignedTokenAuthenticates(LoginClaims(session.user), sign, verify);
  }

  /** The claims a session token needs for the guards to work: the id and
      the account's role name. */
  function SessionClaims(u: User): (c: Claims)
    ensures c.id == u.id && c.role.Some? && ParseRole(c.role.value) == Some(u.role)
  {
    RoleNamesRoundTrip(u.role, "");
    Claims(u.id, Some(RoleName(u.role)))
  }

  /** With the role signed into the token, each guard admits a user exactly
      when the account's role is at or above the guard's level. */
  lemma SessionTokenFollowsRole(u: User, sign: Claims -> string, verify: string -> Option<Claims>)
    requires ' ' !in sign(SessionClaims(u)) && verify(sign(SessionClaims(u))) == Some(SessionClaims(u))
    ensures var g := Authenticate(Some(BearerPrefix + sign(SessionClaims(u))), verify);
      && g.Next? && g.user.id == u.id
      && (IsSellerOrAdmin(Some(g.user)) == Pass <==> Rank(u.role) >= 1)
      && (IsAdmin(Some(g.user)) == Pass <==> Rank(u.role) >= 2)
      && (IsSuperAdmin(Some(g.user)) == Pass <==> Rank(u.role) >= 3)
  {
    SignedTokenAuthenticates(SessionClaims(u), sign, verify);
    GuardsAreRankThresholds(u.id, u.role);
  }
}
