/**
 * The access-control middleware: decisions over the request's session. `requireAuth` is the
 * only guard that writes to the session (it remembers where the visitor was going);
 * `attachUser` publishes who is logged in to the templates.
 */
module Auth {
  import opened Js
  import opened UserModel

  /** `req.session`: every field may be absent. */
  class Session {
    var userId: Option<UserId>
    var isAuthenticated: bool
    var username: Option<string>
    var userEmail: Option<string>
    var userRole: Option<string>
    var returnTo: Option<string>

    /** A fresh, empty session. */
    constructor ()
      ensures userId.None? && !isAuthenticated && username.None? && userEmail.None?
      ensures userRole.None? && returnTo.None?
    {
      userId, isAuthenticated := None, false;
      username, userEmail, userRole, returnTo := None, None, None, None;
    }
  }

  /** The test every guard starts with: the session exists, `userId` is set (an ObjectId is
      always truthy) and `isAuthenticated` is true. */
  predicate LoggedIn(s: Session?)
    reads s
  {
    s != null && s.userId.Some? && s.isAuthenticated
  }

  /** What a middleware does with the request: pass it on, redirect, answer 403 with a
      message, or throw (reported by Express as a server error). */
  datatype Decision = Next | Redirect(location: string) | Forbidden(message: string) | Fault

  const LoginPath := "/admin/login"
  const DashboardPath := "/admin"
  const AdminDenied := "Access denied. Admin privileges required."
  const SuperAdminDenied := "Access denied. Super admin privileges required."

  /** `requireAuth`: a logged-in request passes untouched; any other is sent to the login page
      after its URL is stored in `returnTo`, and nothing else in the session changes. Without
      a session the assignment to `returnTo` throws. */
  method RequireAuth(s: Session?, originalUrl: string) returns (d: Decision)
    modifies s
    ensures d == Next <==> old(LoggedIn(s))
    ensures d == Next ==> unchanged(s)
    ensures s == null ==> d == Fault
    ensures s != null && !old(LoggedIn(s)) ==>
      && d == Redirect(LoginPath)
      && s.returnTo == Some(originalUrl)
      && s.userId == old(s.userId) && s.isAuthenticated == old(s.isAuthenticated)
      && s.username == old(s.username) && s.userEmail == old(s.userEmail)
      && s.userRole == old(s.userRole)
  {
    if LoggedIn(s) {
      d := Next;
    } else if s == null {
      d := Fault;
    } else {
      s.returnTo := Some(originalUrl);
      d := Redirect(LoginPath);
    }
  }

  /** `requireGuest`: exactly the logged-in requests are sent to the dashboard; all others
      pass. */
  function RequireGuest(s: Session?): (d: Decision)
    reads s
    ensures d == Redirect(DashboardPath) <==> LoggedIn(s)
    ensures d == Next <==> !LoggedIn(s)
  {
    if LoggedIn(s) then Redirect(DashboardPath) else Next
  }

  /** `requireAdmin` as written: the role must be exactly 'admin'. Every refusal is a 403. */
  function RequireAdmin(s: Session?): (d: Decision)
    reads s
    ensures d == Next <==> LoggedIn(s) && s.userRole == Some("admin")
    ensures d != Next ==> d == Forbidden(AdminDenied)
  {
    if LoggedIn(s) && s.userRole == Some("admin") then Next else Forbidden(AdminDenied)
  }

  /** `requireSuperAdmin`: the role must be exactly 'super_admin'. Every refusal is a 403. */
  function RequireSuperAdmin(s: Session?): (d: Decision)
    reads s
    ensures d == Next <==> LoggedIn(s) && s.userRole == Some("super_admin")
    ensures d != Next ==> d == Forbidden(SuperAdminDenied)
  {
    if LoggedIn(s) && s.userRole == Some("super_admin") then Next else Forbidden(SuperAdminDenied)
  }

  /** Neither role guard ever redirects: whoever they refuse gets a 403, never the login
      page. */
  lemma RoleGuardsNeverRedirect(s: Session?)
    ensures !RequireAdmin(s).Redirect? && !RequireSuperAdmin(s).Redirect?
    ensures !RequireAdmin(s).Next? ==> RequireAdmin(s).Forbidden?
    ensures !RequireSuperAdmin(s).Next? ==> RequireSuperAdmin(s).Forbidden?
  {
  }

  /** No session passes both role guards, and whatever passes either also passes
      `requireAuth` and is refused by `requireGuest`. */
  lemma RoleGuardsRefineAuth(s: Session?)
    ensures !(RequireAdmin(s) == Next && RequireSuperAdmin(s) == Next)
    ensures RequireAdmin(s) == Next || RequireSuperAdmin(s) == Next ==>
      LoggedIn(s) && RequireGuest(s) == Redirect(DashboardPath)
  {
  }

  /** A logged-in super admin is refused by `requireAdmin`: the guard does not treat
      'super_admin' as a superset of 'admin'. */
  lemma SuperAdminDeniedByRequireAdmin(s: Session?)
    requires LoggedIn(s) && s.userRole == Some("super_admin")
    ensures RequireAdmin(s) == Forbidden(AdminDenied)
    ensures RequireSuperAdmin(s) == Next
  {
  }

  /** The guard the admin pages evidently intend: an admin or a super admin passes. */
  function RequireAdminOrAbove(s: Session?): (d: Decision)
    reads s
    ensures d == Next <==> LoggedIn(s) && s.userRole.Some? && s.userRole.value in Roles
    ensures d != Next ==> d == Forbidden(AdminDenied)
  {
    if LoggedIn(s) && (s.userRole == Some("admin") || s.userRole == Some("super_admin")) then Next
    else Forbidden(AdminDenied)
  }

  /** The corrected guard admits everyone `requireAdmin` or `requireSuperAdmin` admits and
      nobody else, so each role's pages stay reachable by the roles above it. */
  lemma AdminOrAboveIsUnionOfRoleGuards(s: Session?)
    ensures RequireAdminOrAbove(s) == Next <==>
      RequireAdmin(s) == Next || RequireSuperAdmin(s) == Next
    ensures RequireSuperAdmin(s) == Next ==> RequireAdminOrAbove(s) == Next
  {
  }

  /** `res.locals.currentUser` */
  datatype CurrentUser = CurrentUser(
    isAuthenticated: bool,
    id: Option<UserId>,
    username: Option<string>,
    email: Option<string>,
    role: Option<string>)

  /** `attachUser`: always passes the request on; the current user is authenticated exactly
      when the session is logged in, and then carries the session's id, name, email and role;
      otherwise it carries nothing else. */
  function AttachUser(s: Session?): (r: (Decision, CurrentUser))
    reads s
    ensures r.0 == Next
    ensures r.1.isAuthenticated <==> LoggedIn(s)
    ensures LoggedIn(s) ==>
      r.1.id == s.userId && r.1.username == s.username && r.1.email == s.userEmail
      && r.1.role == s.userRole
    ensures !LoggedIn(s) ==> r.1 == CurrentUser(false, None, None, None, None)
  {
    if LoggedIn(s) then (Next, CurrentUser(true, s.userId, s.username, s.userEmail, s.userRole))
    else (Next, CurrentUser(false, None, None, None, None))
  }
}
