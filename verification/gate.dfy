/**
 * The session record and the two middleware checks that guard every
 * protected route: `requireLogin` (authentication) and
 * `requireRole(...allowed)` (authentication, then authorization).
 */
module Gate {
  import opened Wrappers

  /**
   * The server-side session payload. The administrator's session carries the
   * sentinel user id 0; students and guardians carry their `users` key.
   */
  datatype Session = Session(
    userId: Option<int>,
    role: Option<string>,
    studentId: Option<int>,
    linkedStudentId: Option<int>,
    email: Option<string>,
    name: Option<string>)

  /** A fresh session object with no field set. */
  const Blank := Session(None, None, None, None, None, None)

  const AdminRole := "admin"
  const StudentRole := "student"
  const GuardianRole := "guardian"

  /** The sentinel user id of the hard-coded administrator session. */
  const AdminUserId := 0

  const PleaseLogIn := "Please log in."
  const InsufficientPermissions := "Access denied. Insufficient permissions."

  /** What a middleware does with a request: pass it on, or answer with an error. */
  datatype Verdict = Next | Deny(error: HttpError)

  /**
   * The caller is authenticated: a session with a role, and unless that role
   * is exactly `admin`, a user id that is present and not the sentinel 0.
   */
  predicate Authenticated(s: Option<Session>) {
    && s.Some?
    && s.value.role.Some?
    && (s.value.role.value == AdminRole || (s.value.userId.Some? && s.value.userId.value != AdminUserId))
  }

  /** `requireLogin`: 401 unless authenticated; never touches the session. */
  function RequireLogin(s: Option<Session>): (v: Verdict)
    ensures v.Next? <==> Authenticated(s)
    ensures v.Deny? ==> v.error == HttpError(401, PleaseLogIn)
  {
    if s.None? || s.value.role.None? then
      Deny(HttpError(401, PleaseLogIn))
    else if s.value.role.value != AdminRole && (s.value.userId.None? || s.value.userId.value == 0) then
      Deny(HttpError(401, PleaseLogIn))
    else
      Next
  }

  /**
   * `requireRole(...allowed)`: the authentication checks of `requireLogin`
   * first (401), then exact, case-sensitive membership of the role (403).
   */
  function RequireRole(allowed: seq<string>, s: Option<Session>): (v: Verdict)
    ensures v.Next? <==> Authenticated(s) && s.value.role.value in allowed
    ensures v.Deny? && v.error.status == 401 <==> !Authenticated(s)
    ensures v.Deny? && v.error.status == 403 <==> Authenticated(s) && s.value.role.value !in allowed
    ensures v.Deny? ==> v.error.status == 401 || v.error == HttpError(403, InsufficientPermissions)
  {
    if s.None? || s.value.role.None? then
      Deny(HttpError(401, PleaseLogIn))
    else if s.value.role.value != AdminRole && (s.value.userId.None? || s.value.userId.value == 0) then
      Deny(HttpError(401, PleaseLogIn))
    else if s.value.role.value !in allowed then
      Deny(HttpError(403, InsufficientPermissions))
    else
      Next
  }

  /** Both middlewares reject exactly the same sessions with 401, whatever roles are allowed. */
  lemma RequireRoleAuthenticatesLikeRequireLogin(allowed: seq<string>, s: Option<Session>)
    ensures RequireRole(allowed, s).Deny? && RequireRole(allowed, s).error.status == 401
        <==> RequireLogin(s).Deny?
    ensures RequireLogin(s).Deny? ==> RequireRole(allowed, s) == RequireLogin(s)
  {
  }

  /** The administrator passes `requireLogin` with any user id, the sentinel 0 included. */
  lemma AdminAnyUserIdPasses(userId: Option<int>, rest: Session)
    ensures RequireLogin(Some(rest.(role := Some(AdminRole), userId := userId))) == Next
  {
  }

  /** Chained as on every route, `requireLogin` then `requireRole`. */
  function Guard(allowed: seq<string>, s: Option<Session>): (v: Verdict)
    ensures v.Next? <==> Authenticated(s) && s.value.role.value in allowed
    ensures v == RequireRole(allowed, s)
  {
    match RequireLogin(s)
    case Deny(e) => Deny(e)
    case Next => RequireRole(allowed, s)
  }
}
