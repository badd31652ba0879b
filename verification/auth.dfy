/**
 * The account routes: sign-up validation and normalisation, the login
 * decision chain, and the `/me` echo of the session. Password hashing is a
 * parameter `hash`; a password matches a stored digest when it hashes to it.
 */
module Auth {
  import opened Wrappers
  import opened Text
  import opened Store
  import opened Gate

  /** The roles a sign-up may ask for, compared exactly. */
  const SignupRoles := [AdminRole, StudentRole, GuardianRole]

  const MissingSignupFields := "Name, email and password are required."
  const InvalidRole := "Invalid role."
  const EmailTaken := "Email already registered."
  const SignupFailed := "Signup failed."
  const MissingCredentials := "Email and password are required."
  const BadCredentials := "Invalid email or password."
  const WrongRole := "Wrong role selected. Please select your correct role."
  const NotLoggedIn := "Not logged in."
  /** What the hashing library throws when the stored digest is NULL. */
  const NullDigestMessage := "Illegal arguments: string, object"

  /** A one-way password hash (salt and cost are not modelled). */
  type Hash = string -> string

  datatype SignupBody = SignupBody(
    name: Option<string>,
    email: Option<string>,
    password: Option<string>,
    role: Option<string>,
    linkedStudentId: Option<int>)

  datatype LoginBody = LoginBody(email: Option<string>, password: Option<string>, role: Option<string>)

  /** The `user` object of a sign-up or login reply, and the body of `/me`. */
  datatype UserView = UserView(
    userId: int,
    email: Option<string>,
    name: Option<string>,
    role: string,
    linkedStudentId: Option<int>)

  /** The tables, the session and the reply after a request. */
  datatype Reply = Reply(state: State, session: Session, result: Result<UserView, HttpError>)

  /** How an e-mail address is stored and looked up: trimmed, then lowercased. */
  function NormalEmail(email: string): (e: string)
    ensures |e| <= |email|
    ensures forall i :: 0 <= i < |e| ==> !IsUpper(e[i])
    ensures |e| > 0 ==> !IsSpace(e[0]) && !IsSpace(e[|e| - 1])
    ensures SqlEquals(e, Trim(email)) && |e| == |Trim(email)|
  {
    LowerIdempotent(Trim(email));
    Lower(Trim(email))
  }

  /** An address with no white space and no upper-case letter is stored as given. */
  lemma NormalEmailKeepsClean(email: string)
    requires forall k :: 0 <= k < |email| ==> !IsSpace(email[k]) && !IsUpper(email[k])
    ensures NormalEmail(email) == email
  {
    LowerOfLowerCase(email);
  }

  /** Normalising a stored address again leaves it unchanged. */
  lemma NormalEmailIdempotent(email: string)
    ensures NormalEmail(NormalEmail(email)) == NormalEmail(email)
  {
    var e := NormalEmail(email);
    TrimOfTrimmed(e);
    assert Trim(e) == e;
    LowerOfLowerCase(e);
    assert Lower(e) == e;
    assert NormalEmail(e) == Lower(Trim(e));
  }

  /** Text without white space at either end is its own trim. */
  lemma TrimOfTrimmed(s: string)
    requires |s| == 0 || (!IsSpace(s[0]) && !IsSpace(s[|s| - 1]))
    ensures Trim(s) == s
  {
    TrimStartNoLeadingSpace(s);
  }

  predicate EmailMatches(u: User, email: string) {
    u.email.Some? && SqlEquals(u.email.value, email)
  }

  /** The first user whose e-mail equals `email` under the collation (`WHERE email = ?`). */
  function UserByEmail(users: seq<User>, email: string): (r: Option<User>)
    ensures r.Some? ==> r.value in users && EmailMatches(r.value, email)
    ensures r.None? <==> forall i :: 0 <= i < |users| ==> !EmailMatches(users[i], email)
  {
    if |users| == 0 then None
    else if EmailMatches(users[0], email) then Some(users[0])
    else
      assert forall i :: 1 <= i < |users| ==> users[i] == users[1..][i - 1];
      UserByEmail(users[1..], email)
  }

  /** No two users share an e-mail address under the collation. */
  predicate EmailsUnique(users: seq<User>) {
    forall i, j :: 0 <= i < j < |users| && users[i].email.Some? ==> !EmailMatches(users[j], users[i].email.value)
  }

  /** A user matched after every earlier row failed to match is the one found. */
  lemma {:induction false} UserByEmailFindsAppended(users: seq<User>, u: User, email: string)
    requires forall i :: 0 <= i < |users| ==> !EmailMatches(users[i], email)
    requires EmailMatches(u, email)
    ensures UserByEmail(users + [u], email) == Some(u)
  {
    if |users| > 0 {
      assert (users + [u])[1..] == users[1..] + [u];
      UserByEmailFindsAppended(users[1..], u, email);
    }
  }

  /** `role || 'student'`. */
  function SignupRole(role: Option<string>): string {
    OrText(role, StudentRole)
  }

  /** The three sign-up roles are already lower case. */
  lemma SignupRolesAreLower(role: string)
    requires role in SignupRoles
    ensures Lower(role) == role
  {
    if role == AdminRole {
      assert forall i :: 0 <= i < |role| ==> !IsUpper(role[i]) by {
        forall i | 0 <= i < |role| ensures !IsUpper(role[i]) { assert role[i] in "admin"; }
      }
    } else if role == StudentRole {
      assert forall i :: 0 <= i < |role| ==> !IsUpper(role[i]) by {
        forall i | 0 <= i < |role| ensures !IsUpper(role[i]) { assert role[i] in "student"; }
      }
    } else {
      assert forall i :: 0 <= i < |role| ==> !IsUpper(role[i]) by {
        forall i | 0 <= i < |role| ensures !IsUpper(role[i]) { assert role[i] in "guardian"; }
      }
    }
    LowerOfLowerCase(role);
  }

  /** The user row a sign-up inserts. */
  function NewUser(users: seq<User>, body: SignupBody, hash: Hash): (u: User)
    requires SignupFieldsPresent(body)
    ensures u.id == NextUserId(users)
    ensures u.email == Some(NormalEmail(body.email.value)) && u.name == Some(Trim(body.name.value))
    ensures u.password == Some(hash(body.password.value)) && u.role == Some(SignupRole(body.role))
    ensures u.linkedStudentId.Some? ==> SignupRole(body.role) == GuardianRole && TruthyId(u.linkedStudentId)
    ensures SignupRole(body.role) == GuardianRole ==> u.linkedStudentId == OrNull(body.linkedStudentId)
  {
    var role := SignupRole(body.role);
    User(NextUserId(users), None, None, Some(NormalEmail(body.email.value)), Some(hash(body.password.value)),
         Some(Trim(body.name.value)), Some(role), if role == GuardianRole then OrNull(body.linkedStudentId) else None)
  }

  /** The bare profile row a student sign-up inserts. */
  function NewProfile(students: seq<Student>, u: User): Student {
    Student(NextStudentId(students), Some(u.id as int), None, u.name, None, None, None, None)
  }

  /** `(x || '').toString().toLowerCase()` on a role column or field. */
  function RoleText(role: Option<string>): (r: string)
    ensures forall i :: 0 <= i < |r| ==> !IsUpper(r[i])
    ensures role.Some? ==> r == Lower(role.value)
  {
    Lower(OrText(role, ""))
  }

  /** The session fields a sign-up or login writes; every other field is kept. */
  function SessionFor(sess: Session, u: User): (s: Session)
    ensures s.studentId == sess.studentId
    ensures s.userId == Some(u.id as int) && s.role == Some(RoleText(u.role))
    ensures s.linkedStudentId.Some? ==> s.linkedStudentId == u.linkedStudentId && TruthyId(u.linkedStudentId)
  {
    sess.(userId := Some(u.id as int), email := u.email, name := u.name,
          role := Some(RoleText(u.role)), linkedStudentId := OrNull(u.linkedStudentId))
  }

  function ViewOf(u: User): UserView {
    UserView(u.id, u.email, u.name, RoleText(u.role), u.linkedStudentId)
  }

  predicate SignupFieldsPresent(body: SignupBody) {
    TruthyText(body.name) && TruthyText(body.email) && TruthyText(body.password)
  }

  /**
   * `POST /api/auth/signup`. Missing fields, a role outside the three, or an
   * e-mail already registered give 400 with nothing written. The user row
   * stores the trimmed name, the trimmed lowercased e-mail and the digest,
   * and a linked student only for guardians; a student also gets a bare
   * `student` row. The two inserts are not one transaction: when the second
   * fails (`studentInsertFails`) the user row stays and the reply is 500.
   */
  function Signup(st: State, sess: Session, body: SignupBody, hash: Hash, studentInsertFails: bool): (out: Reply)
    ensures !SignupFieldsPresent(body) ==> out == Reply(st, sess, Failure(HttpError(400, MissingSignupFields)))
    ensures SignupFieldsPresent(body) && SignupRole(body.role) !in SignupRoles ==>
      out == Reply(st, sess, Failure(HttpError(400, InvalidRole)))
    ensures SignupFieldsPresent(body) && SignupRole(body.role) in SignupRoles &&
            UserByEmail(st.users, NormalEmail(body.email.value)).Some? ==>
      out == Reply(st, sess, Failure(HttpError(400, EmailTaken)))
    ensures out.result.Failure? && out.result.error.status == 500 ==>
      && studentInsertFails && SignupRole(body.role) == StudentRole
      && out.state == st.(users := st.users + [NewUser(st.users, body, hash)])
      && out.session == sess && out.result.error.message == SignupFailed
    ensures out.result.Success? ==>
      && SignupFieldsPresent(body) && SignupRole(body.role) in SignupRoles
      && UserByEmail(st.users, NormalEmail(body.email.value)).None?
      && var u := NewUser(st.users, body, hash);
         && out.state.users == st.users + [u]
         && out.state.students == (if SignupRole(body.role) == StudentRole
                                   then st.students + [NewProfile(st.students, u)] else st.students)
         && out.state == st.(users := out.state.users, students := out.state.students)
         && out.session == SessionFor(sess, u)
         && out.session.role == Some(SignupRole(body.role))
         && out.result.value == ViewOf(u)
  {
    if !SignupFieldsPresent(body) then
      Reply(st, sess, Failure(HttpError(400, MissingSignupFields)))
    else
      var role := SignupRole(body.role);
      if role !in SignupRoles then
        Reply(st, sess, Failure(HttpError(400, InvalidRole)))
      else if UserByEmail(st.users, NormalEmail(body.email.value)).Some? then
        Reply(st, sess, Failure(HttpError(400, EmailTaken)))
      else
        var u := NewUser(st.users, body, hash);
        var withUser := st.(users := st.users + [u]);
        if role == StudentRole && studentInsertFails then
          Reply(withUser, sess, Failure(HttpError(500, SignupFailed)))
        else
          SignupRolesAreLower(role);
          var st' := if role == StudentRole then withUser.(students := st.students + [NewProfile(st.students, u)])
                     else withUser;
          Reply(st', SessionFor(sess, u), Success(ViewOf(u)))
  }

  /** Appending a user with a fresh key and an unregistered e-mail keeps the invariants. */
  lemma AppendUserKeepsInvariants(st: State, u: User)
    requires Valid(st) && EmailsUnique(st.users)
    requires u.id == NextUserId(st.users)
    requires u.email.Some? && UserByEmail(st.users, u.email.value).None?
    ensures Valid(st.(users := st.users + [u])) && EmailsUnique(st.users + [u])
  {
    var users := st.users + [u];
    assert UserIds(users) == UserIds(st.users) + [u.id];
    AppendKeepsIncreasing(UserIds(st.users), u.id);
    forall i, j | 0 <= i < j < |users| && users[i].email.Some?
      ensures !EmailMatches(users[j], users[i].email.value)
    {
      if j == |st.users| {
        assert !EmailMatches(st.users[i], u.email.value);
      }
    }
  }

  /** Appending a room-less student with a fresh key keeps the invariants. */
  lemma AppendProfileKeepsValid(st: State, p: Student)
    requires Valid(st)
    requires p.id == NextStudentId(st.students) && p.roomId.None?
    ensures Valid(st.(students := st.students + [p]))
  {
    assert StudentIds(st.students + [p]) == StudentIds(st.students) + [p.id];
    AppendKeepsIncreasing(StudentIds(st.students), p.id);
  }

  /** Sign-up keeps keys unique, room references resolving and e-mails unique. */
  lemma SignupPreservesInvariants(st: State, sess: Session, body: SignupBody, hash: Hash, studentInsertFails: bool)
    requires Valid(st) && EmailsUnique(st.users)
    ensures var out := Signup(st, sess, body, hash, studentInsertFails);
      Valid(out.state) && EmailsUnique(out.state.users)
  {
    var out := Signup(st, sess, body, hash, studentInsertFails);
    if out.state != st {
      var u := NewUser(st.users, body, hash);
      var withUser := st.(users := st.users + [u]);
      AppendUserKeepsInvariants(st, u);
      if out.state != withUser {
        AppendProfileKeepsValid(withUser, NewProfile(st.students, u));
      }
    }
  }

  // ---------------------------------------------------------------- login

  /**
   * `POST /api/auth/login`: 400 without both credentials; the same 401 for
   * an unknown e-mail and a wrong password; 500 when the stored digest is
   * NULL; 403 when a non-empty asserted role differs from the stored one,
   * both lowercased; otherwise the session takes the user's fields. The
   * tables are only read.
   */
  function Login(users: seq<User>, sess: Session, body: LoginBody, hash: Hash): (out: (Session, Result<UserView, HttpError>))
    ensures out.1.Failure? ==> out.0 == sess
    ensures !TruthyText(body.email) || !TruthyText(body.password) ==>
      out.1 == Failure(HttpError(400, MissingCredentials))
    ensures TruthyText(body.email) && TruthyText(body.password) ==>
      var found := UserByEmail(users, NormalEmail(body.email.value));
      && (found.None? ==> out.1 == Failure(HttpError(401, BadCredentials)))
      && (found.Some? && found.value.password.None? ==> out.1 == Failure(HttpError(500, NullDigestMessage)))
      && (found.Some? && found.value.password.Some? && hash(body.password.value) != found.value.password.value ==>
            out.1 == Failure(HttpError(401, BadCredentials)))
    ensures out.1.Success? ==>
      var u := UserByEmail(users, NormalEmail(body.email.value)).value;
      && Some(hash(body.password.value)) == u.password
      && (RoleText(body.role) == "" || RoleText(body.role) == RoleText(u.role))
      && out.0 == SessionFor(sess, u)
      && out.1.value == ViewOf(u)
    ensures out.1.Failure? && out.1.error.status == 403 ==>
      out.1.error.message == WrongRole && RoleText(body.role) != ""
  {
    if !TruthyText(body.email) || !TruthyText(body.password) then
      (sess, Failure(HttpError(400, MissingCredentials)))
    else
      match UserByEmail(users, NormalEmail(body.email.value))
      case None => (sess, Failure(HttpError(401, BadCredentials)))
      case Some(u) =>
        if u.password.None? then (sess, Failure(HttpError(500, NullDigestMessage)))
        else if hash(body.password.value) != u.password.value then (sess, Failure(HttpError(401, BadCredentials)))
        else
          var requested := RoleText(body.role);
          if requested != "" && RoleText(u.role) != requested then
            (sess, Failure(HttpError(403, WrongRole)))
          else
            (SessionFor(sess, u), Success(ViewOf(u)))
  }

  /**
   * The whole chain in one statement: login succeeds exactly when both
   * credentials are given, the e-mail names a user whose digest the
   * password hashes to, and the asserted role is empty or that user's.
   */
  lemma LoginSucceedsIff(users: seq<User>, sess: Session, body: LoginBody, hash: Hash)
    ensures Login(users, sess, body, hash).1.Success? <==>
      && TruthyText(body.email) && TruthyText(body.password)
      && var found := UserByEmail(users, NormalEmail(body.email.value));
         && found.Some?
         && found.value.password == Some(hash(body.password.value))
         && (RoleText(body.role) == "" || RoleText(body.role) == RoleText(found.value.role))
  {
  }

  /**
   * Signing up and then logging in with the same e-mail and password, and
   * with no role or the role signed up for in any letter case, succeeds as
   * the new user with that role.
   */
  lemma SignupThenLogin(st: State, sess: Session, body: SignupBody, hash: Hash, later: Session, asserted: Option<string>)
    requires Signup(st, sess, body, hash, false).result.Success?
    requires RoleText(asserted) == "" || RoleText(asserted) == SignupRole(body.role)
    ensures var out := Signup(st, sess, body, hash, false);
      var login := Login(out.state.users, later, LoginBody(body.email, body.password, asserted), hash);
      && login.1.Success?
      && login.0.userId == Some(NextUserId(st.users) as int)
      && login.0.role == Some(SignupRole(body.role))
      && login.1.value == out.result.value
  {
    var out := Signup(st, sess, body, hash, false);
    var u := NewUser(st.users, body, hash);
    var email := NormalEmail(body.email.value);
    LowerIdempotent(email);
    UserByEmailFindsAppended(st.users, u, email);
    SignupRolesAreLower(SignupRole(body.role));
  }

  // ------------------------------------------------------------------- /me

  /** `GET /api/auth/me`: 401 without a truthy user id, else the session's fields with the role lowercased. */
  function WhoAmI(session: Option<Session>): (r: Result<UserView, HttpError>)
    ensures r.Failure? <==> session.None? || !TruthyId(session.value.userId)
    ensures r.Failure? ==> r.error == HttpError(401, NotLoggedIn)
    ensures r.Success? ==>
      && Some(r.value.userId) == session.value.userId
      && r.value.role == RoleText(session.value.role)
      && r.value.email == session.value.email && r.value.name == session.value.name
      && r.value.linkedStudentId == session.value.linkedStudentId
  {
    if session.None? || !TruthyId(session.value.userId) then Failure(HttpError(401, NotLoggedIn))
    else
      var s := session.value;
      Success(UserView(s.userId.value, s.email, s.name, RoleText(s.role), s.linkedStudentId))
  }

  /**
   * The administrator's sentinel session passes `requireLogin`, yet `/me`
   * reports it as not logged in.
   */
  lemma AdminSentinelUnknownToWhoAmI(s: Session)
    requires s.role == Some(AdminRole) && s.userId == Some(AdminUserId)
    ensures RequireLogin(Some(s)) == Next
    ensures WhoAmI(Some(s)) == Failure(HttpError(401, NotLoggedIn))
  {
  }

  /** After a sign-up or login, `/me` echoes the user the reply named. */
  lemma WhoAmIAfterLogin(users: seq<User>, sess: Session, body: LoginBody, hash: Hash)
    requires Login(users, sess, body, hash).1.Success?
    requires UserByEmail(users, NormalEmail(body.email.value)).value.id != 0
    ensures WhoAmI(Some(Login(users, sess, body, hash).0)).Success?
    ensures WhoAmI(Some(Login(users, sess, body, hash).0)).value.role == Login(users, sess, body, hash).1.value.role
  {
    var u := UserByEmail(users, NormalEmail(body.email.value)).value;
    LowerIdempotent(OrText(u.role, ""));
  }
}
