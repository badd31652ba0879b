/** The client's route table and the `ProtectedRoute` decision. */
module RouteGuard {
  import opened Wrappers
  import opened Text
  import opened Roles

  /** What a route renders: the loading screen, a redirect, or its page. */
  datatype View = Loading | Redirect(to: string) | Render

  /** The signed-in user as the auth context holds it. */
  datatype User = User(role: Option<string>)

  const LoginPath := "/login"

  /**
   * `ProtectedRoute`: while loading, the loading screen; no user, to the
   * login page; with an allowed list, a lowercased role outside it, to the
   * login page; otherwise the page.
   */
  function ProtectedRoute(loading: bool, user: Option<User>, allowed: Option<seq<string>>): (v: View)
    ensures loading ==> v == Loading
    ensures v == Render <==> !loading && user.Some? && (allowed.None? || Normalize(user.value.role) in allowed.value)
    ensures v.Redirect? ==> v.to == LoginPath
  {
    if loading then Loading
    else if user.None? then Redirect(LoginPath)
    else if allowed.Some? && Normalize(user.value.role) !in allowed.value then Redirect(LoginPath)
    else Render
  }

  /**
   * Drops every trailing `/`. Each route pattern React Router compiles ends
   * by accepting any run of slashes, so a location matches with any number
   * of them.
   */
  function TrimSlashes(path: string): (r: string)
    ensures |r| <= |path| && r == path[..|r|]
    ensures forall k :: |r| <= k < |path| ==> path[k] == '/'
    ensures |r| > 0 ==> r[|r| - 1] != '/'
  {
    if |path| > 0 && path[|path| - 1] == '/' then TrimSlashes(path[..|path| - 1]) else path
  }

  /**
   * The form in which a location is compared with a route path: without
   * trailing slashes and, since no route sets `caseSensitive`, lowercased.
   */
  function RouteKey(path: string): string {
    Lower(TrimSlashes(path))
  }

  /** What the route table declares for a key: a page, a guarded page, or a redirect. */
  datatype Route = Page | Guarded(roles: seq<string>) | Alias(to: string)

  /** The key of the home route `/`. */
  const HomeKey := ""

  /**
   * The route table: `/`, `/signup` and `/login` are pages; the
   * administrator's dashboard and the three shared pages are guarded; three
   * fixed aliases redirect, and the catch-all `*` sends every other path home.
   */
  function RouteFor(key: string): Route {
    if key == HomeKey || key == "/signup" || key == LoginPath then Page
    else if key == AdminPath then Guarded([Admin])
    else if key == DashboardPath || key == "/register" || key == "/registration-summary" then Guarded(DashboardRoles)
    else if key == "/admin" then Alias(AdminPath)
    else if key == "/student" || key == "/guardian" then Alias(DashboardPath)
    else Alias("/")
  }

  /** What navigating to `path` shows: the route its key selects. */
  function Navigate(path: string, loading: bool, user: Option<User>): (v: View)
    ensures RouteFor(RouteKey(path)).Page? ==> v == Render
    ensures RouteFor(RouteKey(path)).Guarded? ==>
      v == ProtectedRoute(loading, user, Some(RouteFor(RouteKey(path)).roles))
    ensures RouteFor(RouteKey(path)).Alias? ==> v == Redirect(RouteFor(RouteKey(path)).to)
    ensures v.Redirect? ==> v.to in [LoginPath, AdminPath, DashboardPath, "/"]
  {
    match RouteFor(RouteKey(path))
    case Page => Render
    case Guarded(roles) => ProtectedRoute(loading, user, Some(roles))
    case Alias(to) => Redirect(to)
  }

  /** Trailing slashes commute with lowercasing, as `/` is no letter. */
  lemma {:induction false} TrimSlashesLower(path: string)
    ensures TrimSlashes(Lower(path)) == Lower(TrimSlashes(path))
  {
    if |path| > 0 {
      var lp := Lower(path);
      assert lp[..|lp| - 1] == Lower(path[..|path| - 1]);
      if path[|path| - 1] == '/' {
        TrimSlashesLower(path[..|path| - 1]);
      }
    }
  }

  /** A location keys the same in any letter case. */
  lemma RouteKeyIgnoresCase(path: string)
    ensures RouteKey(Lower(path)) == RouteKey(path)
  {
    TrimSlashesLower(path);
    LowerIdempotent(TrimSlashes(path));
  }

  /** A path in lower case without a trailing slash is its own key. */
  lemma CanonicalKey(path: string)
    requires forall i :: 0 <= i < |path| ==> !IsUpper(path[i])
    requires |path| == 0 || path[|path| - 1] != '/'
    ensures RouteKey(path) == path
  {
    LowerOfLowerCase(path);
  }

  /** Navigation ignores letter case: React Router matches case-insensitively. */
  lemma NavigateIgnoresCase(path: string, loading: bool, user: Option<User>)
    ensures Navigate(Lower(path), loading, user) == Navigate(path, loading, user)
  {
    RouteKeyIgnoresCase(path);
  }

  /** Navigation ignores a trailing slash: every route pattern accepts one. */
  lemma NavigateIgnoresTrailingSlash(path: string, loading: bool, user: Option<User>)
    ensures Navigate(path + "/", loading, user) == Navigate(path, loading, user)
  {
    assert (path + "/")[..|path|] == path;
  }

  /** Each declared path is its own key; `/` keys as the empty text. */
  lemma HomeKeyOfRoot()
    ensures RouteKey("/") == HomeKey
  {
    assert "/"[..0] == "";
  }

  lemma AdminPathKey()
    ensures RouteKey(AdminPath) == AdminPath
  {
    var a := AdminPath;
    forall i | 0 <= i < |a| ensures !IsUpper(a[i]) { assert a[i] in a; }
    CanonicalKey(a);
  }

  lemma DashboardPathKey()
    ensures RouteKey(DashboardPath) == DashboardPath
  {
    var d := DashboardPath;
    forall i | 0 <= i < |d| ensures !IsUpper(d[i]) { assert d[i] in d; }
    CanonicalKey(d);
  }

  lemma RegisterPathKeys()
    ensures RouteKey("/register") == "/register"
    ensures RouteKey("/registration-summary") == "/registration-summary"
  {
    var r := "/register";
    forall i | 0 <= i < |r| ensures !IsUpper(r[i]) { assert r[i] in r; }
    CanonicalKey(r);
    var q := "/registration-summary";
    forall i | 0 <= i < |q| ensures !IsUpper(q[i]) { assert q[i] in q; }
    CanonicalKey(q);
  }

  /** `/Dashboard` reaches the shared dashboard, as `/dashboard` does. */
  lemma UpperCaseDashboard(loading: bool, user: Option<User>)
    ensures Navigate("/Dashboard", loading, user) == Navigate(DashboardPath, loading, user)
  {
    var up := "/Dashboard";
    var lo := Lower(up);
    assert lo[0] == '/' && lo[1] == 'd' && lo[2] == 'a' && lo[3] == 's' && lo[4] == 'h'
        && lo[5] == 'b' && lo[6] == 'o' && lo[7] == 'a' && lo[8] == 'r' && lo[9] == 'd';
    assert lo == DashboardPath;
    NavigateIgnoresCase(up, loading, user);
  }

  /** `/dashboard/` reaches the shared dashboard, as `/dashboard` does. */
  lemma SlashedDashboard(loading: bool, user: Option<User>)
    ensures Navigate("/dashboard/", loading, user) == Navigate(DashboardPath, loading, user)
  {
    NavigateIgnoresTrailingSlash(DashboardPath, loading, user);
    assert DashboardPath + "/" == "/dashboard/";
  }

  /** `/admin/` takes the `/admin` alias to the administrator's dashboard. */
  lemma SlashedAdminAlias(loading: bool, user: Option<User>)
    ensures Navigate("/admin/", loading, user) == Redirect(AdminPath)
  {
    var admin := "/admin";
    forall i | 0 <= i < |admin| ensures !IsUpper(admin[i]) { assert admin[i] in admin; }
    CanonicalKey(admin);
    assert TrimSlashes("/admin/") == TrimSlashes(admin) by {
      assert "/admin/"[..|admin|] == admin;
    }
  }

  /**
   * The administrator is sent to the login page from every location that
   * selects one of the student pages, in any letter case or with trailing
   * slashes.
   */
  lemma AdminKeptFromStudentPages(path: string, user: User)
    requires IsAdmin(user.role)
    requires RouteKey(path) in [DashboardPath, "/register", "/registration-summary"]
    ensures Navigate(path, false, Some(user)) == Redirect(LoginPath)
  {
    DashboardRolesExcludeAdmin();
    assert Normalize(user.role) !in DashboardRoles;
  }

  /**
   * Students and guardians are sent to the login page from every location
   * that selects the administrator's dashboard.
   */
  lemma OthersKeptFromAdminPage(path: string, user: User)
    requires Normalize(user.role) in DashboardRoles
    requires RouteKey(path) == AdminPath
    ensures Navigate(path, false, Some(user)) == Redirect(LoginPath)
  {
    DashboardRolesExcludeAdmin();
  }

  /**
   * The page a login sends a user to renders for every role the server
   * issues, in any letter case; any other role is sent back to the login page.
   */
  lemma DashboardPathRenders(user: User)
    ensures Normalize(user.role) in AllRoles ==> Navigate(GetDashboardPath(user.role), false, Some(user)) == Render
    ensures Normalize(user.role) !in AllRoles ==> Navigate(GetDashboardPath(user.role), false, Some(user)) == Redirect(LoginPath)
  {
    var r := Normalize(user.role);
    var path := GetDashboardPath(user.role);
    if r == Admin {
      assert path == AdminPath;
      GuardedPageDecides(path, user, [Admin]);
    } else {
      assert !IsAdmin(user.role);
      assert path == DashboardPath;
      GuardedPageDecides(path, user, DashboardRoles);
      assert r in AllRoles <==> r in DashboardRoles;
    }
  }

  /** On the two dashboards a settled user sees the page iff their lowercased role is admitted. */
  lemma GuardedPageDecides(path: string, user: User, roles: seq<string>)
    requires (path == AdminPath && roles == [Admin]) || (path == DashboardPath && roles == DashboardRoles)
    ensures Normalize(user.role) in roles ==> Navigate(path, false, Some(user)) == Render
    ensures Normalize(user.role) !in roles ==> Navigate(path, false, Some(user)) == Redirect(LoginPath)
  {
    if path == AdminPath {
      AdminPathKey();
      assert RouteFor(AdminPath) == Guarded([Admin]);
    } else {
      DashboardPathKey();
      assert RouteFor(DashboardPath) == Guarded(DashboardRoles);
    }
  }
}
