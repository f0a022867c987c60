/**
  The front-end route table and its navigation guard. A navigation to a
  path first follows the route record's own redirect, then the guard looks at
  the target route's meta data and the authentication store and either lets
  the navigation proceed or redirects it to another path.
 */
module Router {
  import opened Types
  import opened AuthStore

  /** The front end sees roles as the strings of the JSON user's `roles` list. */
  const TeacherRoleName: string := "ROLE_TEACHER"
  const StudentRoleName: string := "ROLE_STUDENT"
  const AdminRoleName: string := "ROLE_ADMIN"

  const RootPath: string := "/"
  const LoginPath: string := "/login"
  const TeacherPath: string := "/teacher/dashboard"
  const StudentPath: string := "/student/results"
  const AdminPath: string := "/admin/dashboard"

  /** A route's meta data; a missing flag is `false`, a missing role is `None`. */
  datatype Meta = Meta(requiresAuth: bool, requiresGuest: bool, role: Option<string>)

  const NoMeta := Meta(false, false, None)

  datatype RouteRecord = RouteRecord(path: string, redirect: Option<string>, meta: Meta)

  /** The route table. The admin route's `requiresAuth` is commented out, so only its role is set. */
  const Routes: seq<RouteRecord> := [
    RouteRecord(RootPath, Some(LoginPath), NoMeta),
    RouteRecord(LoginPath, None, Meta(false, true, None)),
    RouteRecord(TeacherPath, None, Meta(true, false, Some(TeacherRoleName))),
    RouteRecord(StudentPath, None, Meta(true, false, Some(StudentRoleName))),
    RouteRecord(AdminPath, None, Meta(false, false, Some(AdminRoleName)))
  ]

  /** The first record of `routes` whose path is `path`. */
  function Lookup(routes: seq<RouteRecord>, path: string): (r: Option<RouteRecord>)
    ensures r.None? <==> forall i :: 0 <= i < |routes| ==> routes[i].path != path
    ensures r.Some? ==> r.value in routes && r.value.path == path
    ensures r.Some? ==> exists i :: 0 <= i < |routes| && routes[i] == r.value && forall j :: 0 <= j < i ==> routes[j].path != path
  {
    if |routes| == 0 then None
    else if routes[0].path == path then Some(routes[0])
    else Lookup(routes[1..], path)
  }

  /** The path a navigation really lands on after the matched record's redirect. */
  function Resolve(path: string): string {
    match Lookup(Routes, path)
    case Some(r) => r.redirect.GetOr(path)
    case None => path
  }

  /** The meta data the guard sees for a navigation to `path`; an unmatched path has none. */
  function MetaOf(path: string): Meta {
    match Lookup(Routes, Resolve(path))
    case Some(r) => r.meta
    case None => NoMeta
  }

  datatype Decision = Proceed | Redirect(target: string)

  /** Holds one of the three roles the application routes on. */
  predicate HasAppRole(s: AuthState) {
    HasRole(s, TeacherRoleName) || HasRole(s, StudentRoleName) || HasRole(s, AdminRoleName)
  }

  /** The home route of the user's first role in the order teacher, student, admin; `fallback` without one. */
  function Dashboard(s: AuthState, fallback: string): (p: string)
    ensures HasRole(s, TeacherRoleName) ==> p == TeacherPath
    ensures !HasRole(s, TeacherRoleName) && HasRole(s, StudentRoleName) ==> p == StudentPath
    ensures !HasRole(s, TeacherRoleName) && !HasRole(s, StudentRoleName) && HasRole(s, AdminRoleName) ==> p == AdminPath
    ensures !HasAppRole(s) ==> p == fallback
  {
    if HasRole(s, TeacherRoleName) then TeacherPath
    else if HasRole(s, StudentRoleName) then StudentPath
    else if HasRole(s, AdminRoleName) then AdminPath
    else fallback
  }

  /** The meta data names a role the user lacks; an empty role name is falsy and names none. */
  predicate RoleMismatch(m: Meta, s: AuthState) {
    m.role.Some? && m.role.value != "" && !HasRole(s, m.role.value)
  }

  /**
    The guard as written: an authenticated user with none of the three roles
    who reaches the login page is sent to `/`.
   */
  function BeforeEachAsWritten(m: Meta, s: AuthState): (d: Decision)
    ensures m.requiresAuth && !IsAuthenticated(s) ==> d == Redirect(LoginPath)
    ensures m.requiresAuth && IsAuthenticated(s) && RoleMismatch(m, s) ==> d == Redirect(Dashboard(s, LoginPath))
    ensures (m.requiresAuth ==> IsAuthenticated(s) && !RoleMismatch(m, s)) && m.requiresGuest && IsAuthenticated(s)
      ==> d == Redirect(Dashboard(s, RootPath))
    ensures d == Proceed <==>
      (m.requiresAuth ==> IsAuthenticated(s) && !RoleMismatch(m, s)) && !(m.requiresGuest && IsAuthenticated(s))
  {
    if m.requiresAuth && !IsAuthenticated(s) then Redirect(LoginPath)
    else if m.requiresAuth && RoleMismatch(m, s) then Redirect(Dashboard(s, LoginPath))
    else if m.requiresGuest && IsAuthenticated(s) then Redirect(Dashboard(s, RootPath))
    else Proceed
  }

  /**
    The guard as intended: an authenticated user with none of the three roles
    stays on the login page instead of being sent to `/`, which leads straight
    back to it.
   */
  function BeforeEach(m: Meta, s: AuthState): (d: Decision)
    ensures m.requiresAuth && !IsAuthenticated(s) ==> d == Redirect(LoginPath)
    ensures m.requiresAuth && IsAuthenticated(s) && RoleMismatch(m, s) ==> d == Redirect(Dashboard(s, LoginPath))
    ensures (m.requiresAuth ==> IsAuthenticated(s) && !RoleMismatch(m, s)) && m.requiresGuest && IsAuthenticated(s) && HasAppRole(s)
      ==> d == Redirect(Dashboard(s, RootPath))
    ensures d == Proceed <==>
      (m.requiresAuth ==> IsAuthenticated(s) && !RoleMismatch(m, s)) && !(m.requiresGuest && IsAuthenticated(s) && HasAppRole(s))
  {
    if m.requiresAuth && !IsAuthenticated(s) then Redirect(LoginPath)
    else if m.requiresAuth && RoleMismatch(m, s) then Redirect(Dashboard(s, LoginPath))
    else if m.requiresGuest && IsAuthenticated(s) && HasAppRole(s) then Redirect(Dashboard(s, RootPath))
    else Proceed
  }

  /** Both guards agree except for an authenticated user without any of the three roles. */
  lemma GuardsAgreeForRoledOrGuestUsers(m: Meta, s: AuthState)
    requires HasAppRole(s) || !IsAuthenticated(s)
    ensures BeforeEach(m, s) == BeforeEachAsWritten(m, s)
  {
  }

  /** Each route record sits at its own index of the table. */
  lemma LookupTable()
    ensures Lookup(Routes, RootPath) == Some(Routes[0])
    ensures Lookup(Routes, LoginPath) == Some(Routes[1])
    ensures Lookup(Routes, TeacherPath) == Some(Routes[2])
    ensures Lookup(Routes, StudentPath) == Some(Routes[3])
    ensures Lookup(Routes, AdminPath) == Some(Routes[4])
  {
    assert |RootPath| == 1 && |LoginPath| == 6 && |TeacherPath| == 18 && |StudentPath| == 16 && |AdminPath| == 16;
    LookupDashboards();
    assert Lookup(Routes[1..], AdminPath) == Lookup(Routes[2..], AdminPath);
    assert Lookup(Routes[1..], StudentPath) == Lookup(Routes[2..], StudentPath);
    assert Lookup(Routes[1..], TeacherPath) == Lookup(Routes[2..], TeacherPath);
    assert Lookup(Routes[1..], LoginPath) == Some(Routes[1]);
  }

  /** The three dashboard records, found in the table's tail. */
  lemma LookupDashboards()
    ensures Lookup(Routes[2..], TeacherPath) == Some(Routes[2])
    ensures Lookup(Routes[2..], StudentPath) == Some(Routes[3])
    ensures Lookup(Routes[2..], AdminPath) == Some(Routes[4])
  {
    assert |TeacherPath| == 18 && |StudentPath| == 16 && |AdminPath| == 16;
    assert StudentPath[1] != AdminPath[1];
    assert Lookup(Routes[4..], AdminPath) == Some(Routes[4]);
    assert Lookup(Routes[3..], AdminPath) == Lookup(Routes[4..], AdminPath);
    assert Lookup(Routes[3..], StudentPath) == Some(Routes[3]);
    assert Lookup(Routes[2..], AdminPath) == Lookup(Routes[3..], AdminPath);
    assert Lookup(Routes[2..], StudentPath) == Lookup(Routes[3..], StudentPath);
  }

  /** The table's meta data as the guard sees it, path by path. */
  lemma MetaTable()
    ensures Resolve(RootPath) == LoginPath
    ensures MetaOf(RootPath) == Meta(false, true, None)
    ensures MetaOf(LoginPath) == Meta(false, true, None)
    ensures MetaOf(TeacherPath) == Meta(true, false, Some(TeacherRoleName))
    ensures MetaOf(StudentPath) == Meta(true, false, Some(StudentRoleName))
    ensures MetaOf(AdminPath) == Meta(false, false, Some(AdminRoleName))
  {
    LookupTable();
  }

  /** The admin route carries no authentication requirement: everyone may enter it. */
  lemma AdminRouteIsOpen(s: AuthState)
    ensures BeforeEach(MetaOf(AdminPath), s) == Proceed
    ensures BeforeEachAsWritten(MetaOf(AdminPath), s) == Proceed
  {
    MetaTable();
  }

  /** The guard lets the user in, wherever a redirect of the corrected guard sends them. */
  lemma RedirectTargetPasses(path: string, s: AuthState)
    ensures BeforeEach(MetaOf(path), s).Redirect? ==>
      BeforeEach(MetaOf(BeforeEach(MetaOf(path), s).target), s) == Proceed
  {
    var d := BeforeEach(MetaOf(path), s);
    if d.Redirect? {
      if !IsAuthenticated(s) {
        assert d.target == LoginPath;
        LoginPasses(s);
      } else {
        assert d.target == Dashboard(s, LoginPath);
        DashboardPasses(s);
      }
    }
  }

  /** The login page admits anyone the corrected guard would not send to a dashboard. */
  lemma LoginPasses(s: AuthState)
    requires !IsAuthenticated(s) || !HasAppRole(s)
    ensures BeforeEach(MetaOf(LoginPath), s) == Proceed
  {
    MetaTable();
  }

  /** A logged-in user's dashboard admits them. */
  lemma DashboardPasses(s: AuthState)
    requires IsAuthenticated(s)
    ensures BeforeEach(MetaOf(Dashboard(s, LoginPath)), s) == Proceed
  {
    MetaTable();
    if HasRole(s, TeacherRoleName) {
      assert Dashboard(s, LoginPath) == TeacherPath;
    } else if HasRole(s, StudentRoleName) {
      assert Dashboard(s, LoginPath) == StudentPath;
    } else if HasRole(s, AdminRoleName) {
      assert Dashboard(s, LoginPath) == AdminPath;
    } else {
      assert Dashboard(s, LoginPath) == LoginPath;
      LoginPasses(s);
    }
  }

  /** The guard as written has the same property for users who hold an application role or are logged out. */
  lemma RedirectTargetPassesAsWritten(path: string, s: AuthState)
    requires HasAppRole(s) || !IsAuthenticated(s)
    ensures BeforeEachAsWritten(MetaOf(path), s).Redirect? ==>
      BeforeEachAsWritten(MetaOf(BeforeEachAsWritten(MetaOf(path), s).target), s) == Proceed
  {
    MetaTable();
    GuardsAgreeForRoledOrGuestUsers(MetaOf(path), s);
    RedirectTargetPasses(path, s);
    if BeforeEach(MetaOf(path), s).Redirect? {
      GuardsAgreeForRoledOrGuestUsers(MetaOf(BeforeEach(MetaOf(path), s).target), s);
    }
  }

  /**
    With the guard as written, a logged-in user with none of the three roles
    who opens a dashboard is sent to the login page, from there to `/`, and
    `/` leads back to the login page: the navigation never settles.
   */
  lemma RedirectLoopAsWritten(s: AuthState)
    requires IsAuthenticated(s) && !HasAppRole(s)
    ensures BeforeEachAsWritten(MetaOf(TeacherPath), s) == Redirect(LoginPath)
    ensures BeforeEachAsWritten(MetaOf(LoginPath), s) == Redirect(RootPath)
    ensures Resolve(RootPath) == LoginPath
    ensures BeforeEachAsWritten(MetaOf(RootPath), s) == Redirect(RootPath)
  {
    MetaTable();
    assert Dashboard(s, LoginPath) == LoginPath;
    assert Dashboard(s, RootPath) == RootPath;
    var login := MetaOf(LoginPath);
    assert MetaOf(RootPath) == login;
    assert BeforeEachAsWritten(login, s) == Redirect(RootPath);
    assert RoleMismatch(MetaOf(TeacherPath), s);
  }

  /** The corrected guard lets the same user stay on the login page. */
  lemma RoleLessUserStaysOnLogin(s: AuthState)
    requires IsAuthenticated(s) && !HasAppRole(s)
    ensures BeforeEach(MetaOf(TeacherPath), s) == Redirect(LoginPath)
    ensures BeforeEach(MetaOf(LoginPath), s) == Proceed
  {
    MetaTable();
    assert RoleMismatch(MetaOf(TeacherPath), s);
    assert Dashboard(s, LoginPath) == LoginPath;
  }
}
