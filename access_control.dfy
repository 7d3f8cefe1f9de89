/**
 * The authorisation decision of the file-sharing server: a static table from
 * role to the top-level folders it may read, a raw string-prefix test of the
 * request path against that table, and the fixed chain of guards that the
 * `requires_auth` decorator runs before a route handler.
 */
module AccessControl {
  import opened Wrappers

  /** A row of the in-memory user table: the stored password hash and the role. */
  datatype User = User(passwordHash: string, role: string)

  /** The user table, with the placeholder hashes it is shipped with. */
  const Users: map<string, User> := map[
    "admin" := User("pbkdf2:sha256:150000$...", "admin"),
    "parent" := User("pbkdf2:sha256:150000$...", "family"),
    "guest_user" := User("pbkdf2:sha256:150000$...", "guest")
  ]

  /** Role name to the top-level folders that role may read, in table order. */
  const RolePermissions: map<string, seq<string>> := map[
    "admin" := ["admin_panel", "family", "guest", "logs"],
    "family" := ["family", "guest"],
    "guest" := ["guest"]
  ]

  /**
   * The folders of `role`; a role missing from the table has none. Every
   * role's folders are among the admin role's, which "can access everything".
   */
  function Folders(role: string): (folders: seq<string>)
    ensures role !in RolePermissions ==> folders == []
    ensures forall folder :: folder in folders ==> folder in RolePermissions["admin"]
  {
    if role in RolePermissions then RolePermissions[role] else []
  }

  predicate StartsWith(s: string, prefix: string)
  {
    |prefix| <= |s| && s[..|prefix|] == prefix
  }

  /** `role` is granted `path` when the path starts with '/' followed by one of its folders. */
  ghost predicate Grants(role: string, path: string)
  {
    exists folder :: folder in Folders(role) && StartsWith(path, "/" + folder)
  }

  /** The search of `check_access`: the folders in order, stopping at the first whose prefix matches. */
  function FirstMatch(folders: seq<string>, path: string): (found: bool)
    ensures found <==> exists folder :: folder in folders && StartsWith(path, "/" + folder)
  {
    if folders == [] then false
    else if StartsWith(path, "/" + folders[0]) then true
    else
      assert folders == [folders[0]] + folders[1..];
      FirstMatch(folders[1..], path)
  }

  /** `check_access(role, requested_path)`. */
  function CheckAccess(role: string, path: string): (granted: bool)
    ensures granted <==> Grants(role, path)
  {
    FirstMatch(Folders(role), path)
  }

  /** An unknown role is refused every path, and no error is raised. */
  lemma UnknownRoleRefused(role: string, path: string)
    requires role !in RolePermissions
    ensures !CheckAccess(role, path)
  {
  }

  /** A guest is granted exactly the paths that begin with "/guest". */
  lemma GuestOnlyGuestPrefix(path: string)
    ensures CheckAccess("guest", path) <==> StartsWith(path, "/guest")
  {
  }

  /**
   * Concrete paths: a guest is refused the family and logs folders, but the
   * test is a raw prefix rather than a path segment, so "/guestbook" passes.
   */
  lemma GuestExamples()
    ensures !CheckAccess("guest", "/family/x")
    ensures !CheckAccess("guest", "/logs/x")
    ensures CheckAccess("guest", "/guestbook")
  {
    GuestOnlyGuestPrefix("/family/x");
    GuestOnlyGuestPrefix("/logs/x");
    GuestOnlyGuestPrefix("/guestbook");
    assert "/family/x"[..6] != "/guest" by { assert "/family/x"[1] != "/guest"[1]; }
    assert "/logs/x"[..6] != "/guest" by { assert "/logs/x"[1] != "/guest"[1]; }
  }

  /** Every path open to the family role is open to the admin role. */
  lemma FamilyWithinAdmin(path: string)
    requires CheckAccess("family", path)
    ensures CheckAccess("admin", path)
  {
  }

  /** Whatever path any role is granted, the admin role is granted too. */
  lemma AdminGrantedEverything(role: string, path: string)
    requires CheckAccess(role, path)
    ensures CheckAccess("admin", path)
  {
  }

  /** Extending a granted path keeps it granted: the test looks at a prefix only. */
  lemma GrantedExtends(role: string, path: string, rest: string)
    requires CheckAccess(role, path)
    ensures CheckAccess(role, path + rest)
  {
  }

  /**
   * The prefix test does not look at path segments: a guest path that climbs
   * out of "/guest" into the family folder is still granted.
   */
  lemma TraversalPassesPrefix()
    ensures CheckAccess("guest", "/guest/../family/x")
  {
    GuestOnlyGuestPrefix("/guest/../family/x");
    assert "/guest/../family/x"[..6] == "/guest";
  }

  /** Every user of the table has a role that the permission table knows. */
  lemma UsersHaveKnownRoles()
    ensures forall name :: name in Users ==> Users[name].role in RolePermissions
  {
  }

  /** Basic-auth credentials of a request. */
  datatype Credentials = Credentials(username: string, password: string)

  /** What the decorator does with a request: run the route handler or abort with a status. */
  datatype Response = RunHandler | Abort(status: int, message: string)

  const InvalidCredentials: string := "Invalid credentials. Please log in."
  const RoleRefused: string := "You do not have permission to access this resource."
  const PathRefused: string := "Access denied to this path."

  /**
   * First guard: credentials are present, the user is in the table and the
   * password verifies against the stored hash. `verify(hash, password)` is the
   * password-hash check; a user absent from the table has no hash, and a
   * missing hash never verifies.
   */
  predicate LoggedIn(verify: (string, string) -> bool, auth: Option<Credentials>)
  {
    && auth.Some?
    && auth.value.username in Users
    && verify(Users[auth.value.username].passwordHash, auth.value.password)
  }

  /**
   * Second guard fails: a role is required and differs from the user's role.
   * An empty required role is falsy and, like an absent one, imposes nothing.
   */
  predicate RoleMismatch(roleRequired: Option<string>, userRole: string)
  {
    roleRequired.Some? && roleRequired.value != "" && userRole != roleRequired.value
  }

  /** The guard chain of `requires_auth`, for a request to `path`. */
  function Authorize(verify: (string, string) -> bool, auth: Option<Credentials>,
                     roleRequired: Option<string>, path: string): (r: Response)
    ensures r.Abort? ==> r.status == 401 || r.status == 403
    ensures r == Abort(401, InvalidCredentials) <==> !LoggedIn(verify, auth)
    ensures r.RunHandler? ==> LoggedIn(verify, auth)
    ensures r.RunHandler? ==> CheckAccess(Users[auth.value.username].role, path)
  {
    if !LoggedIn(verify, auth) then Abort(401, InvalidCredentials)
    else
      var userRole := Users[auth.value.username].role;
      if RoleMismatch(roleRequired, userRole) then Abort(403, RoleRefused)
      else if !CheckAccess(userRole, path) then Abort(403, PathRefused)
      else RunHandler
  }

  /** The handler runs exactly when all three guards pass. */
  lemma HandlerRunsIffGuardsPass(verify: (string, string) -> bool, auth: Option<Credentials>,
                                 roleRequired: Option<string>, path: string)
    ensures Authorize(verify, auth, roleRequired, path) == RunHandler <==>
      && LoggedIn(verify, auth)
      && !RoleMismatch(roleRequired, Users[auth.value.username].role)
      && CheckAccess(Users[auth.value.username].role, path)
  {
  }

  /** Failed or missing credentials yield 401 whatever the role requirement and path. */
  lemma CredentialsCheckedFirst(verify: (string, string) -> bool, auth: Option<Credentials>,
                                roleRequired: Option<string>, path: string)
    requires !LoggedIn(verify, auth)
    ensures Authorize(verify, auth, roleRequired, path) == Abort(401, InvalidCredentials)
  {
  }

  /** A role mismatch yields 403 before the path is looked at. */
  lemma RoleCheckedBeforePath(verify: (string, string) -> bool, auth: Option<Credentials>,
                              roleRequired: Option<string>, path: string)
    requires LoggedIn(verify, auth)
    requires RoleMismatch(roleRequired, Users[auth.value.username].role)
    ensures Authorize(verify, auth, roleRequired, path) == Abort(403, RoleRefused)
  {
  }

  /** A verified user who passes the role check but not the path check gets the path-403. */
  lemma PathCheckedLast(verify: (string, string) -> bool, auth: Option<Credentials>,
                        roleRequired: Option<string>, path: string)
    requires LoggedIn(verify, auth)
    requires !RoleMismatch(roleRequired, Users[auth.value.username].role)
    requires !CheckAccess(Users[auth.value.username].role, path)
    ensures Authorize(verify, auth, roleRequired, path) == Abort(403, PathRefused)
  {
  }

  /** An empty required role behaves as no requirement at all. */
  lemma EmptyRoleRequiredIsNone(verify: (string, string) -> bool, auth: Option<Credentials>, path: string)
    ensures Authorize(verify, auth, Some(""), path) == Authorize(verify, auth, None, path)
  {
  }

  /** Whatever password check is used, the guest user reaches a handler only under "/guest". */
  lemma GuestUserConfined(verify: (string, string) -> bool, password: string,
                          roleRequired: Option<string>, path: string)
    requires Authorize(verify, Some(Credentials("guest_user", password)), roleRequired, path) == RunHandler
    ensures StartsWith(path, "/guest")
  {
  }
}
