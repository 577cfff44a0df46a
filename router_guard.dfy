/** The web front end's navigation guard: before every route change it decides whether the
    navigation goes ahead, where it is sent instead, and whether the session is ended. The
    session and permission stores are inputs: whether the user is authenticated, the
    permission store's verdict on a list of codes, and the paths of the menus the user may
    open, in menu order. */
module RouterGuard {
  import opened Wrappers

  const LoginPath := "/login"
  const RegisterPath := "/register"
  const HomePath := "/"

  /** The route being entered, with the meta fields of its matched records merged as the
      router does: a child of the main layout inherits `requiresAuth`. */
  datatype Target = Target(path: string, requiresAuth: bool, permissions: Option<seq<string>>)

  datatype Navigation = Proceed | Redirect(path: string)

  /** The single `next` call of a navigation, and whether the guard logged out first. */
  datatype Decision = Decision(next: Navigation, logout: bool)

  /** The route names required permissions and the store says the user lacks them. */
  predicate LacksPermissions(to: Target, hasPermission: seq<string> -> bool) {
    to.permissions.Some? && |to.permissions.value| > 0 && !hasPermission(to.permissions.value)
  }

  predicate IsEntryPage(path: string) {
    path == LoginPath || path == RegisterPath
  }

  function BeforeEach(to: Target, isAuthenticated: bool, hasPermission: seq<string> -> bool,
                      authorizedMenuPaths: seq<string>): (d: Decision)
    // an authenticated user is sent home from the login and register pages
    ensures isAuthenticated && IsEntryPage(to.path) ==> d == Decision(Redirect(HomePath), false)
    // a protected page sends an anonymous visitor to the login page
    ensures !isAuthenticated && to.requiresAuth ==> d == Decision(Redirect(LoginPath), false)
    // a protected page the user lacks permissions for sends them to their first menu, or
    // ends the session when they have none
    ensures isAuthenticated && !IsEntryPage(to.path) && to.requiresAuth && LacksPermissions(to, hasPermission) ==>
              d == if authorizedMenuPaths != [] then Decision(Redirect(authorizedMenuPaths[0]), false)
                   else Decision(Redirect(LoginPath), true)
    // everything else goes ahead
    ensures d.next == Proceed <==>
              !(isAuthenticated && IsEntryPage(to.path))
              && !(to.requiresAuth && (!isAuthenticated || LacksPermissions(to, hasPermission)))
    ensures d.logout ==> d.next == Redirect(LoginPath)
  {
    if to.path == LoginPath && isAuthenticated then Decision(Redirect(HomePath), false)
    else if to.path == RegisterPath && isAuthenticated then Decision(Redirect(HomePath), false)
    else if to.requiresAuth && !isAuthenticated then Decision(Redirect(LoginPath), false)
    else if to.requiresAuth && isAuthenticated && LacksPermissions(to, hasPermission) then
      if |authorizedMenuPaths| > 0 then Decision(Redirect(authorizedMenuPaths[0]), false)
      else Decision(Redirect(LoginPath), true)
    else Decision(Proceed, false)
  }

  /** The session is ended only when an authenticated user opens a protected page they lack
      permissions for and has no menu to fall back on. */
  lemma LogoutOnlyWithoutMenus(to: Target, isAuthenticated: bool, hasPermission: seq<string> -> bool,
                               authorizedMenuPaths: seq<string>)
    ensures BeforeEach(to, isAuthenticated, hasPermission, authorizedMenuPaths).logout <==>
              isAuthenticated && !IsEntryPage(to.path) && to.requiresAuth
              && LacksPermissions(to, hasPermission) && authorizedMenuPaths == []
  {
  }

  /** Redirects to the login page settle: once the guard has sent a visitor there (or ended
      their session and sent them there) the login page, which does not require
      authentication, is entered without a further redirect, as long as the login page is
      not itself one of the user's menus. */
  lemma LoginRedirectSettles(to: Target, isAuthenticated: bool, hasPermission: seq<string> -> bool,
                             authorizedMenuPaths: seq<string>, login: Target)
    requires login.path == LoginPath && !login.requiresAuth && LoginPath !in authorizedMenuPaths
    requires BeforeEach(to, isAuthenticated, hasPermission, authorizedMenuPaths).next == Redirect(LoginPath)
    ensures var stillAuthenticated := isAuthenticated && !BeforeEach(to, isAuthenticated, hasPermission, authorizedMenuPaths).logout;
            BeforeEach(login, stillAuthenticated, hasPermission, authorizedMenuPaths).next == Proceed
  {
  }
}
