/**
 * The route table of `src/pages/Index.tsx`: while the auth provider is
 * loading only the spinner is shown; otherwise each path either renders a
 * page or redirects, depending on the session and its role.
 */
module Router {
  import opened Wrappers
  import opened Records

  datatype Page = Spinner | Landing | AuthForm | DashboardPage | AdminPage

  /** The five `<Route>` entries, the last being the `*` catch-all. */
  datatype Route = Root | AuthRoute | DashboardRoute | AdminRoute | Fallback

  datatype Decision = Render(page: Page) | Redirect(to: string)

  const RootPath: string := "/"
  const AuthPath: string := "/auth"
  const DashboardPath: string := "/dashboard"
  const AdminPath: string := "/admin"

  function Classify(path: string): Route {
    if path == RootPath then Root
    else if path == AuthPath then AuthRoute
    else if path == DashboardPath then DashboardRoute
    else if path == AdminPath then AdminRoute
    else Fallback
  }

  /** Signed in, with the administrator role. */
  predicate IsAdmin(user: Option<SessionUser>) {
    user.Some? && user.value.role == AdminRole
  }

  /** What `Index` produces for `path`, given the session and the loading flag. */
  function Resolve(path: string, user: Option<SessionUser>, loading: bool): (d: Decision)
    ensures loading ==> d == Render(Spinner)
    ensures d == Render(DashboardPage) ==> user.Some?
    ensures d == Render(AdminPage) <==> !loading && Classify(path) == AdminRoute && IsAdmin(user)
    ensures d.Redirect? ==> Classify(d.to) != Fallback
  {
    if loading then Render(Spinner)
    else
      var authenticated := user.Some?;
      match Classify(path)
      case Root => if !authenticated then Render(Landing) else Redirect(DashboardPath)
      case AuthRoute => if !authenticated then Render(AuthForm) else Redirect(DashboardPath)
      case DashboardRoute => if authenticated then Render(DashboardPage) else Redirect(AuthPath)
      case AdminRoute => if IsAdmin(user) then Render(AdminPage) else Redirect(DashboardPath)
      case Fallback => Redirect(RootPath)
  }

  /** Follows at most `hops` redirects from `path`; `None` if a redirect is still pending. */
  function Navigate(path: string, user: Option<SessionUser>, loading: bool, hops: nat): (r: Option<Page>)
    ensures loading <==> r == Some(Spinner)
    ensures r == Some(AdminPage) ==> IsAdmin(user)
    ensures r == Some(DashboardPage) ==> user.Some?
    decreases hops
  {
    match Resolve(path, user, loading)
    case Render(page) => Some(page)
    case Redirect(to) => if hops == 0 then None else Navigate(to, user, loading, hops - 1)
  }

  /** An unauthenticated visitor never sees the dashboard or the admin panel. */
  lemma GuestsSeeNoPrivatePage(path: string, loading: bool)
    ensures var d := Resolve(path, None, loading);
      d != Render(DashboardPage) && d != Render(AdminPage)
    ensures !loading && Classify(path) == DashboardRoute ==> Resolve(path, None, loading) == Redirect("/auth")
    ensures !loading && Classify(path) == AdminRoute ==> Resolve(path, None, loading) == Redirect("/dashboard")
  {
  }

  /** Signed-in users are sent from `/` and `/auth` to the dashboard; guests see the landing and auth pages. */
  lemma PublicPagesRedirectSignedIn(user: Option<SessionUser>)
    ensures Resolve("/", user, false) == if user.Some? then Redirect("/dashboard") else Render(Landing)
    ensures Resolve("/auth", user, false) == if user.Some? then Redirect("/dashboard") else Render(AuthForm)
  {
  }

  /** A signed-in non-admin asking for `/admin` is sent to the dashboard. */
  lemma NonAdminsBounceToDashboard(user: Option<SessionUser>)
    requires user.Some? && user.value.role != AdminRole
    ensures Resolve("/admin", user, false) == Redirect("/dashboard")
  {
  }

  /** Any unknown path redirects to `/`. */
  lemma UnknownPathsGoHome(path: string, user: Option<SessionUser>)
    requires Classify(path) == Fallback
    ensures Resolve(path, user, false) == Redirect("/")
  {
  }

  /**
   * From every path, for every session, at most two redirects reach a
   * rendered page, and that page is the one the access rules allow.
   */
  lemma RedirectsSettleWithinTwo(path: string, user: Option<SessionUser>, loading: bool)
    ensures Navigate(path, user, loading, 2).Some?
    ensures var page := Navigate(path, user, loading, 2).value;
      && (loading ==> page == Spinner)
      && (!loading && user.None? ==> page == (if Classify(path) in {Root, Fallback} then Landing else AuthForm))
      && (!loading && user.Some? ==> page == (if Classify(path) == AdminRoute && IsAdmin(user) then AdminPage else DashboardPage))
  {
    assert Classify(RootPath) == Root && Classify(AuthPath) == AuthRoute;
    assert Classify(DashboardPath) == DashboardRoute && Classify(AdminPath) == AdminRoute;
  }

  /** Two redirects are needed: one is not always enough. */
  lemma OneRedirectIsNotEnough()
    ensures Navigate("/admin", None, false, 1).None?
  {
    assert Classify(DashboardPath) == DashboardRoute;
  }
}
