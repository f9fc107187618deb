/** `App.jsx`: the route table and its two guards, over the authentication
    context's values. Rendering is reduced to which screen results: the
    loading screen, a redirect, or the page. */
module App {
  import opened Common
  import opened AuthContext

  datatype Page =
    | LoginPage | RegisterPage | HomePage | ExplorePage | ModulePage | QuizPage
    | ProfilePage | ContestsPage | ContestQuizPage | AdminDashboardPage

  datatype Screen = LoadingScreen | Redirect(to: string) | Show(page: Page)

  /** How a route is wrapped. */
  datatype Guard = Public | Protected | AdminOnly

  datatype Route = Route(path: string, guard: Guard, page: Page)

  /** The `<Routes>` table, in order. */
  const Routes: seq<Route> := [
    Route("/login", Public, LoginPage),
    Route("/register", Public, RegisterPage),
    Route("/", Protected, HomePage),
    Route("/explore", Protected, ExplorePage),
    Route("/module/:id", Protected, ModulePage),
    Route("/module/:id/quiz", Protected, QuizPage),
    Route("/profile", Protected, ProfilePage),
    Route("/contests", Protected, ContestsPage),
    Route("/contest/:id/quiz", Protected, ContestQuizPage),
    Route("/admin", AdminOnly, AdminDashboardPage)
  ]

  /** `ProtectedRoute`. */
  function ProtectedRoute(auth: AuthView, adminOnly: bool, page: Page): (s: Screen)
    ensures auth.loading ==> s == LoadingScreen
    ensures !auth.loading && !auth.isAuthenticated ==> s == Redirect("/login")
    ensures s == Show(page) <==> !auth.loading && auth.isAuthenticated && (!adminOnly || auth.role == Some("admin"))
    ensures s.Redirect? ==> s.to == "/login" || (s.to == "/" && adminOnly)
  {
    if auth.loading then LoadingScreen
    else if !auth.isAuthenticated then Redirect("/login")
    else if adminOnly && auth.role != Some("admin") then Redirect("/")
    else Show(page)
  }

  /** `PublicRoute`. */
  function PublicRoute(auth: AuthView, page: Page): (s: Screen)
    ensures auth.loading ==> s == LoadingScreen
    ensures s == Show(page) <==> !auth.loading && !auth.isAuthenticated
    ensures s.Redirect? ==> s.to == "/" && auth.isAuthenticated
  {
    if auth.loading then LoadingScreen
    else if auth.isAuthenticated then Redirect("/")
    else Show(page)
  }

  /** What a route of the table shows. */
  function Render(r: Route, auth: AuthView): Screen {
    match r.guard
    case Public => PublicRoute(auth, r.page)
    case Protected => ProtectedRoute(auth, false, r.page)
    case AdminOnly => ProtectedRoute(auth, true, r.page)
  }

  /** The route of the table with this path. */
  function RouteAt(path: string): (r: Option<Route>)
    ensures r.Some? ==> r.value in Routes && r.value.path == path
    ensures r.None? ==> forall k :: 0 <= k < |Routes| ==> Routes[k].path != path
  {
    if path == "/login" then Some(Routes[0])
    else if path == "/register" then Some(Routes[1])
    else if path == "/" then Some(Routes[2])
    else if path == "/explore" then Some(Routes[3])
    else if path == "/module/:id" then Some(Routes[4])
    else if path == "/module/:id/quiz" then Some(Routes[5])
    else if path == "/profile" then Some(Routes[6])
    else if path == "/contests" then Some(Routes[7])
    else if path == "/contest/:id/quiz" then Some(Routes[8])
    else if path == "/admin" then Some(Routes[9])
    else None
  }

  /** Only `/admin` is for administrators; only `/login` and `/register`
      are public; every path appears once. */
  lemma RouteTableShape()
    ensures forall k :: 0 <= k < |Routes| ==> (Routes[k].guard == AdminOnly <==> Routes[k].path == "/admin")
    ensures forall k :: 0 <= k < |Routes| ==>
              (Routes[k].guard == Public <==> Routes[k].path == "/login" || Routes[k].path == "/register")
    ensures forall i, j :: 0 <= i < j < |Routes| ==> Routes[i].path != Routes[j].path
  {
  }

  /** While the session is being restored every route shows the loading
      screen. */
  lemma LoadingEverywhere(auth: AuthView, k: nat)
    requires auth.loading && k < |Routes|
    ensures Render(Routes[k], auth) == LoadingScreen
  {
  }

  /** The dashboard is shown to an authenticated administrator and to no
      one else, on any route. */
  lemma DashboardOnlyForAdmins(auth: AuthView, k: nat)
    requires k < |Routes|
    ensures Render(Routes[k], auth) == Show(AdminDashboardPage) <==>
              Routes[k].path == "/admin" && !auth.loading && auth.isAuthenticated && auth.role == Some("admin")
  {
  }

  /** A redirect leads to a route of the table that then shows its page: a
      signed-out visitor lands on the login page, a signed-in one on the
      home page. */
  lemma {:induction false} RedirectSettles(auth: AuthView, k: nat)
    requires k < |Routes| && Render(Routes[k], auth).Redirect?
    ensures var to := RouteAt(Render(Routes[k], auth).to);
            && to.Some?
            && Render(to.value, auth) == Show(if auth.isAuthenticated then HomePage else LoginPage)
  {
    var r := Routes[k];
    if auth.isAuthenticated {
      assert Render(r, auth).to == "/";
    } else {
      assert Render(r, auth).to == "/login";
    }
  }
}
