/** The route table and the navigation guard. Each route may ask for a
    logged-in user, an administrator, or a guest; before every navigation the
    guard checks these in that order against the session store and either
    lets the navigation proceed or redirects it. */
module Router {

  import opened Records
  import opened UserStore

  const HOME := "home"
  const LOGIN := "login"
  const ADMIN := "admin"

  /** A route's `meta`; an absent flag is false. */
  datatype Meta = Meta(requiresAuth: bool, requiresAdmin: bool, requiresGuest: bool)

  const OPEN := Meta(false, false, false)

  datatype Route = Route(path: string, name: string, meta: Meta)

  /** The application's routes, in declaration order. */
  const ROUTES: seq<Route> := [
    Route("/", HOME, OPEN),
    Route("/login", LOGIN, Meta(false, false, true)),
    Route("/register", "register", Meta(false, false, true)),
    Route("/article/:id", "article-detail", OPEN),
    Route("/article/edit/:id?", "article-edit", Meta(true, false, false)),
    Route("/profile/:id?", "profile", Meta(true, false, false)),
    Route("/favorites", "favorites", Meta(true, false, false)),
    Route("/admin", ADMIN, Meta(true, true, false)),
    Route("/search", "search", OPEN)
  ]

  /** A navigation target: the matched route's meta and the full path asked for. */
  datatype Target = Target(meta: Meta, fullPath: string)

  /** `next()`, or `next({ name, query: { redirect } })`. */
  datatype Decision = Proceed | Redirect(name: string, redirect: Option<string>)

  /** `beforeEach`: a page that needs a login sends a visitor who is not
      logged in to the login page, remembering where they were going; a page
      that needs an administrator sends anyone else home; a guest-only page
      sends a logged-in user home; everything else proceeds. */
  function Guard(to: Target, s: Session): (d: Decision)
    ensures d == Proceed <==>
      && (to.meta.requiresAuth ==> IsLoggedIn(s))
      && (to.meta.requiresAdmin ==> IsAdmin(s))
      && (to.meta.requiresGuest ==> !IsLoggedIn(s))
    ensures d == Redirect(LOGIN, Some(to.fullPath)) <==> to.meta.requiresAuth && !IsLoggedIn(s)
    ensures d.Redirect? ==> d == Redirect(LOGIN, Some(to.fullPath)) || d == Redirect(HOME, None)
  {
    if to.meta.requiresAuth && !IsLoggedIn(s) then Redirect(LOGIN, Some(to.fullPath))
    else if to.meta.requiresAdmin && !IsAdmin(s) then Redirect(HOME, None)
    else if to.meta.requiresGuest && IsLoggedIn(s) then Redirect(HOME, None)
    else Proceed
  }

  /** The route with a given name, if any. */
  function Named(name: string): (r: Option<Route>)
    ensures r.Some? ==> r.value in ROUTES && r.value.name == name
    ensures r.None? ==> forall i :: 0 <= i < |ROUTES| ==> ROUTES[i].name != name
  {
    NamedIn(ROUTES, name)
  }

  function NamedIn(routes: seq<Route>, name: string): (r: Option<Route>)
    ensures r.Some? ==> r.value in routes && r.value.name == name
    ensures r.None? ==> forall i :: 0 <= i < |routes| ==> routes[i].name != name
  {
    if |routes| == 0 then None
    else if routes[0].name == name then Some(routes[0])
    else NamedIn(routes[1..], name)
  }

  /** The shape of the route table: nine routes; the editor, profile,
      favorites and admin pages need a login, only the admin page needs an
      administrator, and only the login and register pages are for guests. */
  lemma RouteTable()
    ensures |ROUTES| == 9
    ensures Named(HOME).Some? && Named(HOME).value.path == "/"
    ensures forall i :: 0 <= i < |ROUTES| ==>
      (ROUTES[i].meta.requiresAuth <==> ROUTES[i].name in {"article-edit", "profile", "favorites", ADMIN})
    ensures forall i :: 0 <= i < |ROUTES| ==> (ROUTES[i].meta.requiresAdmin <==> ROUTES[i].name == ADMIN)
    ensures forall i :: 0 <= i < |ROUTES| ==>
      (ROUTES[i].meta.requiresGuest <==> ROUTES[i].name in {LOGIN, "register"})
  {
    assert ROUTES[0].name == HOME;
  }

  /** No two routes share a name or a path. */
  lemma RoutesAreDistinct()
    ensures forall i, j :: 0 <= i < j < |ROUTES| ==> ROUTES[i].name != ROUTES[j].name
    ensures forall i, j :: 0 <= i < j < |ROUTES| ==> ROUTES[i].path != ROUTES[j].path
  {
  }

  /** A route without flags is open to everyone. */
  lemma OpenRoutesProceed(r: Route, fullPath: string, s: Session)
    requires r in ROUTES && r.meta == OPEN
    ensures Guard(Target(r.meta, fullPath), s) == Proceed
  {
  }

  /** Only a logged-in administrator reaches the admin page; a visitor who is
      not logged in is asked to log in first, even when the stored user is an
      administrator. */
  lemma AdminPageOnlyForAdmins(fullPath: string, s: Session)
    ensures Named(ADMIN).Some?
    ensures var to := Target(Named(ADMIN).value.meta, fullPath);
      && (Guard(to, s) == Proceed <==> IsLoggedIn(s) && IsAdmin(s))
      && (!IsLoggedIn(s) ==> Guard(to, s) == Redirect(LOGIN, Some(fullPath)))
  {
    assert ROUTES[7].name == ADMIN;
    assert forall i :: 0 <= i < 7 ==> ROUTES[i].name != ADMIN;
  }

  /** A redirect never leads to another redirect: the page the guard sends
      a navigation to admits the same session at once. */
  lemma NoRedirectChain(to: Target, s: Session)
    ensures var d := Guard(to, s);
      d.Redirect? ==>
        && Named(d.name).Some?
        && Guard(Target(Named(d.name).value.meta, ""), s) == Proceed
  {
    assert ROUTES[0].name == HOME && ROUTES[1].name == LOGIN;
  }

  /** The guard over every route of the table for a signed-out visitor: the
      four pages that need a login redirect to it, the rest proceed. */
  lemma SignedOutVisitor(i: int, fullPath: string)
    requires 0 <= i < |ROUTES|
    ensures var d := Guard(Target(ROUTES[i].meta, fullPath), SIGNED_OUT);
      d == (if ROUTES[i].meta.requiresAuth then Redirect(LOGIN, Some(fullPath)) else Proceed)
  {
  }
}
