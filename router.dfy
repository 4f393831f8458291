/**
 * The front end's route table and its navigation guard. The guard looks at
 * the `meta` flags of the matched route records and decides, once per
 * navigation, whether to proceed or to redirect. Whether the user is logged
 * in and whether they are an admin come from the auth store and are inputs
 * here.
 */
module Router {
  import opened Wrappers

  /** A route's `meta` object; an absent flag is false. */
  datatype Meta = Meta(requiresAuth: bool, requiresAdmin: bool, guestOnly: bool)

  datatype Route = Route(path: string, name: string, meta: Meta)

  const Open: Meta := Meta(false, false, false)
  const Member: Meta := Meta(true, false, false)
  const Guest: Meta := Meta(false, false, true)
  const AdminOnly: Meta := Meta(true, true, false)

  const Routes: seq<Route> := [
    Route("/", "home", Open),
    Route("/problems", "problems", Open),
    Route("/problems/:id", "problem-detail", Open),
    Route("/submissions", "submissions", Member),
    Route("/submissions/:id", "submission-detail", Member),
    Route("/login", "login", Guest),
    Route("/signup", "signup", Guest),
    Route("/profile", "profile", Member),
    Route("/admin", "admin", AdminOnly),
    Route("/admin/problems", "admin-problems", AdminOnly),
    Route("/admin/problems/create", "admin-problem-create", AdminOnly),
    Route("/admin/problems/:id/edit", "admin-problem-edit", AdminOnly),
    Route("/admin/settings", "admin-settings", AdminOnly),
    Route("/about", "about", Open),
    Route("/:pathMatch(.*)*", "not-found", Open)
  ]

  /** The one call of `next` a navigation makes: proceed, or go to a path with an optional `redirect` query. */
  datatype Navigation = Proceed | Redirect(path: string, redirectQuery: Option<string>)

  predicate AnyAuth(matched: seq<Meta>) {
    exists k :: 0 <= k < |matched| && matched[k].requiresAuth
  }

  predicate AnyAdmin(matched: seq<Meta>) {
    exists k :: 0 <= k < |matched| && matched[k].requiresAdmin
  }

  predicate AnyGuest(matched: seq<Meta>) {
    exists k :: 0 <= k < |matched| && matched[k].guestOnly
  }

  /**
   * `router.beforeEach`: a record needing login sends a logged-out user to
   * `/login` (remembering the target) and a logged-in non-admin away from an
   * admin record to `/`; otherwise a guest-only record sends a logged-in user
   * to `/`; everything else proceeds.
   */
  function Guard(matched: seq<Meta>, fullPath: string, isLoggedIn: bool, isAdmin: bool): (r: Navigation)
    ensures r == Redirect("/login", Some(fullPath)) <==> AnyAuth(matched) && !isLoggedIn
    ensures r == Redirect("/", None) <==>
      (AnyAuth(matched) && isLoggedIn && AnyAdmin(matched) && !isAdmin) ||
      (!AnyAuth(matched) && AnyGuest(matched) && isLoggedIn)
    ensures r.Proceed? || r == Redirect("/login", Some(fullPath)) || r == Redirect("/", None)
  {
    if AnyAuth(matched) then
      if !isLoggedIn then Redirect("/login", Some(fullPath))
      else if AnyAdmin(matched) && !isAdmin then Redirect("/", None)
      else Proceed
    else if AnyGuest(matched) then
      if isLoggedIn then Redirect("/", None) else Proceed
    else Proceed
  }

  /** Every admin route also needs login. */
  lemma {:induction false} AdminRoutesNeedLogin()
    ensures forall k :: 0 <= k < |Routes| && Routes[k].meta.requiresAdmin ==> Routes[k].meta.requiresAuth
  {
  }

  /** Only a logged-in admin gets through to an admin route. */
  lemma {:induction false} AdminRoutesOnlyForAdmins(k: int, fullPath: string, isLoggedIn: bool, isAdmin: bool)
    requires 0 <= k < |Routes| && Routes[k].meta.requiresAdmin
    ensures Guard([Routes[k].meta], fullPath, isLoggedIn, isAdmin).Proceed? <==> isLoggedIn && isAdmin
  {
    AdminRoutesNeedLogin();
    assert [Routes[k].meta][0] == Routes[k].meta;
  }

  /** A record that needs login wins over one that is for guests only. */
  lemma {:induction false} AuthCheckedBeforeGuest(matched: seq<Meta>, fullPath: string, isAdmin: bool)
    requires AnyAuth(matched) && AnyGuest(matched)
    ensures Guard(matched, fullPath, false, isAdmin) == Redirect("/login", Some(fullPath))
    ensures !AnyAdmin(matched) ==> Guard(matched, fullPath, true, isAdmin).Proceed?
  {
  }

  /** Routes without flags are open to everyone. */
  lemma {:induction false} OpenRoutesAlwaysProceed(k: int, fullPath: string, isLoggedIn: bool, isAdmin: bool)
    requires 0 <= k < |Routes| && Routes[k].meta == Open
    ensures Guard([Routes[k].meta], fullPath, isLoggedIn, isAdmin).Proceed?
  {
    assert [Routes[k].meta][0] == Open;
  }
}
