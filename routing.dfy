/** The application shell and its routes (App.tsx): what the top level
    shows while the auth store starts up, the role guard `ProtectedRoute`,
    the route table, and where the index route sends each user. A redirect
    is followed by visiting the page at its path, up to a number of hops. */
module Routing {
  import opened Wrappers
  import opened Catalog

  /** The auth store's state as the components read it. */
  datatype AuthState = AuthState(profile: Option<User>, loading: bool, initialized: bool)

  predicate Ready(auth: AuthState)
  {
    auth.initialized && !auth.loading
  }

  datatype Page = Index | Exercises | Workouts | TrainingPlans | NutritionPlans | MyPlan | MyNutrition | Chat

  /** What a route renders: the spinner, a `<Navigate>`, or the page. */
  datatype View = Spinner | Redirect(to: string) | Show(page: Page)

  function PathOf(p: Page): string
  {
    match p
    case Index => "/"
    case Exercises => "/exercises"
    case Workouts => "/workouts"
    case TrainingPlans => "/training-plans"
    case NutritionPlans => "/nutrition-plans"
    case MyPlan => "/my-plan"
    case MyNutrition => "/my-nutrition"
    case Chat => "/chat"
  }

  /** The route matching a path, if the table has one. */
  function PageAt(path: string): (p: Option<Page>)
  {
    if path == "/" then Some(Index)
    else if path == "/exercises" then Some(Exercises)
    else if path == "/workouts" then Some(Workouts)
    else if path == "/training-plans" then Some(TrainingPlans)
    else if path == "/nutrition-plans" then Some(NutritionPlans)
    else if path == "/my-plan" then Some(MyPlan)
    else if path == "/my-nutrition" then Some(MyNutrition)
    else if path == "/chat" then Some(Chat)
    else None
  }

  /** Paths and pages are in one-to-one correspondence. */
  lemma PathsRoundTrip(p: Page, path: string)
    ensures PageAt(PathOf(p)) == Some(p)
    ensures PageAt(path).Some? ==> PathOf(PageAt(path).value) == path
  {
  }

  /** The `allowedRoles` of each route: the library and plan editors are for
      coaches, the athlete's plan pages for athletes, and the chat for
      anyone signed in. */
  function AllowedRoles(p: Page): (roles: Option<seq<string>>)
    ensures p in {Exercises, Workouts, TrainingPlans, NutritionPlans} <==> roles == Some(["coach"])
    ensures p in {MyPlan, MyNutrition} <==> roles == Some(["athlete"])
    ensures p in {Index, Chat} <==> roles.None?
  {
    match p
    case Exercises => Some(["coach"])
    case Workouts => Some(["coach"])
    case TrainingPlans => Some(["coach"])
    case NutritionPlans => Some(["coach"])
    case MyPlan => Some(["athlete"])
    case MyNutrition => Some(["athlete"])
    case Index => None
    case Chat => None
  }

  /** `ProtectedRoute`: the spinner until the store is ready, home without
      a profile, a role redirect when the role is not allowed, else the
      page. */
  function ProtectedRoute(auth: AuthState, page: Page, allowedRoles: Option<seq<string>>): (v: View)
    ensures !Ready(auth) ==> v == Spinner
    ensures Ready(auth) && auth.profile.None? ==> v == Redirect("/")
    ensures Ready(auth) && auth.profile.Some? && allowedRoles.Some? && auth.profile.value.role !in allowedRoles.value ==>
      v == Redirect(if auth.profile.value.role == "athlete" then "/my-plan" else "/")
    ensures v.Show? <==> Ready(auth) && auth.profile.Some? && (allowedRoles.None? || auth.profile.value.role in allowedRoles.value)
    ensures v.Show? ==> v.page == page
  {
    if !auth.initialized || auth.loading then Spinner
    else if auth.profile.None? then Redirect("/")
    else if allowedRoles.Some? && auth.profile.value.role !in allowedRoles.value then
      if auth.profile.value.role == "athlete" then Redirect("/my-plan") else Redirect("/")
    else Show(page)
  }

  /** The index route: athletes to their plan, everyone else, signed in or
      not, to the training plans. */
  function IndexElement(profile: Option<User>): (v: View)
    ensures profile.Some? && profile.value.role == "athlete" ==> v == Redirect("/my-plan")
    ensures !(profile.Some? && profile.value.role == "athlete") ==> v == Redirect("/training-plans")
  {
    if profile.Some? && profile.value.role == "athlete" then Redirect("/my-plan") else Redirect("/training-plans")
  }

  /** Visiting a page of the table. */
  function Visit(auth: AuthState, page: Page): (v: View)
    ensures page == Index ==> v == IndexElement(auth.profile)
    ensures page != Index ==> v == ProtectedRoute(auth, page, AllowedRoles(page))
  {
    if page == Index then IndexElement(auth.profile) else ProtectedRoute(auth, page, AllowedRoles(page))
  }

  /** Following redirects for at most `hops` hops. */
  function Follow(auth: AuthState, page: Page, hops: nat): View
    decreases hops
  {
    match Visit(auth, page)
    case Redirect(to) =>
      if hops == 0 || PageAt(to).None? then Redirect(to)
      else Follow(auth, PageAt(to).value, hops - 1)
    case v => v
  }

  /** Every redirect leads to a page of the table. */
  lemma RedirectsStayInTable(auth: AuthState, page: Page)
    ensures Visit(auth, page).Redirect? ==> PageAt(Visit(auth, page).to).Some?
  {
  }

  /** A ready coach or athlete reaches a page within two hops from any
      route, and that page is one their role may see: a coach's own pages
      and the chat as asked, and anything else an athlete asks for ends on
      their plan. */
  lemma SignedInSettles(auth: AuthState, page: Page)
    requires Ready(auth) && auth.profile.Some? && auth.profile.value.role in {"coach", "athlete"}
    ensures Follow(auth, page, 2).Show?
    ensures var shown := Follow(auth, page, 2).page;
      AllowedRoles(shown).None? || auth.profile.value.role in AllowedRoles(shown).value
    ensures page != Index && (AllowedRoles(page).None? || auth.profile.value.role in AllowedRoles(page).value) ==>
      Follow(auth, page, 2) == Show(page)
    ensures auth.profile.value.role == "athlete" && page != Chat && page != MyNutrition ==>
      Follow(auth, page, 2) == Show(MyPlan)
  {
  }

  /** Without a profile, or with a role other than the two the app names,
      the index route and the training plans send each other back and
      forth: no number of hops reaches a page. */
  lemma {:induction false} RedirectCycle(auth: AuthState, hops: nat)
    requires Ready(auth)
    requires auth.profile.None? || auth.profile.value.role !in {"coach", "athlete"}
    ensures !Follow(auth, Index, hops).Show?
    ensures !Follow(auth, TrainingPlans, hops).Show?
    decreases hops
  {
    if hops > 0 {
      RedirectCycle(auth, hops - 1);
    }
  }

  /** What the top level renders before the router: the spinner until the
      store is ready, the landing page to a visitor who has not opened the
      sign-in dialog, else the routes (and the dialog, when open). */
  datatype Screen = Loading | Landing | Routes(authDialog: bool)

  function AppScreen(auth: AuthState, showAuth: bool): (s: Screen)
    ensures !Ready(auth) <==> s == Loading
    ensures s == Landing <==> Ready(auth) && auth.profile.None? && !showAuth
    ensures s.Routes? ==> s.authDialog == showAuth && (auth.profile.Some? || showAuth)
  {
    if !auth.initialized || auth.loading then Loading
    else if auth.profile.None? && !showAuth then Landing
    else Routes(showAuth)
  }

  /** Visitors reach the routes only with the dialog open, and there the
      index route never settles. */
  lemma VisitorWithDialogCycles(auth: AuthState, hops: nat)
    requires Ready(auth) && auth.profile.None?
    ensures AppScreen(auth, true) == Routes(true)
    ensures !Follow(auth, Index, hops).Show?
  {
    RedirectCycle(auth, hops);
  }
}
