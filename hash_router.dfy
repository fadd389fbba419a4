/** The single-page front end of `index.js`: the hash router, the login and
    registration forms and the role-gated dashboard. The DOM, `fetch` and
    `localStorage` are outside the model; what the page reads from them
    (the hash, the stored user, a server's reply) enters as parameters, and
    what it does is returned as a value. */
module HashRouter {
  import opened Sql

  /** The four render functions. */
  datatype View = Login | Register | Dashboard | NotFound

  /** `getUser()`: the parsed `user` entry of `localStorage`, or nothing. */
  datatype StoredUser = StoredUser(email: string, role: string)

  /** `location.hash.slice(1) || "/dashboard"`: the hash without its `#`, and
      the dashboard when that is empty. */
  function PathOf(hash: string): (path: string)
    ensures |hash| <= 1 ==> path == "/dashboard"
    ensures |hash| > 1 ==> path == hash[1..]
    ensures path != ""
  {
    if |hash| <= 1 then "/dashboard" else hash[1..]
  }

  /** The `routes` table. */
  const Routes: map<string, View> := map["/login" := Login, "/register" := Register, "/dashboard" := Dashboard]

  /** Names every plain object inherits from `Object.prototype`; `routes[name]`
      finds one of these although the table never declared it. */
  const InheritedNames: set<string> := {
    "constructor", "hasOwnProperty", "isPrototypeOf", "propertyIsEnumerable",
    "toLocaleString", "toString", "valueOf", "__proto__",
    "__defineGetter__", "__defineSetter__", "__lookupGetter__", "__lookupSetter__"}

  /** What `router()` does: render one of the views, or call an inherited
      `Object.prototype` member that renders nothing. */
  datatype Dispatch = Render(view: View) | CallInherited(name: string)

  /** `router()` as written: the last branch looks the path up with
      `routes[path]`, which also finds inherited members. */
  function RouteAsWritten(path: string, user: Option<StoredUser>): Dispatch {
    if user.None? && path != "/login" && path != "/register" then Render(NotFound)
    else if user.Some? && (path == "/login" || path == "/register") then Render(Dashboard)
    else if path in Routes then Render(Routes[path])
    else if path in InheritedNames then CallInherited(path)
    else Render(NotFound)
  }

  /** A signed-in user who opens `#constructor` (or any inherited name) gets
      no view at all: `Object` is called instead of `renderNotFound`, and the
      previous page stays on screen. */
  lemma InheritedNameRendersNothing()
    ensures RouteAsWritten(PathOf("#constructor"), Some(StoredUser("a@b.c", "visitor"))) ==
            CallInherited("constructor")
    ensures Route(PathOf("#constructor"), Some(StoredUser("a@b.c", "visitor"))) == NotFound
  {
    assert PathOf("#constructor") == "constructor";
  }

  /** `router()` with the lookup restricted to the table's own keys. Signed
      out, only the login and register pages exist; signed in, both of them
      and the dashboard lead to the dashboard; every other path is the
      not-found page. */
  function Route(path: string, user: Option<StoredUser>): (v: View)
    ensures v == Login <==> user.None? && path == "/login"
    ensures v == Register <==> user.None? && path == "/register"
    ensures v == Dashboard <==> user.Some? && (path == "/login" || path == "/register" || path == "/dashboard")
    ensures path !in Routes ==> v == NotFound
  {
    if user.None? && path != "/login" && path != "/register" then NotFound
    else if user.Some? && (path == "/login" || path == "/register") then Dashboard
    else if path in Routes then Routes[path]
    else NotFound
  }

  /** The lookup is the only difference: on every path that is not an
      inherited name, and for every signed-out visitor, the router as
      written renders exactly the view `Route` chooses. */
  lemma RouteAgrees(path: string, user: Option<StoredUser>)
    ensures RouteAsWritten(path, user) == Render(Route(path, user)) <==>
            !(user.Some? && path in InheritedNames)
  {
    if user.Some? && path in InheritedNames {
      assert path !in Routes;
    }
  }

  /** The dashboard reads `user.role`, so it must never be rendered without a
      stored user; the router guarantees that, as written and corrected. */
  lemma DashboardNeedsUser(path: string, user: Option<StoredUser>)
    ensures RouteAsWritten(path, user) == Render(Dashboard) ==> user.Some?
    ensures Route(path, user) == Dashboard ==> user.Some?
  {
  }

  /** `logout-link` is shown (`inline`) exactly when a user is stored. */
  function LogoutDisplay(user: Option<StoredUser>): (display: string)
    ensures display == "inline" <==> user.Some?
    ensures display == "none" <==> user.None?
  {
    if user.Some? then "inline" else "none"
  }

  // ---------------------------------------------------------------------------
  // Forms.

  /** What submitting a form leads to. */
  datatype Outcome<+T> =
    | Alert(message: string)
    | Proceed(value: T, nextHash: string)

  /** The login form: the server's reply is the list of users matching the
      email and password; the first one is stored and the page moves to the
      dashboard, an empty list raises an alert. */
  function SubmitLogin(matches: seq<StoredUser>): (o: Outcome<StoredUser>)
    ensures o.Proceed? <==> |matches| > 0
    ensures o.Proceed? ==> o.value == matches[0] && o.nextHash == "#/dashboard"
    ensures o.Alert? ==> o.message == "Incorrect email or password"
  {
    if |matches| > 0 then Proceed(matches[0], "#/dashboard") else Alert("Incorrect email or password")
  }

  /** A successful login lands on the dashboard with that user stored. */
  lemma LoginLeadsToDashboard(matches: seq<StoredUser>)
    requires |matches| > 0
    ensures var o := SubmitLogin(matches);
      Route(PathOf(o.nextHash), Some(o.value)) == Dashboard
  {
    assert PathOf("#/dashboard") == "/dashboard";
  }

  /** The fields of `#register-form`. */
  datatype RegisterForm = RegisterForm(fullName: string, email: string, password: string,
                                       confirm: string, role: string)

  /** The JSON body posted to the users endpoint. */
  datatype RegisterPayload = RegisterPayload(fullName: string, email: string, password: string, role: string)

  /** The register form: differing passwords stop it with an alert and
      nothing is posted; otherwise the four fields other than the
      confirmation are posted and the page moves to the login view. The
      reply is not inspected. */
  function SubmitRegister(form: RegisterForm): (o: Outcome<RegisterPayload>)
    ensures o.Alert? <==> form.password != form.confirm
    ensures o.Alert? ==> o.message == "Passwords do not match"
    ensures o.Proceed? ==>
      && o.value == RegisterPayload(form.fullName, form.email, form.password, form.role)
      && o.value.password == form.confirm
      && o.nextHash == "#/login"
  {
    if form.password != form.confirm then Alert("Passwords do not match")
    else Proceed(RegisterPayload(form.fullName, form.email, form.password, form.role), "#/login")
  }

  /** After registering the visitor is not signed in, so the login page is
      what they see next. */
  lemma RegisterLeadsToLogin(form: RegisterForm)
    requires form.password == form.confirm
    ensures Route(PathOf(SubmitRegister(form).nextHash), None) == Login
  {
    assert PathOf("#/login") == "/login";
  }

  /** What is on screen: the view last rendered and whether the logout link
      is shown. */
  datatype Screen = Screen(view: View, logoutShown: bool)

  /** The page between two events: the hash, the stored user and the screen. */
  datatype Page = Page(hash: string, user: Option<StoredUser>, screen: Screen)

  /** One run of `router()` (with the corrected lookup). */
  function RunRouter(hash: string, user: Option<StoredUser>): (sc: Screen)
    ensures sc.logoutShown <==> user.Some?
    ensures sc.view == Route(PathOf(hash), user)
  {
    Screen(Route(PathOf(hash), user), LogoutDisplay(user) == "inline")
  }

  /** Assigning `location.hash`. The router listens only to `hashchange`,
      which the browser fires only when the hash actually changes; assigning
      the current hash leaves the screen as it was. */
  function SetHash(page: Page, hash: string): (next: Page)
    ensures next.hash == hash && next.user == page.user
    ensures hash != page.hash ==> next.screen == RunRouter(hash, page.user)
    ensures hash == page.hash ==> next.screen == page.screen
  {
    if hash == page.hash then page.(hash := hash)
    else Page(hash, page.user, RunRouter(hash, page.user))
  }

  /** The logout link's click handler as written: remove the stored user,
      then set the hash to `/login` (which reads back as `#/login`). */
  function LogoutAsWritten(page: Page): (next: Page)
    ensures next.user.None? && next.hash == "#/login"
    ensures next.screen == Screen(Login, false) || next.screen == page.screen
  {
    SetHash(page.(user := None), "#/login")
  }

  /** From any other hash, logging out shows the login page and hides the
      logout link. */
  lemma LogoutLeadsToLogin(page: Page)
    requires page.hash != "#/login"
    ensures LogoutAsWritten(page).screen == Screen(Login, false)
  {
    assert PathOf("#/login") == "/login";
  }

  /** A signed-in user can stand on `#/login` (the router shows the dashboard
      there, for instance after pressing Back). Logging out from there
      fires no `hashchange`: the dashboard and the logout link stay on
      screen although no user is stored any more. */
  lemma LogoutOnLoginHashKeepsDashboard(u: StoredUser)
    ensures var page := Page("#/login", Some(u), RunRouter("#/login", Some(u)));
      && page.screen == Screen(Dashboard, true)
      && LogoutAsWritten(page) == Page("#/login", None, Screen(Dashboard, true))
  {
    assert PathOf("#/login") == "/login";
  }

  /** The handler with the router run after the hash is set, whether or not
      the hash changed. */
  function Logout(page: Page): (next: Page)
    ensures next.user.None? && next.hash == "#/login"
    ensures next.screen == Screen(Login, false)
  {
    assert PathOf("#/login") == "/login";
    var moved := SetHash(page.(user := None), "#/login");
    moved.(screen := RunRouter(moved.hash, None))
  }

  /** The handler as written does what the corrected one does exactly when
      the hash was not `#/login` or the login page was already on screen. */
  lemma LogoutAgrees(page: Page)
    ensures LogoutAsWritten(page) == Logout(page) <==>
            page.hash != "#/login" || page.screen == Screen(Login, false)
  {
    if page.hash != "#/login" {
      LogoutLeadsToLogin(page);
    }
  }

  // ---------------------------------------------------------------------------
  // Dashboard.

  /** One event as the events endpoint returns it. */
  datatype Event = Event(id: string, title: string, date: string, capacity: int)

  /** An event card; `deletable` is whether it carries a Delete button. */
  datatype Card = Card(event: Event, deletable: bool)

  /** The dashboard: the create-event form and the events, or the
      no-events message when there are none. */
  datatype DashboardPage = DashboardPage(createForm: bool, cards: seq<Card>, empty: bool)

  predicate IsAdmin(user: StoredUser) {
    user.role == "admin"
  }

  /** `renderDashboard` followed by `loadEvents`. Only an admin gets the
      create-event form and a Delete button on each card; everyone sees every
      event, in the order the server sent them. */
  function RenderDashboard(user: StoredUser, events: seq<Event>): (page: DashboardPage)
    ensures page.createForm <==> IsAdmin(user)
    ensures page.empty <==> events == []
    ensures |page.cards| == |events|
    ensures forall k :: 0 <= k < |events| ==>
      page.cards[k].event == events[k] && (page.cards[k].deletable <==> IsAdmin(user))
  {
    DashboardPage(IsAdmin(user), seq(|events|, k requires 0 <= k < |events| => Card(events[k], IsAdmin(user))), events == [])
  }
}
