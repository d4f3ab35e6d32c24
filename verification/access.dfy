/** Who may see which page: the route table and its role guard
    (src/App.jsx), and the login page's guard and role-based redirect
    (src/pages/Login.jsx). The stored credentials are those of module Api. */
module Access {
  import opened Wrappers
  import opened Text
  import opened Api
  import Registration

  /** The pages the route table can show; two of them carry a registration id. */
  datatype Screen =
    | HomeScreen | RegisterScreen | SuccessScreen(registrationId: string) | PassScreen(registrationId: string)
    | VerifyScreen | LoginScreen | AcademyScreen | AdminScreen | ScannerScreen

  /** What visiting a path gives: a page, or a redirect (with history replaced). */
  datatype Visit = Show(screen: Screen) | Redirect(to: string)

  /** A `:registrationId` segment: non-empty and without a slash. */
  predicate IsSegment(s: string) {
    s != [] && '/' !in s
  }

  const SuccessPrefix := "/success/"
  const PassPrefix := "/pass/"

  /** The route table's paths, matched exactly. */
  function Match(path: string): (r: Option<Screen>)
    ensures r == Some(AdminScreen) <==> path == "/admin"
    ensures r == Some(ScannerScreen) <==> path == "/scanner"
  {
    assert "/scanner"[1] != PassPrefix[1];
    if |path| > |SuccessPrefix| && path[..|SuccessPrefix|] == SuccessPrefix && IsSegment(path[|SuccessPrefix|..])
    then Some(SuccessScreen(path[|SuccessPrefix|..]))
    else if |path| > |PassPrefix| && path[..|PassPrefix|] == PassPrefix && IsSegment(path[|PassPrefix|..])
    then Some(PassScreen(path[|PassPrefix|..]))
    else if path == "/" then Some(HomeScreen)
    else if path == "/register" then Some(RegisterScreen)
    else if path == "/verify" then Some(VerifyScreen)
    else if path == "/login" then Some(LoginScreen)
    else if path == "/7sports-academy-register" then Some(AcademyScreen)
    else if path == "/admin" then Some(AdminScreen)
    else if path == "/scanner" then Some(ScannerScreen)
    else None
  }

  /** The protected-route guard: a stored user is needed, and a non-empty role
      list must contain the user's role. */
  predicate Admits(store: Store, allowedRoles: seq<string>) {
    store.Some? && (|allowedRoles| == 0 || store.value.role in allowedRoles)
  }

  function Protect(store: Store, allowedRoles: seq<string>, screen: Screen): (r: Visit)
    ensures r.Show? <==> Admits(store, allowedRoles)
    ensures r.Show? ==> r.screen == screen
    ensures r.Redirect? ==> r.to == "/login"
  {
    if store.None? then Redirect("/login")
    else if |allowedRoles| > 0 && store.value.role !in allowedRoles then Redirect("/login")
    else Show(screen)
  }

  const AdminRoles := ["admin"]
  const ScannerRoles := ["admin", "staff"]

  /** Visiting a path: unknown paths go to `/`, the dashboard is for admins,
      the scanner for admins and staff, and every other page is public. */
  function Route(path: string, store: Store): (r: Visit)
    ensures Match(path).None? ==> r == Redirect("/")
    ensures r.Redirect? ==> r.to == "/" || r.to == "/login"
    ensures r.Show? ==> Match(path) == Some(r.screen)
  {
    match Match(path)
    case None => Redirect("/")
    case Some(AdminScreen) => Protect(store, AdminRoles, AdminScreen)
    case Some(ScannerScreen) => Protect(store, ScannerRoles, ScannerScreen)
    case Some(screen) => Show(screen)
  }

  /** The dashboard admits exactly a stored admin. */
  lemma AdminAdmission(store: Store)
    ensures Route("/admin", store).Show? <==> store.Some? && store.value.role == "admin"
    ensures !Route("/admin", store).Show? ==> Route("/admin", store) == Redirect("/login")
  {
  }

  /** The scanner admits exactly a stored admin or staff member. */
  lemma ScannerAdmission(store: Store)
    ensures Route("/scanner", store).Show? <==>
      store.Some? && (store.value.role == "admin" || store.value.role == "staff")
    ensures !Route("/scanner", store).Show? ==> Route("/scanner", store) == Redirect("/login")
  {
  }

  /** An empty role list admits any stored user. */
  lemma EmptyRolesAdmitAnyUser(store: Store, screen: Screen)
    ensures Protect(store, [], screen).Show? <==> store.Some?
  {
  }

  /** A redirect always lands on a page that shows, for anyone: redirects never chain. */
  lemma RedirectsSettle(path: string, store: Store)
    ensures Route(path, store).Redirect? ==> Route(Route(path, store).to, store).Show?
  {
  }

  /** The success page the DJ-night form navigates to shows that registration. */
  lemma SuccessPathShows(registrationId: string, store: Store)
    requires IsSegment(registrationId)
    ensures Route(SuccessPrefix + registrationId, store) == Show(SuccessScreen(registrationId))
  {
    var path := SuccessPrefix + registrationId;
    assert path[..|SuccessPrefix|] == SuccessPrefix;
    assert path[|SuccessPrefix|..] == registrationId;
  }

  /** A successful DJ-night registration navigates to a path that shows the
      success page of the new registration. */
  lemma DjNightLandsOnSuccess(s: Registration.PageState, registrationId: string, store: Store)
    requires IsSegment(registrationId)
    ensures var target := Registration.DjNightSubmitted(s, Registration.Answered(true, registrationId)).1;
      target.Some? && Route(target.value, store) == Show(SuccessScreen(registrationId))
  {
    SuccessPathShows(registrationId, store);
  }

  // ---------------------------------------------------------------------------
  // The login page

  datatype LoginPage = LoginPage(username: string, password: string, error: string, loading: bool)

  const MissingFields := "Please enter username and password"
  const LoginFailed := "Login failed. Please check your credentials."

  /** Pressing "Login": the error is cleared; an empty user name or password
      (not trimmed) shows a message and sends nothing; otherwise the page turns
      busy and sends the two fields (second component). */
  function LoginSubmit(s: LoginPage): (r: (LoginPage, Option<(string, string)>))
    ensures r.1.None? <==> s.username == "" || s.password == ""
    ensures r.1.None? ==> r.0 == s.(error := MissingFields)
    ensures r.1.Some? ==> r.1.value == (s.username, s.password) && r.0 == s.(error := "", loading := true)
  {
    if s.username == "" || s.password == "" then (s.(error := MissingFields), None)
    else (s.(error := "", loading := true), Some((s.username, s.password)))
  }

  /** The fields the page sends are the ones an ok login stores, with the role
      the server reports. */
  lemma LoginSubmitStores(s: LoginPage, store: Store, role: string)
    ensures LoginSubmit(s).1.Some? ==>
      var sent := LoginSubmit(s).1.value;
      Login(store, sent.0, sent.1, LoginOk(role)).0 == Some(Credentials(s.username, s.password, role))
  {
  }

  /** Where a successful login goes: admins to the dashboard, staff to the
      scanner, any other role nowhere. */
  function LandingFor(role: string): (r: Option<string>)
    ensures r.Some? <==> role == "admin" || role == "staff"
    ensures r == Some("/admin") <==> role == "admin"
  {
    if role == "admin" then Some("/admin")
    else if role == "staff" then Some("/scanner")
    else None
  }

  /** After the login call: a successful answer navigates by role (third
      component); a failure shows the thrown message or the page's fallback.
      `success` is the body's own success flag. */
  function LoginCompleted(s: LoginPage, outcome: Result<string, string>, success: bool)
    : (r: (LoginPage, Option<string>))
    ensures !r.0.loading
    ensures r.1.Some? <==> outcome.Success? && success && LandingFor(outcome.value).Some?
    ensures r.1.Some? ==> r.1 == LandingFor(outcome.value)
    ensures outcome.Failure? ==> r.0.error != "" && (outcome.error != "" ==> r.0.error == outcome.error)
    ensures outcome.Success? ==> r.0.error == s.error
  {
    match outcome
    case Success(role) => (s.(loading := false), if success then LandingFor(role) else None)
    case Failure(m) => (s.(loading := false, error := OrElse(m, LoginFailed)), None)
  }

  /** Logging in as admin or staff lands on a page whose guard admits the
      account just stored. */
  lemma LandingAdmitsRole(store: Store, username: string, password: string, role: string)
    requires LandingFor(role).Some?
    ensures var stored := Login(store, username, password, LoginOk(role)).0;
      Route(LandingFor(role).value, stored).Show?
  {
  }

  /** Whatever a failed login says, the page shows the API's message, never its own fallback. */
  lemma LoginErrorIsServerMessage(s: LoginPage, store: Store, username: string, password: string, message: string)
    ensures var outcome := Login(store, username, password, LoginNotOk(message)).1;
      LoginCompleted(s, outcome, false).0.error == outcome.error
  {
  }
}
