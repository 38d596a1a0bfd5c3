/** The application shell: the loading gate and route table of
    src/App.jsx, and the theme class resolution of
    src/components/providers/ThemeProvider.jsx. */
module App {

  import opened Options

  // ---------------------------------------------------------------------
  // Routes

  datatype Screen = Spinner | AuthPage | DashboardPage | SettingsPage | Redirect(to: string)

  /** What renders for a path. While authentication is loading only the
      spinner does, whatever the path; the routes match paths exactly. */
  function Route(loading: bool, signedIn: bool, path: string): (s: Screen)
    ensures loading <==> s == Spinner
    ensures !loading && path == "/auth" ==> s == (if signedIn then Redirect("/") else AuthPage)
    ensures !loading && path == "/" ==> s == (if signedIn then DashboardPage else Redirect("/auth"))
    ensures !loading && path == "/settings" ==> s == (if signedIn then SettingsPage else Redirect("/auth"))
    ensures !loading && path !in {"/auth", "/", "/settings"} ==> s == Redirect("/")
  {
    if loading then Spinner
    else if path == "/auth" then (if signedIn then Redirect("/") else AuthPage)
    else if path == "/" then (if signedIn then DashboardPage else Redirect("/auth"))
    else if path == "/settings" then (if signedIn then SettingsPage else Redirect("/auth"))
    else Redirect("/")
  }

  /** Following redirects, at most `hops` of them. */
  function Follow(signedIn: bool, path: string, hops: nat): Screen
    decreases hops
  {
    match Route(false, signedIn, path)
    case Redirect(to) => if hops == 0 then Redirect(to) else Follow(signedIn, to, hops - 1)
    case s => s
  }

  /** Every path settles on a page within two redirects: signed in on the
      dashboard or settings, signed out on the sign-in page. No path
      reaches a library page, which the table never routes. */
  lemma {:induction false} RoutesSettle(signedIn: bool, path: string)
    ensures var s := Follow(signedIn, path, 2);
      && !s.Redirect?
      && (signedIn ==> s == DashboardPage || s == SettingsPage)
      && (!signedIn ==> s == AuthPage)
  {
    assert Route(false, signedIn, "/") == (if signedIn then DashboardPage else Redirect("/auth"));
    assert Route(false, signedIn, "/auth") == (if signedIn then Redirect("/") else AuthPage);
  }

  // ---------------------------------------------------------------------
  // Theme

  /** The class the root element ends up with for a theme: `system`
      follows the colour-scheme query, anything else is used verbatim. */
  function ResolveTheme(theme: string, prefersDark: bool): (c: string)
    ensures theme == "system" ==> (c == "dark" <==> prefersDark) && c in {"dark", "light"}
    ensures theme != "system" ==> c == theme
  {
    if theme == "system" then (if prefersDark then "dark" else "light") else theme
  }

  /** One run of the effect on the root's class list: `light` and `dark`
      removed, then the resolved class added. */
  function ApplyTheme(classes: set<string>, theme: string, prefersDark: bool): (r: set<string>)
    ensures ResolveTheme(theme, prefersDark) in r
    ensures forall c :: c in r && c != ResolveTheme(theme, prefersDark) ==> c in classes && c != "light" && c != "dark"
    ensures forall c :: c in classes && c != "light" && c != "dark" ==> c in r
  {
    classes - {"light", "dark"} + {ResolveTheme(theme, prefersDark)}
  }

  /** Whatever ran before, at most one of `light` and `dark` is set, and
      running the effect again for the same theme changes nothing. */
  lemma ThemeClassesSettle(classes: set<string>, theme: string, prefersDark: bool)
    ensures var r := ApplyTheme(classes, theme, prefersDark);
      && !("light" in r && "dark" in r)
      && ApplyTheme(r, theme, prefersDark) == r
  {
    var r := ApplyTheme(classes, theme, prefersDark);
    assert "light" in r ==> ResolveTheme(theme, prefersDark) == "light";
    assert "dark" in r ==> ResolveTheme(theme, prefersDark) == "dark";
  }

  /** The provider's initial theme: its `defaultTheme` prop, else
      `system`. The application passes `dark`. */
  function InitialTheme(defaultTheme: Option<string>): (t: string)
    ensures defaultTheme.Some? ==> t == defaultTheme.value
    ensures defaultTheme.None? ==> t == "system"
  {
    defaultTheme.GetOr("system")
  }

  /** The application starts dark, whatever the colour-scheme query says. */
  lemma AppStartsDark(classes: set<string>, prefersDark: bool)
    ensures "dark" in ApplyTheme(classes, InitialTheme(Some("dark")), prefersDark)
    ensures "light" !in ApplyTheme(classes, InitialTheme(Some("dark")), prefersDark)
  {
  }

  datatype ThemeContext = ThemeContext(theme: string)

  /** The context's default value. */
  const DefaultContext := ThemeContext("system")

  /** `useTheme`: the provider's value, or the non-null default outside
      any provider, so its error branch never runs. */
  function UseTheme(provided: Option<ThemeContext>): (c: ThemeContext)
    ensures provided.Some? ==> c == provided.value
    ensures provided.None? ==> c.theme == "system"
  {
    match provided
    case Some(v) => v
    case None => DefaultContext
  }
}
