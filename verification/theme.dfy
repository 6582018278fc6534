/** The colour theme (`frontend/context/ThemeContext.tsx`): the initial choice from the
    stored preference, the system preference and the time of day; explicit changes, which
    are persisted; and changes of the system preference. */
module Theme {
  import opened Wrappers

  datatype Theme = Light | Dark

  const StorageKey := "stylino-theme"

  function Name(t: Theme): string {
    match t
    case Light => "light"
    case Dark => "dark"
  }

  /** `getStoredTheme`: only the exact texts "dark" and "light" count. */
  function StoredTheme(value: Option<string>): (r: Option<Theme>)
    ensures r.Some? <==> value == Some("dark") || value == Some("light")
    ensures r.Some? ==> value == Some(Name(r.value))
  {
    if value == Some("dark") then Some(Dark)
    else if value == Some("light") then Some(Light)
    else None
  }

  /** `getSystemTheme`: `None` where `matchMedia` is unavailable. */
  function SystemTheme(prefersDark: Option<bool>): Option<Theme> {
    match prefersDark
    case None => None
    case Some(dark) => Some(if dark then Dark else Light)
  }

  /** `getTimeFallback`, for the local hour (0 to 23). */
  function TimeFallback(hour: int): (t: Theme)
    ensures t == Light <==> 7 <= hour < 19
  {
    if hour >= 7 && hour < 19 then Light else Dark
  }

  /** `resolveInitialTheme`: the stored theme, else the system's, else the time of day. */
  function ResolveInitialTheme(stored: Option<string>, prefersDark: Option<bool>, hour: int): (t: Theme)
    ensures StoredTheme(stored).Some? ==> t == StoredTheme(stored).value
    ensures StoredTheme(stored).None? && prefersDark.Some? ==> (t == Dark <==> prefersDark.value)
    ensures StoredTheme(stored).None? && prefersDark.None? ==> t == TimeFallback(hour)
  {
    match StoredTheme(stored)
    case Some(t) => t
    case None =>
      match SystemTheme(prefersDark)
      case Some(t) => t
      case None => TimeFallback(hour)
  }

  /** What the provider controls: the theme in state, the stored value under `StorageKey`,
      and whether the document root carries the `dark` class. */
  datatype State = State(theme: Theme, stored: Option<string>, darkClass: bool)

  /** The `dark` class is on the page exactly when the theme is dark. */
  predicate ClassMatches(s: State) {
    s.darkClass <==> s.theme == Dark
  }

  /** The mount effect: the resolved theme, applied to the page. */
  function Initialize(stored: Option<string>, prefersDark: Option<bool>, hour: int): (s: State)
    ensures ClassMatches(s) && s.stored == stored
    ensures s.theme == ResolveInitialTheme(stored, prefersDark, hour)
  {
    var t := ResolveInitialTheme(stored, prefersDark, hour);
    State(t, stored, t == Dark)
  }

  /** `setTheme`. */
  function SetTheme(s: State, value: Theme): (r: State)
    ensures r.theme == value && r.stored == Some(Name(value)) && ClassMatches(r)
  {
    State(value, Some(Name(value)), value == Dark)
  }

  function Flip(t: Theme): (u: Theme)
    ensures u != t
  {
    if t == Light then Dark else Light
  }

  /** `toggleTheme`. */
  function ToggleTheme(s: State): (r: State)
    ensures r.theme != s.theme && r.stored == Some(Name(r.theme)) && ClassMatches(r)
  {
    var next := Flip(s.theme);
    State(next, Some(Name(next)), next == Dark)
  }

  /** The media-query listener: a stored choice overrides the system's. */
  function SystemChanged(s: State, prefersDark: bool): (r: State)
    ensures StoredTheme(s.stored).Some? ==> r == s
    ensures StoredTheme(s.stored).None? ==> (r.theme == Dark <==> prefersDark)
    ensures r.stored == s.stored
    ensures ClassMatches(s) ==> ClassMatches(r)
  {
    if StoredTheme(s.stored).Some? then s
    else
      var next := if prefersDark then Dark else Light;
      s.(theme := next, darkClass := next == Dark)
  }

  /** Toggling twice restores the theme and the class. */
  lemma ToggleTwice(s: State)
    requires ClassMatches(s)
    ensures ToggleTheme(ToggleTheme(s)).theme == s.theme
    ensures ToggleTheme(ToggleTheme(s)).darkClass == s.darkClass
  {
  }

  /** A theme set or toggled by the shopper is the theme the next visit starts with,
      whatever the system preference and the hour. */
  lemma ChoiceSurvivesReload(s: State, value: Theme, prefersDark: Option<bool>, hour: int)
    ensures Initialize(SetTheme(s, value).stored, prefersDark, hour).theme == value
    ensures Initialize(ToggleTheme(s).stored, prefersDark, hour).theme == ToggleTheme(s).theme
  {
  }

  /** Once the shopper has chosen, system-preference changes leave the theme alone. */
  lemma ChoiceOverridesSystem(s: State, value: Theme, prefersDark: bool)
    ensures SystemChanged(SetTheme(s, value), prefersDark) == SetTheme(s, value)
  {
  }
}
