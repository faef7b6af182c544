/**
 * The theme provider: the initial theme is chosen by priority (a saved
 * preference, then the system's colour-scheme preference, then the
 * configured default), a toggle switches it, and an effect writes the
 * current theme to storage on mount and on every change.
 */
module ThemeContext {
  import opened Wrappers

  /** `THEME_CONFIG.DEFAULT_THEME` */
  const DEFAULT_THEME: string := "light"
  /** `THEME_CONFIG.RESPECT_SYSTEM_PREFERENCE` */
  const RESPECT_SYSTEM_PREFERENCE: bool := true
  /** `THEME_CONFIG.STORAGE_KEY` */
  const STORAGE_KEY: string := "theme"

  /** `localStorage.getItem(key)`: `None` is `null`. */
  function GetItem(storage: map<string, string>, key: string): Option<string> {
    if key in storage then Some(storage[key]) else None
  }

  /**
   * `getInitialTheme`. A theme is a string here: the saved value is cast to
   * `Theme` without being checked. `prefersDark` is what the
   * `(prefers-color-scheme: dark)` media query reports.
   */
  function InitialTheme(saved: Option<string>, respectSystemPreference: bool, prefersDark: bool): (theme: string)
    ensures theme != ""
    ensures (saved.None? || saved.value == "") ==> theme == "light" || theme == "dark"
  {
    if saved.Some? && saved.value != "" then saved.value
    else if respectSystemPreference && prefersDark then "dark"
    else DEFAULT_THEME
  }

  /** `prevTheme === 'light' ? 'dark' : 'light'` */
  function Toggled(theme: string): (r: string)
    ensures r == "light" || r == "dark"
    ensures r != theme
  {
    if theme == "light" then "dark" else "light"
  }

  // ---------------------------------------------------------------------
  // Properties of the selection rule and the toggle
  // ---------------------------------------------------------------------

  /** A saved non-empty value wins, whatever the system prefers and whatever it says. */
  lemma SavedThemeWins(saved: string, respectSystemPreference: bool, prefersDark: bool)
    requires saved != ""
    ensures InitialTheme(Some(saved), respectSystemPreference, prefersDark) == saved
  {
  }

  /** Nothing saved (or an empty string saved): dark exactly when the preference is respected and dark is preferred. */
  lemma UnsavedThemeFollowsSystem(saved: Option<string>, respectSystemPreference: bool, prefersDark: bool)
    requires saved.None? || saved.value == ""
    ensures InitialTheme(saved, respectSystemPreference, prefersDark) == "dark" <==> respectSystemPreference && prefersDark
    ensures !(respectSystemPreference && prefersDark) ==> InitialTheme(saved, respectSystemPreference, prefersDark) == DEFAULT_THEME
  {
  }

  /** When the system preference is not respected, the media query never matters. */
  lemma PreferenceIgnoredWhenNotRespected(saved: Option<string>)
    ensures InitialTheme(saved, false, true) == InitialTheme(saved, false, false)
  {
  }

  /** With the shipped configuration and nothing saved, the default is `light` unless dark is preferred. */
  lemma ShippedConfiguration(prefersDark: bool)
    ensures DEFAULT_THEME == "light" && RESPECT_SYSTEM_PREFERENCE
    ensures InitialTheme(None, RESPECT_SYSTEM_PREFERENCE, prefersDark) == if prefersDark then "dark" else "light"
  {
  }

  /** Toggling twice is the identity on the two themes. */
  lemma ToggleTwice(theme: string)
    requires theme == "light" || theme == "dark"
    ensures Toggled(Toggled(theme)) == theme
  {
  }

  /** Any value other than `light` toggles to `light`, so one toggle repairs an unchecked saved value. */
  lemma ToggleNonLight(theme: string)
    requires theme != "light"
    ensures Toggled(theme) == "light"
  {
  }

  /** `ThemeProvider`: the `theme` state and the browser's storage it writes to. */
  class ThemeProvider {
    var theme: string
    /** `localStorage` */
    var storage: map<string, string>

    /** The invariant the effect keeps: the stored theme is the current theme. */
    ghost predicate Persisted()
      reads this
    {
      STORAGE_KEY in storage && storage[STORAGE_KEY] == theme
    }

    /** Mounting: `useState(getInitialTheme)`, then the effect runs once. */
    constructor(storage: map<string, string>, prefersDark: bool)
      ensures theme == InitialTheme(GetItem(storage, STORAGE_KEY), RESPECT_SYSTEM_PREFERENCE, prefersDark)
      ensures this.storage == storage[STORAGE_KEY := theme]
      ensures Persisted()
    {
      theme := InitialTheme(GetItem(storage, STORAGE_KEY), RESPECT_SYSTEM_PREFERENCE, prefersDark);
      this.storage := storage;
      new;
      PersistTheme();
    }

    /** The effect on `[theme]`: `localStorage.setItem(STORAGE_KEY, theme)`. */
    method PersistTheme()
      modifies this`storage
      ensures storage == old(storage)[STORAGE_KEY := theme]
      ensures Persisted()
    {
      storage := storage[STORAGE_KEY := theme];
    }

    /** `toggleTheme`, followed by the effect, which runs because the theme always changes. */
    method ToggleTheme()
      modifies this
      ensures theme == Toggled(old(theme)) && theme != old(theme)
      ensures storage == old(storage)[STORAGE_KEY := theme]
      ensures Persisted()
    {
      theme := Toggled(theme);
      PersistTheme();
    }
  }
}
