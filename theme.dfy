/**
 * The theme provider: one `theme` state cell holding "light" or "dark",
 * the value kept under the `theme` key of localStorage, and the updates the
 * context offers.
 */
module Theme {
  import opened Js

  const Light := "light"
  const Dark := "dark"

  predicate IsTheme(t: string)
  {
    t == Light || t == Dark
  }

  /**
   * `getInitialTheme`: "dark" without a window, else a saved "light" or
   * "dark", else the system preference.
   */
  function InitialTheme(hasWindow: bool, saved: Option<string>, prefersDark: bool): (t: string)
    ensures IsTheme(t)
    ensures !hasWindow ==> t == Dark
    ensures hasWindow && saved.Some? && IsTheme(saved.value) ==> t == saved.value
    ensures hasWindow && !(saved.Some? && IsTheme(saved.value)) ==> (t == Dark <==> prefersDark)
  {
    if !hasWindow then Dark
    else if saved == Some(Light) || saved == Some(Dark) then saved.value
    else if prefersDark then Dark
    else Light
  }

  /** The updater of `toggleTheme`: "dark" becomes "light", anything else "dark". */
  function Toggled(prev: string): (t: string)
    ensures IsTheme(t)
    ensures t == Light <==> prev == Dark
  {
    if prev == Dark then Light else Dark
  }

  /** `setSpecificTheme`: "light" is kept, any other request means "dark". */
  function Normalized(requested: string): (t: string)
    ensures IsTheme(t)
    ensures t == Light <==> requested == Light
  {
    if requested == Light then Light else Dark
  }

  /** `e.matches ? 'dark' : 'light'`. */
  function SystemTheme(matches: bool): (t: string)
    ensures IsTheme(t)
    ensures t == Dark <==> matches
  {
    if matches then Dark else Light
  }

  /** Toggling twice from a theme is the identity, and toggling always changes it. */
  lemma ToggleTwice(t: string)
    requires IsTheme(t)
    ensures Toggled(Toggled(t)) == t
    ensures Toggled(t) != t
  {
  }

  /** Normalising is idempotent and leaves a theme as it is. */
  lemma NormalizedIdempotent(requested: string)
    ensures Normalized(Normalized(requested)) == Normalized(requested)
    ensures IsTheme(requested) ==> Normalized(requested) == requested
  {
  }

  class ThemeProvider {
    /** `typeof window !== 'undefined'`. */
    const hasWindow: bool
    var theme: string
    /** `localStorage.getItem('theme')`. */
    var stored: Option<string>
    /**
     * The user has set a preference: a theme was saved when the provider
     * started, or the theme was toggled or set since.
     */
    var chosen: bool

    ghost predicate Valid()
      reads this
    {
      IsTheme(theme)
    }

    /** `useState(getInitialTheme)`. */
    constructor (hasWindow: bool, stored: Option<string>, prefersDark: bool)
      ensures Valid()
      ensures this.hasWindow == hasWindow && this.stored == stored
      ensures theme == InitialTheme(hasWindow, stored, prefersDark)
      ensures chosen == !Falsy(stored)
    {
      this.hasWindow := hasWindow;
      this.stored := stored;
      theme := InitialTheme(hasWindow, stored, prefersDark);
      chosen := !Falsy(stored);
    }

    /** The effect that runs after a render with a new theme: it saves the theme. */
    method PersistTheme()
      requires Valid()
      modifies this`stored
      ensures Valid()
      ensures stored == if hasWindow then Some(theme) else old(stored)
    {
      if hasWindow {
        stored := Some(theme);
      }
    }

    method ToggleTheme()
      requires Valid()
      modifies this`theme, this`chosen
      ensures Valid() && theme == Toggled(old(theme)) && chosen
    {
      theme := Toggled(theme);
      chosen := true;
    }

    method SetSpecificTheme(requested: string)
      modifies this`theme, this`chosen
      ensures Valid() && theme == Normalized(requested) && chosen
    {
      chosen := true;
      if requested == Light {
        theme := Light;
        return;
      }
      theme := Dark;
    }

    /**
     * The media-query listener as written: it follows the system only while
     * localStorage holds no theme.
     */
    method OnSystemThemeChangeAsWritten(matches: bool)
      requires Valid() && hasWindow
      modifies this`theme
      ensures Valid()
      ensures Falsy(stored) ==> theme == SystemTheme(matches)
      ensures !Falsy(stored) ==> theme == old(theme)
    {
      if Falsy(stored) {
        theme := SystemTheme(matches);
      }
    }

    /**
     * The listener as intended: it follows the system until the user has
     * chosen a theme. A theme saved before the provider started counts as a
     * choice, because localStorage does not record whether the user or the
     * mount effect saved it; after a reload the listener therefore stops
     * following the system even for a user who never chose.
     */
    method OnSystemThemeChange(matches: bool)
      requires Valid() && hasWindow
      modifies this`theme
      ensures Valid()
      ensures !chosen ==> theme == SystemTheme(matches)
      ensures chosen ==> theme == old(theme)
    {
      if !chosen {
        theme := SystemTheme(matches);
      }
    }
  }

  /**
   * In a browser the persistence effect runs on mount, before the listener
   * is registered, so with the listener as written a later system change
   * never reaches the theme, even when the user has chosen nothing.
   */
  method SystemChangeAfterMountAsWritten(stored: Option<string>, prefersDark: bool, matches: bool)
    returns (before: string, after: string)
    ensures IsTheme(before) && after == before
  {
    var provider := new ThemeProvider(true, stored, prefersDark);
    provider.PersistTheme();
    before := provider.theme;
    provider.OnSystemThemeChangeAsWritten(matches);
    after := provider.theme;
  }

  /**
   * With the intended listener, a provider that started with nothing saved
   * follows the system after mount, and stops once the user toggles.
   */
  method SystemChangeFollowedUntilChosen(prefersDark: bool, matches: bool, later: bool)
    returns (followed: string, toggled: string, after: string)
    ensures followed == SystemTheme(matches)
    ensures toggled == Toggled(followed) && after == toggled
  {
    var provider := new ThemeProvider(true, None, prefersDark);
    provider.PersistTheme();
    provider.OnSystemThemeChange(matches);
    followed := provider.theme;
    provider.ToggleTheme();
    provider.PersistTheme();
    toggled := provider.theme;
    provider.OnSystemThemeChange(later);
    after := provider.theme;
  }
}
