/** The client theme reducer: a dark-mode flag, persisted under `theme` when toggled. */
module ThemeSlice {
  import opened Optional

  /** The storage value written for a theme. */
  function ThemeName(isDark: bool): (name: string)
    ensures name == "dark" || name == "light"
    ensures name == "dark" <==> isDark
  {
    if isDark then "dark" else "light"
  }

  class ThemeState {
    var isDark: bool
    /** The browser storage entry `theme`. */
    var storedTheme: Option<string>

    /** Always light at start, whatever storage holds, to match the server render. */
    constructor (stored: Option<string>)
      ensures !isDark && storedTheme == stored
    {
      isDark := false;
      storedTheme := stored;
    }

    /** `toggleTheme`: flip the flag and, in a browser, persist the new theme. */
    method ToggleTheme(inBrowser: bool)
      modifies this
      ensures isDark == !old(isDark)
      ensures storedTheme == if inBrowser then Some(ThemeName(isDark)) else old(storedTheme)
    {
      isDark := !isDark;
      if inBrowser {
        storedTheme := Some(ThemeName(isDark));
      }
    }

    /** `setTheme`: take the flag from the payload; storage is not written. */
    method SetTheme(payload: bool)
      modifies this
      ensures isDark == payload && storedTheme == old(storedTheme)
    {
      isDark := payload;
    }
  }

  /** Toggling twice restores the flag. */
  method ToggleTwice(t: ThemeState, inBrowser: bool)
    modifies t
    ensures t.isDark == old(t.isDark)
    ensures inBrowser ==> t.storedTheme == Some(ThemeName(t.isDark))
  {
    t.ToggleTheme(inBrowser);
    t.ToggleTheme(inBrowser);
  }
}
