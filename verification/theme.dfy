/**
 * Dark or light (`useDarkMode` in src/lib/utils.ts, repeated in
 * src/App.tsx): the theme stored under "theme" decides when it is "dark" or
 * "light"; any other value, "system" or none falls back to the system's
 * `prefers-color-scheme`.  The same rule runs at start-up and whenever the
 * storage or the system preference changes.  `localStorage` and
 * `matchMedia` are inputs.
 */
module Theme {
  import opened Wrappers

  /** The rule of the initialiser and of the change listener. */
  function ResolveTheme(storedTheme: Option<string>, systemDark: bool): bool
  {
    if storedTheme == Some("dark") then true
    else if storedTheme == Some("light") then false
    else systemDark
  }

  /** An explicit choice wins, whatever the system prefers. */
  lemma ExplicitChoiceWins(systemDark: bool)
    ensures ResolveTheme(Some("dark"), systemDark)
    ensures !ResolveTheme(Some("light"), systemDark)
  {
  }

  /** Anything else, including nothing and "system", follows the system. */
  lemma OtherwiseSystem(storedTheme: Option<string>, systemDark: bool)
    requires storedTheme != Some("dark") && storedTheme != Some("light")
    ensures ResolveTheme(storedTheme, systemDark) == systemDark
  {
  }

  /** The result depends on the system preference exactly when no explicit theme is stored. */
  lemma SystemMattersIffNotExplicit(storedTheme: Option<string>)
    ensures (ResolveTheme(storedTheme, true) != ResolveTheme(storedTheme, false))
      <==> storedTheme !in {Some("dark"), Some("light")}
  {
  }

  /**
   * `isDark` together with the stored theme and the system preference.  The
   * theme buttons write the storage and set `isDark` to match; the listener
   * re-evaluates the rule; so `isDark` always agrees with the rule.
   */
  class ThemeState {
    var isDark: bool
    var storedTheme: Option<string>
    var systemDark: bool

    ghost predicate Valid()
      reads this
    {
      isDark == ResolveTheme(storedTheme, systemDark)
    }

    /** The `useState` initialiser. */
    constructor (storedTheme: Option<string>, systemDark: bool)
      ensures Valid()
      ensures this.storedTheme == storedTheme && this.systemDark == systemDark
    {
      this.storedTheme := storedTheme;
      this.systemDark := systemDark;
      var theme := storedTheme;
      if theme == Some("dark") {
        isDark := true;
      } else if theme == Some("light") {
        isDark := false;
      } else {
        isDark := systemDark;
      }
    }

    /** `setDarkMode`, run on a "storage" event or a change of the system preference. */
    method Reevaluate(newStoredTheme: Option<string>, newSystemDark: bool)
      modifies this
      ensures Valid()
      ensures storedTheme == newStoredTheme && systemDark == newSystemDark
    {
      storedTheme := newStoredTheme;
      systemDark := newSystemDark;
      var theme := storedTheme;
      if theme == Some("dark") {
        isDark := true;
      } else if theme == Some("light") {
        isDark := false;
      } else {
        isDark := systemDark;
      }
    }

    /** The "System" button: the current system preference, and "system" stored. */
    method ChooseSystem()
      requires Valid()
      modifies this
      ensures Valid()
      ensures storedTheme == Some("system") && systemDark == old(systemDark)
      ensures isDark == systemDark
    {
      isDark := systemDark;
      storedTheme := Some("system");
    }

    /** The "Light" button. */
    method ChooseLight()
      requires Valid()
      modifies this
      ensures Valid()
      ensures storedTheme == Some("light") && systemDark == old(systemDark) && !isDark
    {
      isDark := false;
      storedTheme := Some("light");
    }

    /** The "Dark" button. */
    method ChooseDark()
      requires Valid()
      modifies this
      ensures Valid()
      ensures storedTheme == Some("dark") && systemDark == old(systemDark) && isDark
    {
      isDark := true;
      storedTheme := Some("dark");
    }
  }
}
