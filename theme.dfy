/** The colour theme: the initial dark-mode choice from the stored
    preference or the system setting, and the effect that applies the
    choice to the document root's classes and stores it. Browser storage is
    a map from keys to strings, the root's class list a set of names. */
module Theme {
  import opened Wrappers

  const ThemeKey: string := "theme"
  const DarkClass: string := "dark"

  /** `localStorage.getItem(key)`. */
  function GetItem(storage: map<string, string>, key: string): (r: Option<string>)
    ensures r.Some? <==> key in storage
    ensures r.Some? ==> r.value == storage[key]
  {
    if key in storage then Some(storage[key]) else None
  }

  /** `getInitialDarkMode`: an explicit stored choice wins; anything else
      falls back to the system's dark preference. */
  function InitialDarkMode(stored: Option<string>, systemDark: bool): (dark: bool)
    ensures stored == Some("dark") ==> dark
    ensures stored == Some("light") ==> !dark
    ensures stored != Some("dark") && stored != Some("light") ==> dark == systemDark
  {
    if stored == Some("dark") then true
    else if stored == Some("light") then false
    else systemDark
  }

  /** The stored name of a choice. */
  function ThemeName(dark: bool): string {
    if dark then "dark" else "light"
  }

  /** The storage after the effect. */
  function StoredAfter(storage: map<string, string>, dark: bool): (s: map<string, string>)
    ensures ThemeKey in s && s[ThemeKey] == ThemeName(dark)
    ensures forall k | k in storage && k != ThemeKey :: k in s && s[k] == storage[k]
    ensures forall k | k in s && k != ThemeKey :: k in storage
  {
    storage[ThemeKey := ThemeName(dark)]
  }

  /** The root's classes after the effect. */
  function ClassesAfter(classes: set<string>, dark: bool): (c: set<string>)
    ensures DarkClass in c <==> dark
    ensures forall n | n != DarkClass :: n in c <==> n in classes
  {
    if dark then classes + {DarkClass} else classes - {DarkClass}
  }

  /** Reading the preference back after the effect gives the choice,
      whatever the system prefers. */
  lemma StoredRoundTrip(storage: map<string, string>, dark: bool, systemDark: bool)
    ensures InitialDarkMode(GetItem(StoredAfter(storage, dark), ThemeKey), systemDark) == dark
  {
  }

  /** Running the effect again changes nothing. */
  lemma EffectIdempotent(storage: map<string, string>, classes: set<string>, dark: bool)
    ensures StoredAfter(StoredAfter(storage, dark), dark) == StoredAfter(storage, dark)
    ensures ClassesAfter(ClassesAfter(classes, dark), dark) == ClassesAfter(classes, dark)
  {
  }

  /** The provider's state: the choice, the browser's storage and the
      document root's classes. */
  class ThemeProvider {
    var darkMode: bool
    var storage: map<string, string>
    var rootClasses: set<string>

    /** Mounting: the initial choice from the stored preference or the
        system setting. */
    constructor (storage: map<string, string>, rootClasses: set<string>, systemDark: bool)
      ensures darkMode == InitialDarkMode(GetItem(storage, ThemeKey), systemDark)
      ensures this.storage == storage && this.rootClasses == rootClasses
    {
      darkMode := InitialDarkMode(GetItem(storage, ThemeKey), systemDark);
      this.storage := storage;
      this.rootClasses := rootClasses;
    }

    /** The effect that runs whenever `darkMode` changes. */
    method ApplyTheme()
      modifies this
      ensures darkMode == old(darkMode)
      ensures storage == StoredAfter(old(storage), darkMode)
      ensures rootClasses == ClassesAfter(old(rootClasses), darkMode)
    {
      if darkMode {
        rootClasses := rootClasses + {DarkClass};
        storage := storage[ThemeKey := "dark"];
      } else {
        rootClasses := rootClasses - {DarkClass};
        storage := storage[ThemeKey := "light"];
      }
    }

    /** `setDarkMode(dark)`, followed by the effect it triggers. */
    method SetDarkMode(dark: bool)
      modifies this
      ensures darkMode == dark
      ensures storage == StoredAfter(old(storage), dark)
      ensures rootClasses == ClassesAfter(old(rootClasses), dark)
    {
      darkMode := dark;
      ApplyTheme();
    }
  }
}
