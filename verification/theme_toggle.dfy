/**
  The light/dark theme toggle: a one-time initialisation from the stored
  `theme` and a toggle that flips the theme, the `light-mode` class of the
  document element and the stored value together. `localStorage` is the map
  `storage` and the class is the flag `lightMode`.
*/
module Theme {
  import opened Wrappers

  const ThemeKey: string := "theme"

  /** `localStorage.getItem(key)`, `None` for `null`. */
  function GetItem(storage: map<string, string>, key: string): (item: Option<string>)
    ensures item.Some? <==> key in storage
    ensures item.Some? ==> item.value == storage[key]
  {
    if key in storage then Some(storage[key]) else None
  }

  /** The `isDark` that initialisation picks for a stored theme: light only
      for `'light'`; `'dark'`, nothing stored and any other value give dark. */
  function DarkFromStored(stored: Option<string>): (isDark: bool)
    ensures !isDark <==> stored == Some("light")
  {
    match stored
    case None => true
    case Some(value) =>
      if value == "light" then false
      else if value == "dark" then true
      else true
  }

  /** The value a toggle stores for a theme. */
  function StoredValue(isDark: bool): (value: string)
    ensures value == "dark" <==> isDark
    ensures value == "light" <==> !isDark
  {
    if isDark then "dark" else "light"
  }

  /** What a toggle stores reads back as the same theme. */
  lemma StoredValueRoundTrip(isDark: bool)
    ensures DarkFromStored(Some(StoredValue(isDark))) == isDark
  {
  }

  datatype Icon = Sun | Moon

  class ThemeToggle {
    var isDark: bool
    var initDone: bool
    var storage: map<string, string>
    var lightMode: bool

    /** The class on the document element agrees with the state. */
    predicate ClassMatches()
      reads this
    {
      lightMode == !isDark
    }

    /** The stored theme agrees with the state. */
    predicate Persisted()
      reads this
    {
      GetItem(storage, ThemeKey) == Some(StoredValue(isDark))
    }

    /** The component's first render: `isDark` starts true and the
        initialisation guard is unset; the page's storage and class are as
        found. */
    constructor (storage: map<string, string>, lightMode: bool)
      ensures isDark && !initDone
      ensures this.storage == storage && this.lightMode == lightMode
    {
      isDark := true;
      initDone := false;
      this.storage := storage;
      this.lightMode := lightMode;
    }

    /** The layout effect: runs once; reads the stored theme, sets `isDark`
        and the class from it, and writes nothing to the storage. */
    method Init()
      modifies this
      ensures initDone && storage == old(storage)
      ensures old(initDone) ==> isDark == old(isDark) && lightMode == old(lightMode)
      ensures !old(initDone) ==> isDark == DarkFromStored(GetItem(storage, ThemeKey)) && ClassMatches()
    {
      if initDone {
        return;
      }
      initDone := true;
      var stored := GetItem(storage, ThemeKey);
      if stored == Some("light") {
        isDark := false;
        lightMode := true;
      } else if stored == Some("dark") {
        isDark := true;
        lightMode := false;
      } else {
        isDark := true;
        lightMode := false;
      }
    }

    /** `toggleTheme`: flips `isDark`, sets the class to match and stores
        the new theme. */
    method Toggle()
      modifies this
      ensures isDark == !old(isDark)
      ensures ClassMatches() && Persisted()
      ensures storage == old(storage)[ThemeKey := StoredValue(isDark)]
      ensures initDone == old(initDone)
    {
      var newIsDark := !isDark;
      isDark := newIsDark;
      if newIsDark {
        lightMode := false;
        storage := storage[ThemeKey := "dark"];
      } else {
        lightMode := true;
        storage := storage[ThemeKey := "light"];
      }
    }

    /** The button shows the sun in dark mode and the moon in light mode. */
    function ButtonIcon(): (icon: Icon)
      reads this
      ensures icon == Sun <==> isDark
    {
      if isDark then Sun else Moon
    }
  }

  /** Two toggles restore the theme and the class. */
  method ToggleTwice(t: ThemeToggle)
    requires t.ClassMatches()
    modifies t
    ensures t.isDark == old(t.isDark) && t.lightMode == old(t.lightMode)
    ensures t.ClassMatches() && t.Persisted()
  {
    t.Toggle();
    t.Toggle();
  }

  /** A component whose theme agrees with the storage, after a toggle or
      after initialisation on a first visit, survives a reload: a new
      component initialised from the same storage shows the same theme. */
  method Reload(t: ThemeToggle, lightMode: bool) returns (u: ThemeToggle)
    requires t.isDark == DarkFromStored(GetItem(t.storage, ThemeKey)) && t.ClassMatches()
    ensures u.isDark == t.isDark && u.lightMode == t.lightMode && u.initDone
  {
    u := new ThemeToggle(t.storage, lightMode);
    u.Init();
  }
}
