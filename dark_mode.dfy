/** `initDarkMode` in script.js: the body's `dark` class, decided at load from
    the stored `darkMode` entry or, failing that, from the operating system's
    colour-scheme preference, and flipped and stored by either toggle button. */
module DarkMode {
  import opened Dom

  /** A stored value JavaScript treats as false: no entry, or the empty
      string. */
  predicate Falsy(saved: Option<string>)
  {
    saved == None || saved == Some("")
  }

  /** The initial theme: the stored text "true", or no usable stored text and
      an OS that prefers dark. A stored non-empty value always wins over the
      OS, and only "true" reads as dark. */
  function InitialDark(saved: Option<string>, prefersDark: bool): (dark: bool)
    ensures !Falsy(saved) ==> (dark <==> saved.value == "true")
    ensures Falsy(saved) ==> dark == prefersDark
  {
    saved == Some("true") || (Falsy(saved) && prefersDark)
  }

  /** What a toggle stores is read back as the same theme on the next load,
      whatever the OS prefers. */
  lemma ToggleSurvivesReload(dark: bool, prefersDark: bool)
    ensures InitialDark(Some(BoolText(dark)), prefersDark) == dark
  {
  }

  class Theme {
    /** The body has the `dark` class. */
    var dark: bool
    /** The `darkMode` entry of `localStorage`. */
    var stored: Option<string>

    /** Page load: the stored entry is read, not written. */
    constructor (saved: Option<string>, prefersDark: bool)
      ensures stored == saved
      ensures dark == InitialDark(saved, prefersDark)
    {
      stored := saved;
      dark := false;
      if InitialDark(saved, prefersDark) {
        dark := true;
      }
    }

    /** Either toggle button: flip the class and store the new state. */
    method Toggle()
      modifies this
      ensures dark == !old(dark)
      ensures stored == Some(BoolText(dark))
    {
      dark := !dark;
      var isDark := dark;
      stored := Some(BoolText(isDark));
    }
  }

  /** After any toggle, reloading the page restores the theme the user chose. */
  method ToggleThenReload(saved: Option<string>, prefersDark: bool, prefersDarkLater: bool)
    returns (chosen: bool, reloadedDark: bool)
    ensures chosen == !InitialDark(saved, prefersDark)
    ensures reloadedDark == chosen
  {
    var t := new Theme(saved, prefersDark);
    t.Toggle();
    chosen := t.dark;
    var reloaded := new Theme(t.stored, prefersDarkLater);
    ToggleSurvivesReload(chosen, prefersDarkLater);
    reloadedDark := reloaded.dark;
  }
}
