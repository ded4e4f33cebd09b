/**
 * `ThemeManager`: the light/dark theme flag, written through to the
 * "isDarkMode" preference on every assignment, read back at launch only
 * when the stored value is a Bool, and mirrored in the app's appearance.
 */
module Themes {
  /** A preference value as the user-defaults store can hold it. */
  datatype PrefValue = BoolValue(b: bool) | StringValue(s: string) | DataValue(bytes: seq<bv8>)

  type Defaults = map<string, PrefValue>

  /** The two system appearances the app switches between. */
  datatype Appearance = Aqua | DarkAqua

  const DarkModeKey: string := "isDarkMode"

  /** The theme `init` starts in: the saved Bool, or light for anything else. */
  function SavedTheme(defaults: Defaults): (dark: bool)
    ensures dark ==> DarkModeKey in defaults && defaults[DarkModeKey].BoolValue?
  {
    DarkModeKey in defaults && defaults[DarkModeKey].BoolValue? && defaults[DarkModeKey].b
  }

  /** Writing a flag and launching again restores that flag. */
  lemma SavedThemeRoundTrip(defaults: Defaults, dark: bool)
    ensures SavedTheme(defaults[DarkModeKey := BoolValue(dark)]) == dark
  {
  }

  /** An absent, string or data value under the key yields the light theme. */
  lemma SavedThemeDefaultsToLight(defaults: Defaults)
    requires DarkModeKey !in defaults || !defaults[DarkModeKey].BoolValue?
    ensures !SavedTheme(defaults)
  {
  }

  /** Keys other than "isDarkMode" do not affect the saved theme. */
  lemma SavedThemeOnlyReadsItsKey(defaults: Defaults, key: string, v: PrefValue)
    requires key != DarkModeKey
    ensures SavedTheme(defaults[key := v]) == SavedTheme(defaults)
  {
  }

  /** `applyTheme`'s choice: darkAqua for dark, aqua for light. */
  function AppearanceFor(dark: bool): (a: Appearance)
    ensures a == DarkAqua <==> dark
  {
    if dark then DarkAqua else Aqua
  }

  /** `themeIcon`'s symbol for a theme. */
  function IconFor(dark: bool): (icon: string)
    ensures icon == "moon.fill" <==> dark
    ensures icon == "sun.max.fill" <==> !dark
  {
    if dark then "moon.fill" else "sun.max.fill"
  }

  /** `themeName`'s label for a theme. */
  function NameFor(dark: bool): (name: string)
    ensures name == "Dark" <==> dark
    ensures name == "Light" <==> !dark
  {
    if dark then "Dark" else "Light"
  }

  class ThemeManager {
    var isDarkMode: bool
    /** The user-defaults store. */
    var defaults: Defaults
    /** `NSApp.appearance`. */
    var appearance: Appearance

    /** The app appearance always follows the flag. */
    ghost predicate Valid()
      reads this
    {
      appearance == AppearanceFor(isDarkMode)
    }

    /** The preference holds the current flag. */
    ghost predicate Persisted()
      reads this
    {
      DarkModeKey in defaults && defaults[DarkModeKey] == BoolValue(isDarkMode)
    }

    /**
     * `init`: load the saved flag, then apply it. Assignments inside an
     * initialiser do not run `didSet`, so nothing is written.
     */
    constructor (defaults: Defaults)
      ensures Valid()
      ensures isDarkMode == SavedTheme(defaults)
      ensures this.defaults == defaults
    {
      this.defaults := defaults;
      if DarkModeKey in defaults && defaults[DarkModeKey].BoolValue? {
        isDarkMode := defaults[DarkModeKey].b;
      } else {
        isDarkMode := false;
      }
      new;
      ApplyTheme();
    }

    /** `applyTheme()`: the appearance choice (window redraws are not modelled). */
    method ApplyTheme()
      modifies this`appearance
      ensures Valid()
    {
      if isDarkMode {
        appearance := DarkAqua;
      } else {
        appearance := Aqua;
      }
    }

    /** Assigning `isDarkMode`, which runs its `didSet`: write through, then apply. */
    method SetDarkMode(value: bool)
      modifies this
      ensures Valid() && Persisted()
      ensures isDarkMode == value
      ensures defaults == old(defaults)[DarkModeKey := BoolValue(value)]
      ensures SavedTheme(defaults) == isDarkMode
    {
      isDarkMode := value;
      defaults := defaults[DarkModeKey := BoolValue(isDarkMode)];
      ApplyTheme();
      SavedThemeRoundTrip(old(defaults), value);
    }

    /** `toggleTheme()`: flip the flag through the same `didSet`. */
    method ToggleTheme()
      modifies this
      ensures Valid() && Persisted()
      ensures isDarkMode == !old(isDarkMode)
      ensures defaults == old(defaults)[DarkModeKey := BoolValue(!old(isDarkMode))]
    {
      SetDarkMode(!isDarkMode);
    }

    /** `forceRefresh()`: re-apply the current flag; nothing else changes. */
    method ForceRefresh()
      modifies this`appearance
      ensures Valid()
    {
      ApplyTheme();
    }

    function ThemeIcon(): (icon: string)
      reads this
      ensures icon == IconFor(isDarkMode)
    {
      IconFor(isDarkMode)
    }

    function ThemeName(): (name: string)
      reads this
      ensures name == NameFor(isDarkMode)
    {
      NameFor(isDarkMode)
    }
  }
}
