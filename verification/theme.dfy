/** The theme store: dark or light, whether it follows the system colour
    scheme, and the palette derived from the two. Writes to device storage
    are returned as values instead of being performed. */
module Theme {
  import opened Wrappers
  import opened Json

  datatype Colors = Colors(
    background: string,
    surface: string,
    surfaceHover: string,
    primary: string,
    primaryLight: string,
    secondary: string,
    accent: string,
    text: string,
    textSecondary: string,
    textTertiary: string,
    success: string,
    error: string,
    warning: string,
    border: string,
    divider: string,
    card: string,
    cardHover: string,
    gradientStart: string,
    gradientEnd: string)

  const DarkPalette := Colors(
    "#0A0A0F", "#13131A", "#1F1F2C", "#818CF8", "#A5B4FC", "#F472B6", "#E879F9",
    "#FFFFFF", "#E2E8F0", "#94A3B8",
    "#34D399", "#FB7185", "#FBBF24",
    "#27272A", "#27272A", "#18181B", "#27272A",
    "#818CF8", "#E879F9")

  const LightPalette := Colors(
    "#F8FAFC", "#FFFFFF", "#F1F5F9", "#6366F1", "#818CF8", "#EC4899", "#F472B6",
    "#0F172A", "#334155", "#64748B",
    "#10B981", "#F43F5E", "#F59E0B",
    "#E2E8F0", "#F1F5F9", "#FFFFFF", "#F1F5F9",
    "#6366F1", "#EC4899")

  /** `generateColors`: one fixed palette per mode. */
  function GenerateColors(isDark: bool): (r: Colors)
    ensures isDark ==> r.background == "#0A0A0F" && r.text == "#FFFFFF"
    ensures !isDark ==> r.background == "#F8FAFC" && r.text == "#0F172A"
  {
    if isDark then DarkPalette else LightPalette
  }

  /** The palette tells the mode it was generated for. */
  lemma PalettesDiffer(a: bool, b: bool)
    ensures GenerateColors(a) == GenerateColors(b) <==> a == b
  {
    if a != b {
      assert GenerateColors(a).background != GenerateColors(b).background;
    }
  }

  /** What `useColorScheme` reports. */
  datatype Scheme = Light | Dark | NoScheme

  datatype ThemeState = ThemeState(isDark: bool, isSystemTheme: bool, colors: Colors)

  /** The palette matches the mode. */
  predicate Coherent(s: ThemeState) {
    s.colors == GenerateColors(s.isDark)
  }

  /** The object stored under `theme-preference`. */
  datatype Preference = Preference(isDark: bool, isSystemTheme: bool)

  function PreferenceJson(p: Preference): (r: Json)
    ensures r.Obj? && r.fields.Keys == {"isDark", "isSystemTheme"}
    ensures Prop(r, "isDark") == Bool(p.isDark) && Prop(r, "isSystemTheme") == Bool(p.isSystemTheme)
  {
    Obj(map["isDark" := Bool(p.isDark), "isSystemTheme" := Bool(p.isSystemTheme)])
  }

  /** A transition's new state and the preference it writes, if any. */
  datatype ThemeStep = ThemeStep(state: ThemeState, write: Option<Preference>)

  /** The store's initial state: light, following the system. */
  function Initial(): (s: ThemeState)
    ensures !s.isDark && s.isSystemTheme && Coherent(s)
  {
    ThemeState(false, true, GenerateColors(false))
  }

  /** `toggleTheme`: flips the mode, stops following the system, and saves both. */
  function ToggleTheme(s: ThemeState): (r: ThemeStep)
    ensures r.state.isDark == !s.isDark && !r.state.isSystemTheme && Coherent(r.state)
    ensures r.write == Some(Preference(!s.isDark, false))
  {
    var dark := !s.isDark;
    ThemeStep(ThemeState(dark, false, GenerateColors(dark)), Some(Preference(dark, false)))
  }

  /** `setSystemTheme`: changes only whether the system is followed, and saves it with the current mode. */
  function SetSystemTheme(s: ThemeState, value: bool): (r: ThemeStep)
    ensures r.state == s.(isSystemTheme := value)
    ensures r.write == Some(Preference(s.isDark, value))
  {
    ThemeStep(s.(isSystemTheme := value), Some(Preference(s.isDark, value)))
  }

  /** The preference load run when the theme hook mounts. Nothing changes
      when no preference is stored, when it does not parse, or when it
      parses to `null` (the destructuring throws and the error is caught).
      Otherwise a saved system preference follows the current scheme and a
      saved manual one keeps its mode. */
  function LoadPreference(s: ThemeState, saved: Option<Stored>, system: Scheme): (r: ThemeState)
    ensures (saved == None || saved.value.text == [] || saved.value.parsed.SyntaxError?
             || IsNullish(saved.value.parsed.value)) ==> r == s
    ensures saved.Some? && saved.value.text != [] && saved.value.parsed.Parsed? && !IsNullish(saved.value.parsed.value) ==>
              var v := saved.value.parsed.value;
              var followSystem := Truthy(Prop(v, "isSystemTheme"));
              && r.isSystemTheme == followSystem
              && r.isDark == (if followSystem then system == Dark else Truthy(Prop(v, "isDark")))
              && Coherent(r)
  {
    if saved == None || saved.value.text == [] then s
    else match saved.value.parsed
      case SyntaxError => s
      case Parsed(v) =>
        match Get(v, "isDark")
        case Failure(_) => s
        case Success(savedIsDark) =>
          var followSystem := Truthy(Prop(v, "isSystemTheme"));
          var dark := if followSystem then system == Dark else Truthy(savedIsDark);
          ThemeState(dark, followSystem, GenerateColors(dark))
  }

  /** The system-scheme effect: while the system is followed, the mode tracks the scheme. */
  function SystemSchemeChanged(s: ThemeState, system: Scheme): (r: ThemeState)
    ensures s.isSystemTheme ==> r == s.(isDark := system == Dark, colors := GenerateColors(system == Dark))
    ensures !s.isSystemTheme ==> r == s
  {
    if s.isSystemTheme then
      var dark := system == Dark;
      s.(isDark := dark, colors := GenerateColors(dark))
    else s
  }

  /** Every transition keeps the palette in step with the mode. */
  lemma TransitionsKeepCoherent(s: ThemeState, value: bool, saved: Option<Stored>, system: Scheme)
    requires Coherent(s)
    ensures Coherent(ToggleTheme(s).state)
    ensures Coherent(SetSystemTheme(s, value).state)
    ensures Coherent(LoadPreference(s, saved, system))
    ensures Coherent(SystemSchemeChanged(s, system))
  {
  }

  /** Toggling twice restores the mode and palette, no longer following the system. */
  lemma ToggleTwice(s: ThemeState)
    requires Coherent(s)
    ensures var r := ToggleTheme(ToggleTheme(s).state).state;
            r == s.(isSystemTheme := false)
  {
  }

  /** Reloading what a toggle saved restores the toggled mode, whatever the system scheme. */
  lemma ToggleSurvivesReload(s: ThemeState, other: ThemeState, text: string, system: Scheme)
    requires text != []
    ensures var step := ToggleTheme(s);
            LoadPreference(other, Some(Stored(text, Parsed(PreferenceJson(step.write.value)))), system) == step.state
  {
  }

  /** Reloading a saved system preference follows the scheme at load time. */
  lemma SystemPreferenceFollowsScheme(s: ThemeState, other: ThemeState, text: string, system: Scheme)
    requires text != []
    ensures var step := SetSystemTheme(s, true);
            var r := LoadPreference(other, Some(Stored(text, Parsed(PreferenceJson(step.write.value)))), system);
            r.isSystemTheme && r.isDark == (system == Dark)
  {
  }
}
