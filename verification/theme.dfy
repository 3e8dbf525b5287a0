/** The theme provider (src/components/ThemeRegistry.tsx): the chosen mode (`light`, `dark` or
    `system`), the active mode it resolves to, the `themeMode` entry that keeps the choice, and
    the palette backgrounds of the active mode.

    A restored `themeMode` is not validated: whatever non-empty text is stored becomes the
    mode, so modes are plain strings here. */
module Theme {
  import opened Store

  const Light := "light"
  const Dark := "dark"
  const System := "system"

  /** The chosen mode and the active one. */
  datatype ThemeState = ThemeState(mode: string, active: string)

  /** The mode before anything is restored. */
  const Initial := ThemeState(Light, Light)

  /** The active mode: `system` follows the colour-scheme preference; any other mode is used
      as it is. */
  function ActiveMode(mode: string, prefersDark: bool): (r: string)
    ensures mode != System ==> r == mode
    ensures mode == System ==> (r == Dark <==> prefersDark) && (r == Light <==> !prefersDark)
  {
    if mode == System then (if prefersDark then Dark else Light) else mode
  }

  /** Each of the three modes resolves to light or dark. */
  lemma KnownModesResolve(mode: string, prefersDark: bool)
    requires mode == Light || mode == Dark || mode == System
    ensures ActiveMode(mode, prefersDark) == Light || ActiveMode(mode, prefersDark) == Dark
  {
  }

  /** The `background.default` and `background.paper` colours. */
  datatype Backgrounds = Backgrounds(default: string, paper: string)

  /** The backgrounds of `createAppTheme(activeMode)`: the light pair for `light`, the dark
      pair for anything else. */
  function PaletteBackgrounds(active: string): (b: Backgrounds)
    ensures active == Light ==> b == Backgrounds("#f5f5f5", "#ffffff")
    ensures active != Light ==> b == Backgrounds("#121212", "#1e1e1e")
  {
    if active == Light then Backgrounds("#f5f5f5", "#ffffff") else Backgrounds("#121212", "#1e1e1e")
  }

  /** The text kept under `themeMode`, when there is a non-empty one. */
  function StoredMode(s: Store): (m: string)
    ensures m != "" <==> ThemeModeKey in s && s[ThemeModeKey].Raw? && s[ThemeModeKey].text != ""
  {
    if ThemeModeKey in s && s[ThemeModeKey].Raw? then s[ThemeModeKey].text else ""
  }

  /** `setMode(newMode)` followed by the persistence and resolution effects: the mode is
      written to `themeMode` and nothing else is written. */
  function SetMode(st: ThemeState, s: Store, newMode: string, prefersDark: bool): (r: (ThemeState, Store))
    ensures r.0.mode == newMode
    ensures r.0.active == ActiveMode(newMode, prefersDark)
    ensures ThemeModeKey in r.1 && r.1[ThemeModeKey] == Raw(newMode)
    ensures forall k :: k != ThemeModeKey ==> (k in r.1 <==> k in s) && (k in s ==> r.1[k] == s[k])
  {
    (ThemeState(newMode, ActiveMode(newMode, prefersDark)), s[ThemeModeKey := Raw(newMode)])
  }

  /** The mount effects: a stored non-empty mode is restored, otherwise the mode stays `light`;
      either way the mode is then written back. */
  function Mount(s: Store, prefersDark: bool): (r: (ThemeState, Store))
    ensures StoredMode(s) != "" ==> r.0.mode == StoredMode(s)
    ensures StoredMode(s) == "" ==> r.0.mode == Light
    ensures r.0.active == ActiveMode(r.0.mode, prefersDark)
    ensures StoredMode(r.1) == r.0.mode
  {
    var mode := StoredMode(s);
    SetMode(Initial, s, if mode != "" then mode else Light, prefersDark)
  }

  /** A chosen mode survives a reload, whatever the preference is by then. */
  lemma ModeSurvivesReload(st: ThemeState, s: Store, mode: string, before: bool, after: bool)
    requires mode != ""
    ensures Mount(SetMode(st, s, mode, before).1, after).0 == ThemeState(mode, ActiveMode(mode, after))
  {
  }

  /** The `change` listener of the colour-scheme query, registered only in `system` mode. */
  function PreferenceChanged(st: ThemeState, prefersDark: bool): (r: ThemeState)
    ensures r.mode == st.mode
    ensures st.mode == System ==> r.active == ActiveMode(System, prefersDark)
    ensures st.mode != System ==> r == st
  {
    if st.mode == System then st.(active := if prefersDark then Dark else Light) else st
  }

  /** In `system` mode the active mode always tracks the latest preference; in the other modes
      a preference change is ignored. */
  lemma FollowsPreference(st: ThemeState, s: Store, mode: string, p0: bool, p1: bool)
    ensures var st1 := PreferenceChanged(SetMode(st, s, mode, p0).0, p1);
      st1.active == (if mode == System then ActiveMode(System, p1) else mode)
  {
  }
}
