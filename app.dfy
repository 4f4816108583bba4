/** The `Settings.Theme.colorScheme` extension: the colour scheme the app window prefers. */
module ToDoListApp {
  import opened Options
  import Settings

  /** SwiftUI's `ColorScheme`. */
  datatype ColorScheme = LightScheme | DarkScheme

  /** `colorScheme`: `nil` lets the system choose. */
  function PreferredColorScheme(t: Settings.Theme): (r: Option<ColorScheme>)
    ensures r.None? <==> t == Settings.System
    ensures r == Some(LightScheme) <==> t == Settings.Light
    ensures r == Some(DarkScheme) <==> t == Settings.Dark
  {
    match t
    case Light => Some(LightScheme)
    case Dark => Some(DarkScheme)
    case System => None
  }

  lemma PreferredColorSchemeInjective(t: Settings.Theme, u: Settings.Theme)
    requires PreferredColorScheme(t).Some?
    ensures PreferredColorScheme(t) == PreferredColorScheme(u) <==> t == u
  {
  }
}
