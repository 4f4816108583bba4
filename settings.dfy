/**
 * The part of `Settings` with behaviour: the `Theme` enumeration with its hand-written
 * `rawValue` / `init?(rawValue:)` pair, and the defaults of the two stored settings.
 */
module Settings {
  import opened Options

  datatype Theme = Light | Dark | System

  /** Default of the stored `selectedTheme`. */
  const DefaultTheme: Theme := System

  /** Default of the stored `selectedLanguage`. */
  const DefaultLanguage: string := "en"

  /** The hand-written `rawValue`. */
  function ThemeRawValue(t: Theme): string {
    match t
    case Light => "light.theme"
    case Dark => "dark.theme"
    case System => "system.theme"
  }

  /** The hand-written `init?(rawValue:)`: nil for every string outside the three raw values. */
  function ThemeFromRaw(s: string): (r: Option<Theme>)
    ensures r.Some? ==> ThemeRawValue(r.value) == s
    ensures r.None? <==> forall t: Theme :: ThemeRawValue(t) != s
  {
    match s
    case "light.theme" => Some(Light)
    case "dark.theme" => Some(Dark)
    case "system.theme" => Some(System)
    case _ => None
  }

  lemma ThemeRoundTrip(t: Theme)
    ensures ThemeFromRaw(ThemeRawValue(t)) == Some(t)
  {
  }

  lemma ThemeRawValueInjective(t: Theme, u: Theme)
    ensures ThemeRawValue(t) == ThemeRawValue(u) <==> t == u
  {
  }

  lemma Defaults()
    ensures ThemeRawValue(DefaultTheme) == "system.theme"
    ensures DefaultLanguage == "en"
  {
  }
}
