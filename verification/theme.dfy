/** The colour-theme provider: the closed set of theme names, the list the
    switcher offers, the effect that adopts a stored theme on mount and the
    effect that publishes every change to the document attribute and to
    local storage. Storage is a string map passed in and returned. */
module Theme {
  import opened Wrappers

  datatype Theme =
    | HealthcareProfessional
    | LightBlueWhite
    | NavySkyBlue
    | CoolGreyBlue
    | SoftBlueGradient
    | WhiteBlueMonochrome
    | WarmNeutralsNavy
    | CharcoalLime
    | BlackYellow
    | SlateCoral
    | OffWhiteTeal

  /** The string each theme is stored and published as. */
  function Name(t: Theme): string {
    match t
    case HealthcareProfessional => "healthcare-professional"
    case LightBlueWhite => "light-blue-white"
    case NavySkyBlue => "navy-sky-blue"
    case CoolGreyBlue => "cool-grey-blue"
    case SoftBlueGradient => "soft-blue-gradient"
    case WhiteBlueMonochrome => "white-blue-monochrome"
    case WarmNeutralsNavy => "warm-neutrals-navy"
    case CharcoalLime => "charcoal-lime"
    case BlackYellow => "black-yellow"
    case SlateCoral => "slate-coral"
    case OffWhiteTeal => "off-white-teal"
  }

  /** Reads a theme name back; any other string is not a theme. */
  function Parse(s: string): (r: Option<Theme>)
    ensures r.Some? ==> Name(r.value) == s
  {
    if s == "healthcare-professional" then Some(HealthcareProfessional)
    else if s == "light-blue-white" then Some(LightBlueWhite)
    else if s == "navy-sky-blue" then Some(NavySkyBlue)
    else if s == "cool-grey-blue" then Some(CoolGreyBlue)
    else if s == "soft-blue-gradient" then Some(SoftBlueGradient)
    else if s == "white-blue-monochrome" then Some(WhiteBlueMonochrome)
    else if s == "warm-neutrals-navy" then Some(WarmNeutralsNavy)
    else if s == "charcoal-lime" then Some(CharcoalLime)
    else if s == "black-yellow" then Some(BlackYellow)
    else if s == "slate-coral" then Some(SlateCoral)
    else if s == "off-white-teal" then Some(OffWhiteTeal)
    else None
  }

  /** Every theme's name reads back as that theme, so names are distinct. */
  lemma ParseName(t: Theme)
    ensures Parse(Name(t)) == Some(t)
  {
  }

  lemma NameInjective(a: Theme, b: Theme)
    ensures Name(a) == Name(b) <==> a == b
  {
    ParseName(a);
    ParseName(b);
  }

  /** One entry of the switcher's list. */
  datatype ThemeOption = ThemeOption(value: Theme, title: string, description: string)

  const THEMES: seq<ThemeOption> := [
    ThemeOption(HealthcareProfessional, "Healthcare Professional", "Original healthcare-focused design"),
    ThemeOption(LightBlueWhite, "Light Blue & White", "Clean & Trustworthy"),
    ThemeOption(NavySkyBlue, "Navy & Sky Blue", "Modern & Confident"),
    ThemeOption(CoolGreyBlue, "Cool Grey & Blue", "Neutral & Minimal"),
    ThemeOption(SoftBlueGradient, "Soft Blue Gradient", "Tech-Forward"),
    ThemeOption(WhiteBlueMonochrome, "White & Blue Monochrome", "Sharp & Bold"),
    ThemeOption(WarmNeutralsNavy, "Warm Neutrals + Deep Navy", "Sophisticated & Calming"),
    ThemeOption(CharcoalLime, "Charcoal & Lime", "Modern & Energetic"),
    ThemeOption(BlackYellow, "Black & Yellow", "Striking & Confident"),
    ThemeOption(SlateCoral, "Slate + Coral", "Fresh & Friendly"),
    ThemeOption(OffWhiteTeal, "Off-White & Teal-Green", "Clean & Balanced")
  ]

  const DEFAULT_THEME: Theme := HealthcareProfessional
  /** The local-storage key and the document attribute the theme is published under. */
  const STORAGE_KEY: string := "theme"

  /** The position of a theme in the list. */
  function IndexOf(t: Theme): nat {
    match t
    case HealthcareProfessional => 0
    case LightBlueWhite => 1
    case NavySkyBlue => 2
    case CoolGreyBlue => 3
    case SoftBlueGradient => 4
    case WhiteBlueMonochrome => 5
    case WarmNeutralsNavy => 6
    case CharcoalLime => 7
    case BlackYellow => 8
    case SlateCoral => 9
    case OffWhiteTeal => 10
  }

  /** The list holds eleven entries, every theme occurs in it, and no theme occurs twice. */
  lemma ThemesListExact()
    ensures |THEMES| == 11
    ensures forall t: Theme :: IndexOf(t) < |THEMES| && THEMES[IndexOf(t)].value == t
    ensures forall i, j :: 0 <= i < j < |THEMES| ==> THEMES[i].value != THEMES[j].value
  {
  }

  /** `themes.some(t => t.value === s)`: some entry carries the name `s`. */
  predicate Listed(s: string) {
    exists i :: 0 <= i < |THEMES| && Name(THEMES[i].value) == s
  }

  /** A string is listed exactly when it is the name of a theme. */
  lemma ListedIffParses(s: string)
    ensures Listed(s) <==> Parse(s).Some?
  {
    ThemesListExact();
    if Parse(s).Some? {
      var t := Parse(s).value;
      assert Name(THEMES[IndexOf(t)].value) == s;
    }
    if Listed(s) {
      var i :| 0 <= i < |THEMES| && Name(THEMES[i].value) == s;
      ParseName(THEMES[i].value);
    }
  }

  /** The mount effect: the stored value replaces the current theme when it
      is present, non-empty and listed; otherwise the theme stays. */
  function LoadSaved(current: Theme, saved: Option<string>): (r: Theme)
    ensures saved.Some? && saved.value != "" && Listed(saved.value) ==> Name(r) == saved.value
    ensures !(saved.Some? && saved.value != "" && Listed(saved.value)) ==> r == current
  {
    if saved.Some? && saved.value != "" && Listed(saved.value) then
      ListedIffParses(saved.value);
      Parse(saved.value).value
    else current
  }

  /** The empty-string guard never decides anything: the empty string is not listed. */
  lemma EmptyNeverListed()
    ensures !Listed("")
  {
    ListedIffParses("");
  }

  /** What the provider leaves behind: the current theme, the document's
      `data-theme` attribute and local storage. */
  datatype Provider = Provider(theme: Theme, attribute: Option<string>, storage: map<string, string>)

  /** Attribute and storage key both carry the current theme's name. */
  predicate Published(p: Provider) {
    p.attribute == Some(Name(p.theme))
    && STORAGE_KEY in p.storage && p.storage[STORAGE_KEY] == Name(p.theme)
  }

  /** The persist effect after a render with `p.theme`. */
  function Persist(p: Provider): (r: Provider)
    ensures Published(r) && r.theme == p.theme
    ensures forall k :: k != STORAGE_KEY ==> (k in r.storage <==> k in p.storage)
    ensures forall k :: k != STORAGE_KEY && k in p.storage ==> r.storage[k] == p.storage[k]
  {
    p.(attribute := Some(Name(p.theme)), storage := p.storage[STORAGE_KEY := Name(p.theme)])
  }

  /** `setTheme(t)` followed by the persist effect it triggers. */
  function SetTheme(p: Provider, t: Theme): (r: Provider)
    ensures r.theme == t && Published(r)
    ensures forall k :: k != STORAGE_KEY ==> (k in r.storage <==> k in p.storage)
    ensures forall k :: k != STORAGE_KEY && k in p.storage ==> r.storage[k] == p.storage[k]
  {
    Persist(p.(theme := t))
  }

  /** A mount against the given storage, once its effects have settled: the
      load effect reads the stored value, the persist effect publishes the
      default, and when the load changed the theme, the re-render publishes
      the adopted one. `attribute` is the document's value before mount. */
  function Mount(storage: map<string, string>, attribute: Option<string>): (r: Provider)
    ensures var saved := if STORAGE_KEY in storage then Some(storage[STORAGE_KEY]) else None;
      r.theme == LoadSaved(DEFAULT_THEME, saved)
    ensures Published(r)
  {
    var saved := if STORAGE_KEY in storage then Some(storage[STORAGE_KEY]) else None;
    var adopted := LoadSaved(DEFAULT_THEME, saved);
    var first := Persist(Provider(DEFAULT_THEME, attribute, storage));
    if adopted == DEFAULT_THEME then first else SetTheme(first, adopted)
  }

  /** With nothing usable in storage the provider starts on the default theme. */
  lemma MountDefaults(storage: map<string, string>, attribute: Option<string>)
    requires STORAGE_KEY !in storage || Parse(storage[STORAGE_KEY]).None?
    ensures Mount(storage, attribute).theme == HealthcareProfessional
  {
    if STORAGE_KEY in storage {
      ListedIffParses(storage[STORAGE_KEY]);
    }
  }

  /** A run of switches: each publishes its theme, so the last choice is current and published. */
  function Switches(p: Provider, choices: seq<Theme>): (r: Provider)
    ensures |choices| > 0 ==> r.theme == choices[|choices| - 1] && Published(r)
    ensures |choices| == 0 ==> r == p
    decreases |choices|
  {
    if |choices| == 0 then p else Switches(SetTheme(p, choices[0]), choices[1..])
  }

  /** Round trip: the theme a provider last persisted is the one the next
      mount against that storage adopts. */
  lemma PersistThenMount(p: Provider, t: Theme, attribute: Option<string>)
    ensures Mount(SetTheme(p, t).storage, attribute).theme == t
  {
    var s := SetTheme(p, t).storage;
    assert s[STORAGE_KEY] == Name(t);
    ParseName(t);
    ListedIffParses(Name(t));
    assert Name(t) != "" by { assert |Name(t)| > 0; }
    NameInjective(LoadSaved(DEFAULT_THEME, Some(Name(t))), t);
  }
}
