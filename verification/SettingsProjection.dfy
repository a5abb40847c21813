/** What of the live configuration is stored, and the configuration that a reload gives back. */
module SettingsProjection {
  import opened Text

  const CURRENT_SCHEMA_VERSION := 1

  datatype SysProxyType = ForcedClear | ForcedChange | Unchanged | Pac
  datatype TrafficMode = RuleMode | GlobalMode | DirectMode | UnchangedMode
  datatype ThemeMode = System | Light | Dark

  datatype KeyEvent = KeyEvent(alt: bool, control: bool, shift: bool, keyCode: Option<int>)
  datatype Chord = Chord(alt: bool, control: bool, shift: bool, keyCode: int)

  datatype InItem = InItem(
    localPort: int, protocol: string, sniffingEnabled: bool, allowLanConn: bool,
    newPort4Lan: bool, user: string, pass: string, secondLocalPortEnabled: bool)

  datatype InboundSettings = InboundSettings(
    localPort: int, protocol: string, sniffingEnabled: bool, lanConnectionsAllowed: bool,
    separateLanPort: bool, username: string, password: string, secondaryPortEnabled: bool)

  /** The many fields that both directions copy one to one, by name. */
  type Copied = map<string, string>

  datatype AppConfig = AppConfig(
    indexId: string,
    subIndexId: string,
    routingIndexId: string,
    autoRun: bool,
    currentTheme: Option<string>,
    sysProxyType: SysProxyType,
    trafficMode: TrafficMode,
    inbound: seq<InItem>,
    showWindowShortcut: Option<KeyEvent>,
    copied: Copied)

  datatype Settings = Settings(
    schemaVersion: int,
    autostart: bool,
    theme: ThemeMode,
    systemProxyMode: string,
    trafficMode: string,
    inbounds: seq<InboundSettings>,
    showWindowShortcut: Option<Chord>,
    copied: Copied)

  datatype StateRecord = StateRecord(activeProfileId: Option<string>, activeRoutingId: Option<string>)

  datatype Loaded = Ok(config: AppConfig) | InvalidValue(field: string, value: string)

  function LowerChar(c: char): char {
    if 'A' <= c <= 'Z' then c + ' ' else c
  }

  function AsciiLower(s: string): string {
    seq(|s|, i requires 0 <= i < |s| => LowerChar(s[i]))
  }

  function ThemeToConfig(theme: ThemeMode): string {
    match theme
    case System => "FollowSystem"
    case Light => "Light"
    case Dark => "Dark"
  }

  function ThemeFromConfig(value: Option<string>): ThemeMode {
    match value
    case None => System
    case Some(text) =>
      if AsciiLower(text) == "light" then Light
      else if AsciiLower(text) == "dark" then Dark
      else System
  }

  function ProxyModeToStr(value: SysProxyType): string {
    match value
    case ForcedClear => "forcedClear"
    case ForcedChange => "forcedChange"
    case Unchanged => "unchanged"
    case Pac => "pac"
  }

  function ProxyModeFromStr(value: string): Option<SysProxyType> {
    if value == "forcedClear" then Some(ForcedClear)
    else if value == "forcedChange" then Some(ForcedChange)
    else if value == "unchanged" then Some(Unchanged)
    else if value == "pac" then Some(Pac)
    else None
  }

  function TrafficModeToStr(value: TrafficMode): string {
    match value
    case RuleMode => "rule"
    case GlobalMode => "global"
    case DirectMode => "direct"
    case UnchangedMode => "unchanged"
  }

  function TrafficModeFromStr(value: string): Option<TrafficMode> {
    if value == "rule" then Some(RuleMode)
    else if value == "global" then Some(GlobalMode)
    else if value == "direct" then Some(DirectMode)
    else if value == "unchanged" then Some(UnchangedMode)
    else None
  }

  function InboundToSettings(item: InItem): InboundSettings {
    InboundSettings(item.localPort, item.protocol, item.sniffingEnabled, item.allowLanConn,
                    item.newPort4Lan, item.user, item.pass, item.secondLocalPortEnabled)
  }

  function InboundFromSettings(item: InboundSettings): InItem {
    InItem(item.localPort, item.protocol, item.sniffingEnabled, item.lanConnectionsAllowed,
           item.separateLanPort, item.username, item.password, item.secondaryPortEnabled)
  }

  /** A shortcut is stored only when it names a key. */
  function ChordOf(shortcut: Option<KeyEvent>): Option<Chord> {
    match shortcut
    case Some(KeyEvent(alt, control, shift, Some(code))) => Some(Chord(alt, control, shift, code))
    case _ => None
  }

  function KeyEventOf(shortcut: Option<Chord>): Option<KeyEvent> {
    match shortcut
    case None => None
    case Some(chord) => Some(KeyEvent(chord.alt, chord.control, chord.shift, Some(chord.keyCode)))
  }

  function NonEmpty(id: string): Option<string> {
    if id == "" then None else Some(id)
  }

  function OrEmpty(id: Option<string>): string {
    match id
    case None => ""
    case Some(text) => text
  }

  function SettingsFromConfig(c: AppConfig): Settings {
    Settings(
      CURRENT_SCHEMA_VERSION,
      c.autoRun,
      ThemeFromConfig(c.currentTheme),
      ProxyModeToStr(c.sysProxyType),
      TrafficModeToStr(c.trafficMode),
      seq(|c.inbound|, i requires 0 <= i < |c.inbound| => InboundToSettings(c.inbound[i])),
      ChordOf(c.showWindowShortcut),
      c.copied)
  }

  function StateFromConfig(c: AppConfig): StateRecord {
    StateRecord(NonEmpty(c.indexId), NonEmpty(c.routingIndexId))
  }

  function ConfigFromSettings(s: Settings, state: StateRecord): Loaded {
    match ProxyModeFromStr(s.systemProxyMode)
    case None => InvalidValue("network.systemProxy.mode", s.systemProxyMode)
    case Some(proxyType) =>
      match TrafficModeFromStr(s.trafficMode)
      case None => InvalidValue("proxy.trafficMode", s.trafficMode)
      case Some(mode) =>
        Ok(AppConfig(
          OrEmpty(state.activeProfileId),
          "",
          OrEmpty(state.activeRoutingId),
          s.autostart,
          Some(ThemeToConfig(s.theme)),
          proxyType,
          mode,
          seq(|s.inbounds|, i requires 0 <= i < |s.inbounds| => InboundFromSettings(s.inbounds[i])),
          KeyEventOf(s.showWindowShortcut),
          s.copied))
  }

  /** What a reload makes of a configuration: three fields lose what the store has no room for. */
  function Canonical(c: AppConfig): AppConfig {
    c.(subIndexId := "",
       currentTheme := Some(ThemeToConfig(ThemeFromConfig(c.currentTheme))),
       showWindowShortcut := if c.showWindowShortcut.Some? && c.showWindowShortcut.value.keyCode.None? then None
                             else c.showWindowShortcut)
  }

  lemma ThemeRoundTrip(theme: ThemeMode)
    ensures ThemeFromConfig(Some(ThemeToConfig(theme))) == theme
  {
    assert AsciiLower("Light") == "light";
    assert AsciiLower("Dark") == "dark";
    assert AsciiLower("FollowSystem")[0] == 'f';
  }

  /** Loading what was stored of a configuration gives its canonical form. */
  lemma ReloadGivesCanonical(c: AppConfig)
    ensures ConfigFromSettings(SettingsFromConfig(c), StateFromConfig(c)) == Ok(Canonical(c))
  {
    var loaded := ConfigFromSettings(SettingsFromConfig(c), StateFromConfig(c));
    assert loaded.config.inbound == c.inbound;
  }

  /** The canonical form is stored exactly like the original, so reloading again changes nothing. */
  lemma CanonicalIsStoredAlike(c: AppConfig)
    ensures SettingsFromConfig(Canonical(c)) == SettingsFromConfig(c)
    ensures StateFromConfig(Canonical(c)) == StateFromConfig(c)
    ensures Canonical(Canonical(c)) == Canonical(c)
  {
    ThemeRoundTrip(ThemeFromConfig(c.currentTheme));
  }

  /**
   * Storing what was loaded gives back the stored records exactly when they are current
   * and spell a missing id as missing rather than empty.
   */
  lemma StoredAgainExactly(s: Settings, state: StateRecord)
    requires ConfigFromSettings(s, state).Ok?
    ensures var c := ConfigFromSettings(s, state).config;
            && Canonical(c) == c
            && (SettingsFromConfig(c) == s && StateFromConfig(c) == state
                <==> s.schemaVersion == CURRENT_SCHEMA_VERSION
                     && state.activeProfileId != Some("") && state.activeRoutingId != Some(""))
  {
    var c := ConfigFromSettings(s, state).config;
    ThemeRoundTrip(s.theme);
    assert SettingsFromConfig(c).inbounds == s.inbounds;
  }
}
