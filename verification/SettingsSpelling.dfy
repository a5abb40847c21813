/** Under which names and in which spellings a configuration is stored. */
module SettingsSpelling {
  import opened Text
  import opened SettingsProjection

  /** The same letters, where `text` may have ASCII capitals for the small ones of `small`. */
  predicate IsSpelling(text: string, small: string) {
    |text| == |small|
    && forall i :: 0 <= i < |text| ==>
         text[i] == small[i] || ('A' <= text[i] <= 'Z' && text[i] as int + 32 == small[i] as int)
  }

  lemma LowerIsSpelling(text: string, small: string)
    requires forall i :: 0 <= i < |small| ==> 'a' <= small[i] <= 'z'
    ensures AsciiLower(text) == small <==> IsSpelling(text, small)
  {
    if IsSpelling(text, small) {
      forall i | 0 <= i < |text| ensures LowerChar(text[i]) == small[i] {
      }
    }
    if AsciiLower(text) == small {
      forall i | 0 <= i < |text|
        ensures text[i] == small[i] || ('A' <= text[i] <= 'Z' && text[i] as int + 32 == small[i] as int)
      {
        assert AsciiLower(text)[i] == LowerChar(text[i]);
      }
    }
  }

  /** Light and dark in any mixture of capitals; anything else, or nothing, follows the system. */
  lemma ThemesExactly(value: Option<string>)
    ensures ThemeFromConfig(value) == Light <==> value.Some? && IsSpelling(value.value, "light")
    ensures ThemeFromConfig(value) == Dark <==> value.Some? && IsSpelling(value.value, "dark")
  {
    if value.Some? {
      LowerIsSpelling(value.value, "light");
      LowerIsSpelling(value.value, "dark");
    }
  }

  /** The stored spellings of both modes. */
  lemma StoredSpellings(proxy: SysProxyType, traffic: TrafficMode, text: string)
    ensures ProxyModeFromStr(text) == Some(proxy)
            <==> text == match proxy
                         case ForcedClear => "forcedClear"
                         case ForcedChange => "forcedChange"
                         case Unchanged => "unchanged"
                         case Pac => "pac"
    ensures TrafficModeFromStr(text) == Some(traffic)
            <==> text == match traffic
                         case RuleMode => "rule"
                         case GlobalMode => "global"
                         case DirectMode => "direct"
                         case UnchangedMode => "unchanged"
  {
  }

  /** Which stored field holds which value. */
  lemma StoredFields(c: AppConfig, i: nat)
    ensures var s := SettingsFromConfig(c);
            && s.schemaVersion == 1
            && s.autostart == c.autoRun
            && |s.inbounds| == |c.inbound|
            && (i < |c.inbound| ==> InboundStored(c.inbound[i], s.inbounds[i]))
            && (match c.showWindowShortcut
                case None => s.showWindowShortcut == None
                case Some(event) =>
                  if event.keyCode.None? then s.showWindowShortcut == None
                  else
                    && s.showWindowShortcut.Some?
                    && var chord := s.showWindowShortcut.value;
                    && chord.alt == event.alt && chord.control == event.control && chord.shift == event.shift
                    && chord.keyCode == event.keyCode.value)
    ensures var state := StateFromConfig(c);
            && state.activeProfileId == (if c.indexId == "" then None else Some(c.indexId))
            && state.activeRoutingId == if c.routingIndexId == "" then None else Some(c.routingIndexId)
  {
  }

  predicate InboundStored(item: InItem, stored: InboundSettings) {
    && stored.localPort == item.localPort
    && stored.protocol == item.protocol
    && stored.sniffingEnabled == item.sniffingEnabled
    && stored.lanConnectionsAllowed == item.allowLanConn
    && stored.separateLanPort == item.newPort4Lan
    && stored.username == item.user
    && stored.password == item.pass
    && stored.secondaryPortEnabled == item.secondLocalPortEnabled
  }
}
