/** What the proxy service reports, and what the desktop looks like when it reports that. */
module ProxyReport {
  import opened SystemProxy

  /** The platform can do what is asked; leaving things alone is always possible. */
  predicate IsSupported(request: Request) {
    request.valid && (request.proxyType == Unchanged || request.os != Other)
  }

  /** The mode in force after a request: a forced disable clears, and there is no PAC on Linux. */
  function ModeInForce(request: Request): SysProxyType {
    match request.proxyType
    case Unchanged => Unchanged
    case ForcedClear => ForcedClear
    case ForcedChange => if request.forceDisable then ForcedClear else ForcedChange
    case Pac =>
      if request.forceDisable then ForcedClear
      else if request.os == Linux then Unchanged
      else Pac
  }

  /** Which settings point to the local proxy in a mode, when they were like `w` before. */
  predicate Shows(before: World, after: World, mode: SysProxyType) {
    match mode
    case ForcedChange => after.enabled && !after.pac
    case Pac => after.pac && !after.enabled
    case ForcedClear => !after.enabled && !after.pac
    case Unchanged => after.enabled == before.enabled && after.pac == before.pac
  }

  lemma ScriptShows(w: World, script: seq<Effect>, mode: string)
    ensures var after := PerformAll(w, script + ScriptResult(mode));
            && after.enabled == (mode == "set")
            && after.pac == (mode == "pac")
  {
    PerformAppend(w, script, ScriptResult(mode));
    PerformTwo(PerformAll(w, script), ScriptResult(mode));
  }

  lemma CommandsShow(w: World, commands: seq<Effect>, on: bool, pac: bool)
    requires commands == [SetEnabled(on), SetServer, SetOverride, SetPac(pac)]
    ensures PerformAll(w, commands) == w.(enabled := on, pac := pac)
  {
    PerformFour(w, commands);
  }

  lemma ScriptReported(w: World, request: Request, io: Io, mode: string)
    requires PlanFor(request).Planned? && PlanFor(request).action == Script(mode)
    ensures ServiceApply(request, io).outcome.Done? ==>
              ServiceApply(request, io).outcome == Done(ModeInForce(request))
              && Shows(w, PerformAll(w, ServiceApply(request, io).effects), ModeInForce(request))
  {
    ScriptShows(w, io.script, mode);
  }

  lemma CommandsReported(w: World, request: Request, io: Io, effects: seq<Effect>)
    requires PlanFor(request).Planned? && PlanFor(request).action == Commands(effects)
    ensures |effects| == 4
    ensures ServiceApply(request, io).outcome.Done? ==>
              ServiceApply(request, io).outcome == Done(ModeInForce(request))
              && Shows(w, PerformAll(w, ServiceApply(request, io).effects), ModeInForce(request))
  {
    CommandsShow(w, effects, request.proxyType == ForcedChange && !request.forceDisable, false);
    assert io.commandsDone >= 4 ==> Prefix(effects, io.commandsDone) == effects;
  }

  /**
   * A request that the platform does not support fails without any change. Any other ends
   * with the mode in force, or fails; when it ends well, the desktop shows that mode.
   */
  lemma ReportedMeansDone(w: World, request: Request, io: Io)
    ensures var t := ServiceApply(request, io);
            && (!IsSupported(request) ==> t == Trace([], Failed))
            && (IsSupported(request) && io.pacServerOk && io.scriptOk && io.commandsDone >= 4 ==> t.outcome.Done?)
            && (t.outcome.Done? ==>
                  && t.outcome.effective == ModeInForce(request)
                  && Shows(w, PerformAll(w, t.effects), ModeInForce(request)))
  {
    match PlanFor(request)
    case Planned(Script(mode), _) => ScriptReported(w, request, io, mode);
    case Planned(PacScript, _) => ScriptShows(w, io.script, "pac");
    case Planned(Commands(effects), _) => CommandsReported(w, request, io, effects);
    case Planned(PacCommands, _) =>
      var effects := [SetEnabled(false), SetServer, SetOverride, SetPac(true)];
      CommandsShow(w, effects, false, true);
      assert io.commandsDone >= 4 ==> Prefix(effects, io.commandsDone) == effects;
    case _ =>
  }

  /** What the marker is after a call that ended well: gone when cleared, there when a proxy is set. */
  predicate MarkerFits(before: World, after: World, mode: SysProxyType) {
    match mode
    case ForcedClear => !after.marker
    case ForcedChange => after.marker
    case Pac => after.marker
    case Unchanged => after.marker == before.marker
  }

  lemma {:induction false} KeepsMarker(w: World, effects: seq<Effect>)
    requires forall e :: e in effects ==> !e.PutMarker? && !e.DropMarker?
    ensures PerformAll(w, effects).marker == w.marker
    decreases |effects|
  {
    if effects != [] {
      KeepsMarker(Perform(w, effects[0]), effects[1..]);
    }
  }

  lemma ServiceKeepsMarker(w: World, request: Request, io: Io)
    requires Honest(request, io)
    ensures PerformAll(w, ServiceApply(request, io).effects).marker == w.marker
  {
    SetsOnlyWhenMarked(request, io);
    KeepsMarker(w, ServiceApply(request, io).effects);
  }

  lemma ClearReported(w: World, request: Request, io: Io)
    requires Honest(request, io)
    ensures var t, service := ApplyAndClear(request, io), ServiceApply(request, io);
            && (t.outcome.Done? <==> service.outcome.Done? && (ModeInForce(request) == ForcedClear ==> io.markerDropOk))
            && (t.outcome.Done? ==>
                  && t.outcome.effective == ModeInForce(request)
                  && Shows(w, PerformAll(w, t.effects), ModeInForce(request))
                  && PerformAll(w, t.effects).marker == (w.marker && ModeInForce(request) != ForcedClear))
  {
    var service := ServiceApply(request, io);
    ReportedMeansDone(w, request, io);
    ServiceKeepsMarker(w, request, io);
    if service.outcome == Done(ForcedClear) {
      PerformAppend(w, service.effects, [DropMarker]);
      assert [DropMarker][1..] == [];
    }
  }

  /**
   * A call reports success exactly when each of its own steps went well, and then the
   * desktop shows the mode in force and the marker fits it.
   */
  lemma CallReported(w: World, request: Request, io: Io)
    requires Honest(request, io)
    ensures var t, mode := ApplyConfig(request, io), ModeInForce(request);
            && (t.outcome.Done? <==>
                  && io.dirsOk
                  && ServiceApply(request, io).outcome.Done?
                  && (mode == ForcedChange || mode == Pac ==> io.markerWriteOk)
                  && (mode == ForcedClear ==> io.markerDropOk))
            && (t.outcome.Done? ==>
                  && t.outcome.effective == mode
                  && Shows(w, PerformAll(w, t.effects), mode)
                  && MarkerFits(w, PerformAll(w, t.effects), mode))
  {
    ReportedMeansDone(w, request, io);
    if RequestSetsLocalProxy(request) {
      var marked := w.(marker := true);
      ClearReported(marked, request, io);
      var rest := ApplyAndClear(request, io);
      PerformAppend(w, [PutMarker], rest.effects);
      assert [PutMarker][1..] == [] && PerformAll(w, [PutMarker]) == marked;
    } else {
      ClearReported(w, request, io);
    }
  }
}
