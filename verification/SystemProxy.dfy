/**
 * The system proxy and its dirty marker. The marker file is written before the proxy is
 * set and removed only after it was truly cleared, so that a start after a crash knows
 * whether it has to clear up. Each durable change is one effect; a crash or an error may
 * come between any two.
 */
module SystemProxy {
  import opened Text

  datatype SysProxyType = ForcedClear | ForcedChange | Unchanged | Pac
  datatype TargetOs = Windows | Linux | Macos | Other

  /** The part of a request that decides what is done; `valid` covers ports and exceptions. */
  datatype Request = Request(os: TargetOs, proxyType: SysProxyType, forceDisable: bool, valid: bool)

  /** Whether the marker exists, and which settings of the desktop point to the local proxy. */
  datatype World = World(marker: bool, enabled: bool, pac: bool) {
    predicate ProxySet() {
      enabled || pac
    }

    predicate Safe() {
      ProxySet() ==> marker
    }
  }

  datatype Effect =
    | PutMarker
    | DropMarker
    | SetEnabled(on: bool)
    | SetServer
    | SetOverride
    | SetPac(on: bool)

  function Perform(w: World, e: Effect): World {
    match e
    case PutMarker => w.(marker := true)
    case DropMarker => w.(marker := false)
    case SetEnabled(on) => w.(enabled := on)
    case SetPac(on) => w.(pac := on)
    case _ => w
  }

  function PerformAll(w: World, effects: seq<Effect>): World
    decreases |effects|
  {
    if effects == [] then w else PerformAll(Perform(w, effects[0]), effects[1..])
  }

  datatype Action = Noop | Commands(effects: seq<Effect>) | Script(mode: string) | PacScript | PacCommands

  datatype Plan = Planned(action: Action, effective: SysProxyType) | Refused

  function EffectiveType(request: Request): SysProxyType {
    if request.forceDisable && request.proxyType != Unchanged then ForcedClear else request.proxyType
  }

  function PlanFor(request: Request): Plan {
    if !request.valid then Refused
    else
      var effective := EffectiveType(request);
      match (effective, request.os)
      case (Unchanged, _) => Planned(Noop, Unchanged)
      case (_, Other) => Refused
      case (ForcedChange, Windows) =>
        Planned(Commands([SetEnabled(true), SetServer, SetOverride, SetPac(false)]), effective)
      case (ForcedChange, _) => Planned(Script("set"), effective)
      case (ForcedClear, Windows) =>
        Planned(Commands([SetEnabled(false), SetServer, SetOverride, SetPac(false)]), effective)
      case (ForcedClear, _) => Planned(Script("clear"), effective)
      case (Pac, Windows) => Planned(PacCommands, effective)
      case (Pac, Macos) => Planned(PacScript, effective)
      case (Pac, Linux) => Planned(Noop, Unchanged)
  }

  predicate RequestSetsLocalProxy(request: Request) {
    && !request.forceDisable
    && ((request.proxyType == ForcedChange && request.os != Other)
        || (request.proxyType == Pac && (request.os == Windows || request.os == Macos)))
  }

  /**
   * How the outside world answers one call. A failed marker write may still have created
   * the file; commands stop at the first failure; a script performs `script` before it
   * ends, well or not.
   */
  datatype Io = Io(
    dirsOk: bool,
    markerWriteOk: bool,
    markerCreated: bool,
    pacServerOk: bool,
    commandsDone: nat,
    script: seq<Effect>,
    scriptOk: bool,
    markerDropOk: bool)

  datatype Outcome = Done(effective: SysProxyType) | Failed

  /** What a call did, durable change by durable change, and how it ended. */
  datatype Trace = Trace(effects: seq<Effect>, outcome: Outcome)

  function Prefix(effects: seq<Effect>, n: nat): seq<Effect> {
    if n <= |effects| then effects[..n] else effects
  }

  function RunCommands(effects: seq<Effect>, io: Io, effective: SysProxyType): Trace {
    Trace(Prefix(effects, io.commandsDone), if io.commandsDone >= |effects| then Done(effective) else Failed)
  }

  /** A script that ends well leaves the mode it was asked for. */
  function ScriptResult(mode: string): seq<Effect> {
    if mode == "set" then [SetPac(false), SetEnabled(true)]
    else if mode == "pac" then [SetEnabled(false), SetPac(true)]
    else [SetEnabled(false), SetPac(false)]
  }

  function RunScript(mode: string, io: Io, effective: SysProxyType): Trace {
    if io.scriptOk then Trace(io.script + ScriptResult(mode), Done(effective))
    else Trace(io.script, Failed)
  }

  function ServiceApply(request: Request, io: Io): Trace {
    match PlanFor(request)
    case Refused => Trace([], Failed)
    case Planned(Noop, effective) => Trace([], Done(effective))
    case Planned(Commands(effects), effective) => RunCommands(effects, io, effective)
    case Planned(Script(mode), effective) => RunScript(mode, io, effective)
    case Planned(PacScript, effective) => if io.pacServerOk then RunScript("pac", io, effective) else Trace([], Failed)
    case Planned(PacCommands, effective) =>
      if io.pacServerOk then RunCommands([SetEnabled(false), SetServer, SetOverride, SetPac(true)], io, effective)
      else Trace([], Failed)
  }

  /** Applies a request and removes the marker once the proxy is reported cleared. */
  function ApplyAndClear(request: Request, io: Io): Trace {
    var applied := ServiceApply(request, io);
    if applied.outcome != Done(ForcedClear) then applied
    else if io.markerDropOk then applied.(effects := applied.effects + [DropMarker])
    else applied.(outcome := Failed)
  }

  function ApplyConfig(request: Request, io: Io): Trace {
    if !io.dirsOk then Trace([], Failed)
    else if !RequestSetsLocalProxy(request) then ApplyAndClear(request, io)
    else if !io.markerWriteOk then Trace(if io.markerCreated then [PutMarker] else [], Failed)
    else
      var rest := ApplyAndClear(request, io);
      rest.(effects := [PutMarker] + rest.effects)
  }

  datatype Recovery = Recovered(needed: bool) | RecoveryFailed

  /** What a start does when it finds the marker. */
  function RecoveryTrace(request: Request, io: Io): Trace {
    if !io.dirsOk then Trace([], Failed)
    else ApplyAndClear(request.(forceDisable := false, proxyType := ForcedClear), io)
  }

  /** Scripts asked to clear never set a proxy, and no script touches the marker. */
  predicate Honest(request: Request, io: Io) {
    forall e :: e in io.script ==>
      && !e.PutMarker? && !e.DropMarker?
      && (EffectiveType(request) == ForcedClear ==> e != SetEnabled(true) && e != SetPac(true))
  }

  // -------------------------------------------------------------------------- safety

  predicate Sets(e: Effect) {
    e == SetEnabled(true) || e == SetPac(true)
  }

  /** What each plan asks for: only requests that write the marker first may set a proxy. */
  lemma PlanSets(request: Request)
    ensures match PlanFor(request)
            case Planned(Commands(effects), _) =>
              forall e :: e in effects ==> !e.PutMarker? && !e.DropMarker? && (Sets(e) ==> RequestSetsLocalProxy(request))
            case Planned(Script(mode), _) => (mode == "clear" && Refrains(request)) || RequestSetsLocalProxy(request)
            case Planned(PacScript, _) => RequestSetsLocalProxy(request)
            case Planned(PacCommands, _) => RequestSetsLocalProxy(request)
            case _ => true
  {
  }

  predicate Refrains(request: Request) {
    EffectiveType(request) == ForcedClear
  }

  lemma ScriptSets(request: Request, io: Io, mode: string, e: Effect)
    requires Honest(request, io) && e in io.script + ScriptResult(mode)
    requires RequestSetsLocalProxy(request) || (mode == "clear" && Refrains(request))
    ensures !e.PutMarker? && !e.DropMarker? && (Sets(e) ==> RequestSetsLocalProxy(request))
  {
    assert e in io.script || e in ScriptResult(mode);
  }

  /** The service sets a local proxy only for requests that write the marker first. */
  lemma SetsOnlyWhenMarked(request: Request, io: Io)
    requires Honest(request, io)
    ensures forall e :: e in ServiceApply(request, io).effects ==>
              !e.PutMarker? && !e.DropMarker? && (Sets(e) ==> RequestSetsLocalProxy(request))
  {
    PlanSets(request);
    forall e | e in ServiceApply(request, io).effects
      ensures !e.PutMarker? && !e.DropMarker? && (Sets(e) ==> RequestSetsLocalProxy(request))
    {
      match PlanFor(request)
      case Planned(Commands(effects), _) => assert e in effects;
      case Planned(Script(mode), _) =>
        assert e in io.script + ScriptResult(mode);
        ScriptSets(request, io, mode, e);
      case Planned(PacScript, _) =>
        assert e in io.script + ScriptResult("pac");
        ScriptSets(request, io, "pac", e);
      case _ =>
    }
  }

  /** And it does set one for them: the marker is not written for nothing when all goes well. */
  lemma MarkedRequestsSet(w: World, request: Request, io: Io)
    requires RequestSetsLocalProxy(request) && request.valid
    requires io.pacServerOk && io.scriptOk && io.commandsDone >= 4
    ensures PerformAll(w, ServiceApply(request, io).effects).ProxySet()
  {
    var effects := ServiceApply(request, io).effects;
    match PlanFor(request)
    case Planned(Script(mode), _) =>
      PerformAppend(w, io.script, ScriptResult(mode));
      PerformTwo(PerformAll(w, io.script), ScriptResult(mode));
    case Planned(PacScript, _) =>
      PerformAppend(w, io.script, ScriptResult("pac"));
      PerformTwo(PerformAll(w, io.script), ScriptResult("pac"));
    case _ =>
      PerformFour(w, effects);
  }

  lemma PerformTwo(w: World, a: seq<Effect>)
    requires |a| == 2
    ensures PerformAll(w, a) == Perform(Perform(w, a[0]), a[1])
  {
    assert PerformAll(Perform(w, a[0]), a[1..]) == PerformAll(Perform(Perform(w, a[0]), a[1]), a[1..][1..]);
  }

  lemma PerformFour(w: World, a: seq<Effect>)
    requires |a| == 4
    ensures PerformAll(w, a) == Perform(Perform(Perform(Perform(w, a[0]), a[1]), a[2]), a[3])
  {
    var b, c, d := a[1..], a[1..][1..], a[1..][1..][1..];
    assert PerformAll(w, a) == PerformAll(Perform(w, a[0]), b);
    assert PerformAll(Perform(w, a[0]), b) == PerformAll(Perform(Perform(w, a[0]), a[1]), c);
    assert PerformAll(Perform(Perform(w, a[0]), a[1]), c) == PerformAll(Perform(Perform(Perform(w, a[0]), a[1]), a[2]), d);
    assert d[1..] == [];
  }

  lemma {:induction false} PerformAppend(w: World, a: seq<Effect>, b: seq<Effect>)
    ensures PerformAll(w, a + b) == PerformAll(PerformAll(w, a), b)
    decreases |a|
  {
    if a == [] {
      assert a + b == b;
    } else {
      assert (a + b)[1..] == a[1..] + b;
      PerformAppend(Perform(w, a[0]), a[1..], b);
    }
  }

  /** `w` stays safe through every prefix of `effects`. */
  ghost predicate AlwaysSafe(w: World, effects: seq<Effect>) {
    forall n :: 0 <= n <= |effects| ==> PerformAll(w, effects[..n]).Safe()
  }

  /** Effects that leave the marker alone keep a world safe that has it, or that sets nothing. */
  lemma {:induction false} HarmlessKeepsSafe(w: World, effects: seq<Effect>)
    requires w.Safe()
    requires forall e :: e in effects ==> !e.DropMarker? && (Sets(e) ==> w.marker)
    ensures AlwaysSafe(w, effects)
    ensures w.marker ==> PerformAll(w, effects).marker
    decreases |effects|
  {
    if effects != [] {
      var next := Perform(w, effects[0]);
      HarmlessKeepsSafe(next, effects[1..]);
      forall n | 0 <= n <= |effects| ensures PerformAll(w, effects[..n]).Safe() {
        if n > 0 {
          assert effects[..n][1..] == effects[1..][..n - 1];
          assert effects[..n][0] == effects[0];
        }
      }
    }
  }

  lemma SafeAppend(w: World, a: seq<Effect>, b: seq<Effect>)
    requires AlwaysSafe(w, a) && AlwaysSafe(PerformAll(w, a), b)
    ensures AlwaysSafe(w, a + b)
  {
    forall n | 0 <= n <= |a + b| ensures PerformAll(w, (a + b)[..n]).Safe() {
      if n <= |a| {
        assert (a + b)[..n] == a[..n];
      } else {
        assert (a + b)[..n] == a + b[..n - |a|];
        PerformAppend(w, a, b[..n - |a|]);
      }
    }
  }

  /** A call to the service that reports a cleared proxy has cleared it. */
  lemma ClearedMeansCleared(w: World, request: Request, io: Io)
    requires Honest(request, io) && ServiceApply(request, io).outcome == Done(ForcedClear)
    ensures !PerformAll(w, ServiceApply(request, io).effects).ProxySet()
  {
    match PlanFor(request)
    case Planned(Script(mode), _) =>
      PerformAppend(w, io.script, ScriptResult(mode));
      PerformTwo(PerformAll(w, io.script), ScriptResult(mode));
    case Planned(Commands(effects), _) =>
      assert Prefix(effects, io.commandsDone) == effects;
      PerformFour(w, effects);
    case _ =>
  }

  lemma ApplyAndClearSafe(w: World, request: Request, io: Io)
    requires w.Safe() && Honest(request, io) && (RequestSetsLocalProxy(request) ==> w.marker)
    ensures AlwaysSafe(w, ApplyAndClear(request, io).effects)
    ensures ApplyAndClear(request, io).outcome == Done(ForcedClear)
            ==> PerformAll(w, ApplyAndClear(request, io).effects) == World(false, false, false)
  {
    var applied := ServiceApply(request, io);
    SetsOnlyWhenMarked(request, io);
    HarmlessKeepsSafe(w, applied.effects);
    if applied.outcome == Done(ForcedClear) {
      var cleared := PerformAll(w, applied.effects);
      ClearedMeansCleared(w, request, io);
      assert [DropMarker][..0] == [] && [DropMarker][..1] == [DropMarker] && [DropMarker][1..] == [];
      SafeAppend(w, applied.effects, [DropMarker]);
      PerformAppend(w, applied.effects, [DropMarker]);
    }
  }

  /** Applying any configuration keeps the world safe after every single effect. */
  lemma ApplyConfigSafe(w: World, request: Request, io: Io)
    requires w.Safe() && Honest(request, io)
    ensures AlwaysSafe(w, ApplyConfig(request, io).effects)
    ensures ApplyConfig(request, io).outcome == Done(ForcedClear)
            ==> PerformAll(w, ApplyConfig(request, io).effects) == World(false, false, false)
  {
    var marked := Perform(w, PutMarker);
    assert [PutMarker][1..] == [] && [PutMarker][..0] == [] && [PutMarker][..1] == [PutMarker];
    assert AlwaysSafe(w, [PutMarker]);
    if RequestSetsLocalProxy(request) {
      ApplyAndClearSafe(marked, request, io);
      var rest := ApplyAndClear(request, io).effects;
      assert PerformAll(w, [PutMarker]) == marked;
      SafeAppend(w, [PutMarker], rest);
      PerformAppend(w, [PutMarker], rest);
    } else {
      ApplyAndClearSafe(w, request, io);
    }
    assert AlwaysSafe(w, []);
  }

  // ---------------------------------------------------------------------------- runs

  /** One call, perhaps cut short by a crash after some of its effects. */
  datatype Call =
    | Apply(request: Request, io: Io, crashAfter: Option<nat>)
    | Recover(request: Request, io: Io, crashAfter: Option<nat>)
  {
    predicate Honestly() {
      if Apply? then Honest(request, io)
      else Honest(request.(forceDisable := false, proxyType := ForcedClear), io)
    }

    function TraceIn(w: World): Trace {
      if Apply? then ApplyConfig(request, io)
      else if w.marker then RecoveryTrace(request, io)
      else Trace([], Done(ForcedClear))
    }

    function Effects(w: World): seq<Effect> {
      if crashAfter.Some? then Prefix(TraceIn(w).effects, crashAfter.value) else TraceIn(w).effects
    }

    function After(w: World): World {
      PerformAll(w, Effects(w))
    }
  }

  function AfterAll(w: World, calls: seq<Call>): World
    decreases |calls|
  {
    if calls == [] then w else AfterAll(calls[0].After(w), calls[1..])
  }

  lemma CallKeepsSafe(w: World, call: Call)
    requires w.Safe() && call.Honestly()
    ensures AlwaysSafe(w, call.Effects(w)) && call.After(w).Safe()
  {
    var effects := call.TraceIn(w).effects;
    if call.Apply? {
      ApplyConfigSafe(w, call.request, call.io);
    } else if w.marker {
      ApplyAndClearSafe(w, call.request.(forceDisable := false, proxyType := ForcedClear), call.io);
    }
    assert AlwaysSafe(w, effects);
    var kept := call.Effects(w);
    forall n | 0 <= n <= |kept| ensures PerformAll(w, kept[..n]).Safe() {
      assert kept[..n] == effects[..n];
    }
    assert kept[..|kept|] == kept;
  }

  /**
   * After any sequence of calls, each of which may fail anywhere or be cut off by a crash,
   * a proxy that the application has set implies that the marker exists.
   */
  lemma {:induction false} MarkerCoversProxy(w: World, calls: seq<Call>)
    requires w.Safe() && forall call :: call in calls ==> call.Honestly()
    ensures AfterAll(w, calls).Safe()
    decreases |calls|
  {
    if calls != [] {
      CallKeepsSafe(w, calls[0]);
      MarkerCoversProxy(calls[0].After(w), calls[1..]);
    }
  }

  /** A recovery at start that does not fail leaves neither proxy nor marker. */
  lemma RecoveryLeavesNeither(w: World, calls: seq<Call>, request: Request, io: Io)
    requires w.Safe() && forall call :: call in calls ==> call.Honestly()
    requires Recover(request, io, None).Honestly()
    requires Recover(request, io, None).TraceIn(AfterAll(w, calls)).outcome != Failed
    ensures Recover(request, io, None).After(AfterAll(w, calls)) == World(false, false, false)
  {
    var now := AfterAll(w, calls);
    MarkerCoversProxy(w, calls);
    if now.marker {
      ApplyAndClearSafe(now, request.(forceDisable := false, proxyType := ForcedClear), io);
    }
  }

  // -------------------------------------------------------------------- as it runs

  /** The marker and the desktop, with every state they have passed through. */
  class SystemProxyManager {
    var world: World
    ghost var visited: seq<World>

    constructor (world: World)
      ensures this.world == world && visited == [world]
    {
      this.world := world;
      visited := [world];
    }

    method Change(e: Effect)
      modifies this
      ensures world == Perform(old(world), e)
      ensures visited == old(visited) + [world]
    {
      world := Perform(world, e);
      visited := visited + [world];
    }

    method ChangeAll(effects: seq<Effect>)
      modifies this
      ensures world == PerformAll(old(world), effects)
      ensures visited == old(visited) + Visits(old(world), effects)
    {
      for i := 0 to |effects|
        invariant PerformAll(world, effects[i..]) == PerformAll(old(world), effects)
        invariant visited + Visits(world, effects[i..]) == old(visited) + Visits(old(world), effects)
      {
        assert effects[i..][1..] == effects[i + 1..];
        Change(effects[i]);
      }
    }

    method Apply(request: Request, io: Io) returns (outcome: Outcome)
      modifies this
      ensures outcome == ApplyAndClear(request, io).outcome
      ensures world == PerformAll(old(world), ApplyAndClear(request, io).effects)
      ensures visited == old(visited) + Visits(old(world), ApplyAndClear(request, io).effects)
    {
      var applied := ServiceApply(request, io);
      ChangeAll(applied.effects);
      if applied.outcome == Done(ForcedClear) {
        if !io.markerDropOk {
          return Failed;
        }
        VisitsAppend(old(world), applied.effects, [DropMarker]);
        Change(DropMarker);
      }
      return applied.outcome;
    }

    /** A write that fails may still have created the file. */
    method WriteDirtyMarker(io: Io) returns (ok: bool)
      modifies this
      ensures ok == io.markerWriteOk
      ensures ok || io.markerCreated ==> world == Perform(old(world), PutMarker) && visited == old(visited) + [world]
      ensures !ok && !io.markerCreated ==> world == old(world) && visited == old(visited)
    {
      if io.markerWriteOk || io.markerCreated {
        Change(PutMarker);
      }
      ok := io.markerWriteOk;
    }

    method MarkAndApply(request: Request, io: Io) returns (outcome: Outcome)
      modifies this
      ensures outcome == ApplyConfig(request, io).outcome
      ensures world == PerformAll(old(world), ApplyConfig(request, io).effects)
      ensures visited == old(visited) + Visits(old(world), ApplyConfig(request, io).effects)
    {
      if !io.dirsOk {
        return Failed;
      }
      if RequestSetsLocalProxy(request) {
        var written := WriteDirtyMarker(io);
        if !written {
          return Failed;
        }
        MarkedTrace(old(world), old(visited), request, io);
      }
      outcome := Apply(request, io);
    }

    /** Passes through exactly the states of the specification, all of them safe. */
    method ApplyConfiguration(request: Request, io: Io) returns (outcome: Outcome)
      requires world.Safe() && Honest(request, io)
      modifies this
      ensures outcome == ApplyConfig(request, io).outcome
      ensures world == PerformAll(old(world), ApplyConfig(request, io).effects)
      ensures old(visited) <= visited
      ensures forall n :: |old(visited)| <= n < |visited| ==> visited[n].Safe()
    {
      ghost var w := world;
      outcome := MarkAndApply(request, io);
      ApplyConfigSafe(w, request, io);
      VisitsSafe(w, ApplyConfig(request, io).effects);
    }

    method RestoreDirtyProxyIfNeeded(request: Request, io: Io) returns (r: Recovery)
      requires world.Safe() && Recover(request, io, None).Honestly()
      modifies this
      ensures world == Recover(request, io, None).After(old(world))
      ensures r != RecoveryFailed ==> r.needed == old(world.marker) && world == World(false, false, false)
    {
      if !world.marker {
        return Recovered(false);
      }
      var forced := request.(forceDisable := false, proxyType := ForcedClear);
      ApplyAndClearSafe(world, forced, io);
      if !io.dirsOk {
        return RecoveryFailed;
      }
      var outcome := Apply(forced, io);
      return if outcome == Failed then RecoveryFailed else Recovered(true);
    }
  }

  /** The states that a list of effects leads through. */
  ghost function Visits(w: World, effects: seq<Effect>): (r: seq<World>)
    ensures |r| == |effects|
    decreases |effects|
  {
    if effects == [] then []
    else [Perform(w, effects[0])] + Visits(Perform(w, effects[0]), effects[1..])
  }

  lemma {:induction false} VisitsAppend(w: World, a: seq<Effect>, b: seq<Effect>)
    ensures Visits(w, a + b) == Visits(w, a) + Visits(PerformAll(w, a), b)
    ensures PerformAll(w, a + b) == PerformAll(PerformAll(w, a), b)
    decreases |a|
  {
    if a == [] {
      assert a + b == b;
    } else {
      assert (a + b)[1..] == a[1..] + b;
      VisitsAppend(Perform(w, a[0]), a[1..], b);
    }
  }

  lemma MarkedVisits(w: World, before: seq<World>, rest: seq<Effect>)
    ensures var marked := Perform(w, PutMarker);
            && PerformAll(w, [PutMarker] + rest) == PerformAll(marked, rest)
            && before + Visits(w, [PutMarker] + rest) == before + [marked] + Visits(marked, rest)
  {
    assert ([PutMarker] + rest)[1..] == rest;
  }

  /** What is left to do, and to pass through, once the marker is written. */
  lemma MarkedTrace(w: World, before: seq<World>, request: Request, io: Io)
    requires io.dirsOk && RequestSetsLocalProxy(request) && io.markerWriteOk
    ensures var whole, rest, marked := ApplyConfig(request, io), ApplyAndClear(request, io), Perform(w, PutMarker);
            && whole.outcome == rest.outcome
            && PerformAll(w, whole.effects) == PerformAll(marked, rest.effects)
            && before + Visits(w, whole.effects) == before + [marked] + Visits(marked, rest.effects)
  {
    MarkedVisits(w, before, ApplyAndClear(request, io).effects);
  }

  lemma {:induction false} VisitsSafe(w: World, effects: seq<Effect>)
    requires AlwaysSafe(w, effects)
    ensures forall n :: 0 <= n < |effects| ==> Visits(w, effects)[n].Safe()
    decreases |effects|
  {
    if effects != [] {
      var next := Perform(w, effects[0]);
      forall n | 0 <= n <= |effects[1..]| ensures PerformAll(next, effects[1..][..n]).Safe() {
        assert effects[..n + 1][1..] == effects[1..][..n];
        assert PerformAll(w, effects[..n + 1]).Safe();
      }
      VisitsSafe(next, effects[1..]);
      assert effects[..1][1..] == [];
      assert effects[..1][0] == effects[0];
      assert next == PerformAll(w, effects[..1]);
      forall n | 0 <= n < |effects| ensures Visits(w, effects)[n].Safe() {
        if n > 0 {
          assert Visits(w, effects)[n] == Visits(next, effects[1..])[n - 1];
        }
      }
    }
  }
}
