/**
 * Calls to the system-proxy manager that overlap: the manager takes no lock, so effects of
 * several calls may mix in any order, and a crash may come between any two.
 */
module ProxyOverlap {
  import opened SystemProxy

  /** `mixed` takes its effects from the front of the calls, in any order; calls may be cut off. */
  ghost predicate Mixes(calls: seq<seq<Effect>>, mixed: seq<Effect>)
    decreases |mixed|
  {
    mixed == [] || exists i :: 0 <= i < |calls| && TakesFrom(calls, i, mixed[0]) && Mixes(Rest(calls, i), mixed[1..])
  }

  predicate TakesFrom(calls: seq<seq<Effect>>, i: nat, e: Effect) {
    i < |calls| && calls[i] != [] && calls[i][0] == e
  }

  /** What is left after call `i` has made its next effect. */
  function Rest(calls: seq<seq<Effect>>, i: nat): seq<seq<Effect>>
    requires i < |calls| && calls[i] != []
  {
    calls[i := calls[i][1..]]
  }

  predicate CanSet(request: Request) {
    request.valid && RequestSetsLocalProxy(request)
  }

  predicate CanClear(request: Request) {
    request.valid && request.os != Other && EffectiveType(request) == ForcedClear
  }

  /** The outside world's answers to the calls, one each. */
  ghost predicate Answers(requests: seq<Request>, ios: seq<Io>) {
    |ios| == |requests| && forall i :: 0 <= i < |requests| ==> Honest(requests[i], ios[i])
  }

  function EffectsOf(requests: seq<Request>, ios: seq<Io>): seq<seq<Effect>>
    requires |ios| == |requests|
  {
    seq(|requests|, i requires 0 <= i < |requests| => ApplyConfig(requests[i], ios[i]).effects)
  }

  /** However the calls mix and wherever they stop, a proxy that is set is marked. */
  ghost predicate OverlapsSafely(requests: seq<Request>) {
    forall w: World, ios, mixed ::
      w.Safe() && Answers(requests, ios) && Mixes(EffectsOf(requests, ios), mixed) ==> PerformAll(w, mixed).Safe()
  }

  // ------------------------------------------------------------ without a clearing call

  /** Nothing drops the marker, and what sets a proxy is marked or marks first. */
  ghost predicate MarksFirst(w: World, effects: seq<Effect>) {
    && (forall e :: e in effects ==> e != DropMarker)
    && (w.marker || (effects != [] && effects[0] == PutMarker) || forall e :: e in effects ==> !Sets(e))
  }

  lemma MarksFirstStep(w: World, calls: seq<seq<Effect>>, i: nat)
    requires w.Safe() && i < |calls| && calls[i] != []
    requires forall j :: 0 <= j < |calls| ==> MarksFirst(w, calls[j])
    ensures var next := Perform(w, calls[i][0]);
            next.Safe() && forall j :: 0 <= j < |calls| ==> MarksFirst(next, Rest(calls, i)[j])
  {
    var e, next := calls[i][0], Perform(w, calls[i][0]);
    assert e in calls[i] && MarksFirst(w, calls[i]);
    assert w.marker ==> next.marker;
    forall j | 0 <= j < |calls| ensures MarksFirst(next, Rest(calls, i)[j]) {
      assert MarksFirst(w, calls[j]);
      assert forall x :: x in Rest(calls, i)[j] ==> x in calls[j];
    }
  }

  lemma {:induction false} MarkingCallsMix(w: World, calls: seq<seq<Effect>>, mixed: seq<Effect>)
    requires w.Safe() && Mixes(calls, mixed)
    requires forall j :: 0 <= j < |calls| ==> MarksFirst(w, calls[j])
    ensures PerformAll(w, mixed).Safe()
    decreases |mixed|
  {
    if mixed != [] {
      var i :| 0 <= i < |calls| && TakesFrom(calls, i, mixed[0]) && Mixes(Rest(calls, i), mixed[1..]);
      MarksFirstStep(w, calls, i);
      MarkingCallsMix(Perform(w, mixed[0]), Rest(calls, i), mixed[1..]);
    }
  }

  // -------------------------------------------------------------- without a setting call

  /** Nothing sets a proxy, and what is still set is cleared before the marker is dropped. */
  ghost predicate ClearsFirst(w: World, effects: seq<Effect>) {
    && (forall e :: e in effects ==> !Sets(e))
    && forall k :: 0 <= k < |effects| && effects[k] == DropMarker ==>
         (w.enabled ==> SetEnabled(false) in effects[..k]) && (w.pac ==> SetPac(false) in effects[..k])
  }

  lemma InTail(effects: seq<Effect>, k: nat, e: Effect)
    requires 0 < k <= |effects| && e in effects[..k] && e != effects[0]
    ensures e in effects[1..][..k - 1]
  {
    var j :| 0 <= j < k && effects[j] == e;
    assert effects[1..][..k - 1][j - 1] == e;
  }

  lemma ClearsFirstTail(w: World, effects: seq<Effect>)
    requires effects != [] && ClearsFirst(w, effects)
    ensures ClearsFirst(Perform(w, effects[0]), effects[1..])
  {
    var next, tail := Perform(w, effects[0]), effects[1..];
    assert !Sets(effects[0]);
    forall k | 0 <= k < |tail| && tail[k] == DropMarker
      ensures (next.enabled ==> SetEnabled(false) in tail[..k]) && (next.pac ==> SetPac(false) in tail[..k])
    {
      assert effects[k + 1] == DropMarker;
      if next.enabled {
        InTail(effects, k + 1, SetEnabled(false));
      }
      if next.pac {
        InTail(effects, k + 1, SetPac(false));
      }
    }
  }

  lemma ClearsFirstOther(w: World, next: World, effects: seq<Effect>)
    requires ClearsFirst(w, effects) && (next.enabled ==> w.enabled) && (next.pac ==> w.pac)
    ensures ClearsFirst(next, effects)
  {
  }

  lemma ClearsFirstStep(w: World, calls: seq<seq<Effect>>, i: nat)
    requires w.Safe() && i < |calls| && calls[i] != []
    requires forall j :: 0 <= j < |calls| ==> ClearsFirst(w, calls[j])
    ensures var next := Perform(w, calls[i][0]);
            next.Safe() && forall j :: 0 <= j < |calls| ==> ClearsFirst(next, Rest(calls, i)[j])
  {
    var next := Perform(w, calls[i][0]);
    assert calls[i][0] in calls[i] && ClearsFirst(w, calls[i]);
    assert calls[i][..0] == [];
    forall j | 0 <= j < |calls| ensures ClearsFirst(next, Rest(calls, i)[j]) {
      if j == i {
        ClearsFirstTail(w, calls[i]);
      } else {
        ClearsFirstOther(w, next, calls[j]);
      }
    }
  }

  lemma {:induction false} ClearingCallsMix(w: World, calls: seq<seq<Effect>>, mixed: seq<Effect>)
    requires w.Safe() && Mixes(calls, mixed)
    requires forall j :: 0 <= j < |calls| ==> ClearsFirst(w, calls[j])
    ensures PerformAll(w, mixed).Safe()
    decreases |mixed|
  {
    if mixed != [] {
      var i :| 0 <= i < |calls| && TakesFrom(calls, i, mixed[0]) && Mixes(Rest(calls, i), mixed[1..]);
      ClearsFirstStep(w, calls, i);
      ClearingCallsMix(Perform(w, mixed[0]), Rest(calls, i), mixed[1..]);
    }
  }

  // ---------------------------------------------------------------------- single calls

  /** Only a call that can clear reports a cleared proxy. */
  lemma OnlyClearersReport(request: Request, io: Io)
    ensures ServiceApply(request, io).outcome == Done(ForcedClear) ==> CanClear(request)
  {
  }

  lemma NonClearingCallMarksFirst(w: World, request: Request, io: Io)
    requires Honest(request, io) && !CanClear(request)
    ensures MarksFirst(w, ApplyConfig(request, io).effects)
  {
    OnlyClearersReport(request, io);
    SetsOnlyWhenMarked(request, io);
    assert ApplyAndClear(request, io) == ServiceApply(request, io);
  }

  lemma InvalidSetsNothing(request: Request, io: Io)
    requires Honest(request, io) && !CanSet(request)
    ensures forall e :: e in ServiceApply(request, io).effects ==> !Sets(e) && e != DropMarker && e != PutMarker
  {
    if request.valid {
      SetsOnlyWhenMarked(request, io);
    }
  }

  /** A call that reports a cleared proxy has switched off both settings. */
  lemma ClearedSwitchesOff(request: Request, io: Io)
    requires ServiceApply(request, io).outcome == Done(ForcedClear)
    ensures SetEnabled(false) in ServiceApply(request, io).effects && SetPac(false) in ServiceApply(request, io).effects
  {
    var effects := ServiceApply(request, io).effects;
    match PlanFor(request)
    case Planned(Script(mode), _) =>
      assert effects[|io.script|] == SetEnabled(false) && effects[|io.script| + 1] == SetPac(false);
    case Planned(Commands(commands), _) =>
      assert Prefix(commands, io.commandsDone) == commands;
      assert effects[0] == SetEnabled(false) && effects[3] == SetPac(false);
    case _ =>
  }

  lemma ClearedThenDropped(w: World, effects: seq<Effect>)
    requires forall e :: e in effects ==> !Sets(e) && e != DropMarker
    requires SetEnabled(false) in effects && SetPac(false) in effects
    ensures ClearsFirst(w, effects + [DropMarker])
  {
    var all := effects + [DropMarker];
    assert all[..|effects|] == effects;
    assert forall k :: 0 <= k < |effects| ==> all[k] in effects;
    assert forall e :: e in all ==> e == DropMarker || e in effects;
  }

  lemma NeverDropped(w: World, effects: seq<Effect>)
    requires forall e :: e in effects ==> !Sets(e) && e != DropMarker
    ensures ClearsFirst(w, effects) && ClearsFirst(w, [PutMarker] + effects)
  {
    assert forall e :: e in [PutMarker] + effects ==> e == PutMarker || e in effects;
    assert forall k :: 0 <= k < |[PutMarker] + effects| ==> ([PutMarker] + effects)[k] in [PutMarker] + effects;
    assert forall k :: 0 <= k < |effects| ==> effects[k] in effects;
  }

  /** The shapes of a call that cannot set a proxy. */
  lemma NonSettingEffects(request: Request, io: Io)
    requires !CanSet(request)
    ensures var applied, effects := ServiceApply(request, io), ApplyConfig(request, io).effects;
            || effects == [] || effects == [PutMarker] || effects == applied.effects
            || effects == [PutMarker] + applied.effects
            || (effects == applied.effects + [DropMarker] && applied.outcome == Done(ForcedClear))
  {
    if request.valid {
      assert ApplyConfig(request, io).effects == [] || ApplyConfig(request, io) == ApplyAndClear(request, io);
    } else {
      assert ServiceApply(request, io) == Trace([], Failed);
    }
  }

  lemma NonSettingCallClearsFirst(w: World, request: Request, io: Io)
    requires Honest(request, io) && !CanSet(request)
    ensures ClearsFirst(w, ApplyConfig(request, io).effects)
  {
    var applied := ServiceApply(request, io);
    InvalidSetsNothing(request, io);
    NonSettingEffects(request, io);
    NeverDropped(w, []);
    NeverDropped(w, applied.effects);
    assert [PutMarker] + [] == [PutMarker];
    if applied.outcome == Done(ForcedClear) {
      ClearedSwitchesOff(request, io);
      ClearedThenDropped(w, applied.effects);
    }
  }

  // ------------------------------------------------------------------- a setting and a clearing call

  /** All goes well, and the scripts do no more than they were asked. */
  const SMOOTH: Io := Io(true, true, true, true, 4, [], true, true)

  lemma SmoothSetting(request: Request)
    requires CanSet(request)
    ensures Honest(request, SMOOTH)
    ensures ApplyConfig(request, SMOOTH).effects == [PutMarker] + ServiceApply(request, SMOOTH).effects
    ensures forall w :: PerformAll(w, ServiceApply(request, SMOOTH).effects).ProxySet()
  {
    forall w ensures PerformAll(w, ServiceApply(request, SMOOTH).effects).ProxySet() {
      MarkedRequestsSet(w, request, SMOOTH);
    }
  }

  lemma SmoothClearing(request: Request)
    requires CanClear(request)
    ensures Honest(request, SMOOTH)
    ensures ApplyConfig(request, SMOOTH).effects == ServiceApply(request, SMOOTH).effects + [DropMarker]
  {
  }

  lemma {:induction false} TakeAll(calls: seq<seq<Effect>>, i: nat, taken: seq<Effect>, left: seq<Effect>,
                                   mixed: seq<Effect>)
    requires i < |calls| && calls[i] == taken + left && Mixes(calls[i := left], mixed)
    ensures Mixes(calls, taken + mixed)
    decreases |taken|
  {
    if taken == [] {
      assert taken + left == left;
      assert calls[i := left] == calls && taken + mixed == mixed;
    } else {
      var rest := Rest(calls, i);
      assert rest[i] == taken[1..] + left && rest[i := left] == calls[i := left];
      TakeAll(rest, i, taken[1..], left, mixed);
      assert (taken + mixed)[1..] == taken[1..] + mixed;
      assert TakesFrom(calls, i, (taken + mixed)[0]);
    }
  }

  /** First the marker, then all of the clearing, then all of the setting, then the marker is dropped. */
  lemma BadMix(calls: seq<seq<Effect>>, s: nat, c: nat, setting: seq<Effect>, clearing: seq<Effect>)
    requires s < |calls| && c < |calls| && s != c
    requires calls[s] == [PutMarker] + setting && calls[c] == clearing + [DropMarker]
    ensures Mixes(calls, [PutMarker] + (clearing + (setting + ([DropMarker] + []))))
  {
    var calls1 := calls[s := setting];
    var calls2 := calls1[c := [DropMarker]];
    var calls3 := calls2[s := []];
    var calls4 := calls3[c := []];
    assert setting + [] == setting && [DropMarker] + [] == [DropMarker];
    assert Mixes(calls4, []);
    TakeAll(calls3, c, [DropMarker], [], []);
    TakeAll(calls2, s, setting, [], [DropMarker] + []);
    TakeAll(calls1, c, clearing, [DropMarker], setting + ([DropMarker] + []));
    TakeAll(calls, s, [PutMarker], setting, clearing + (setting + ([DropMarker] + [])));
  }

  lemma BadMixEnds(w: World, setting: seq<Effect>, clearing: seq<Effect>)
    requires forall v :: PerformAll(v, setting).ProxySet()
    ensures !PerformAll(w, [PutMarker] + (clearing + (setting + ([DropMarker] + [])))).Safe()
  {
    var marked := PerformAll(w, [PutMarker]);
    var cleared := PerformAll(marked, clearing);
    PerformAppend(w, [PutMarker], clearing + (setting + ([DropMarker] + [])));
    PerformAppend(marked, clearing, setting + ([DropMarker] + []));
    PerformAppend(cleared, setting, [DropMarker] + []);
    assert [DropMarker] + [] == [DropMarker] && [DropMarker][1..] == [];
  }

  /** A call that can set a proxy and one that can clear it are not safe together, whatever else runs. */
  lemma OverlappingCallsAreUnsafe(requests: seq<Request>, s: nat, c: nat)
    requires s < |requests| && c < |requests| && CanSet(requests[s]) && CanClear(requests[c])
    ensures !OverlapsSafely(requests)
  {
    var w, ios := World(false, false, false), seq(|requests|, i => SMOOTH);
    var setting, clearing := ServiceApply(requests[s], SMOOTH).effects, ServiceApply(requests[c], SMOOTH).effects;
    SmoothSetting(requests[s]);
    SmoothClearing(requests[c]);
    assert Answers(requests, ios);
    BadMix(EffectsOf(requests, ios), s, c, setting, clearing);
    BadMixEnds(w, setting, clearing);
  }

  /**
   * Any number of overlapping calls keep every set proxy marked, through every mixture of
   * their effects and every crash, if and only if they do not include both a call that can
   * set a proxy and one that can clear it.
   */
  lemma OverlapSafeExactly(requests: seq<Request>)
    ensures OverlapsSafely(requests)
            <==> !exists s, c :: 0 <= s < |requests| && 0 <= c < |requests| && CanSet(requests[s]) && CanClear(requests[c])
  {
    if s: nat, c: nat :| s < |requests| && c < |requests| && CanSet(requests[s]) && CanClear(requests[c]) {
      OverlappingCallsAreUnsafe(requests, s, c);
    } else {
      forall w: World, ios, mixed |
        w.Safe() && Answers(requests, ios) && Mixes(EffectsOf(requests, ios), mixed)
        ensures PerformAll(w, mixed).Safe()
      {
        OneSidedCallsMix(w, requests, ios, mixed);
      }
    }
  }

  lemma OneSidedCallsMix(w: World, requests: seq<Request>, ios: seq<Io>, mixed: seq<Effect>)
    requires w.Safe() && Answers(requests, ios) && Mixes(EffectsOf(requests, ios), mixed)
    requires (forall i :: 0 <= i < |requests| ==> !CanSet(requests[i]))
             || forall i :: 0 <= i < |requests| ==> !CanClear(requests[i])
    ensures PerformAll(w, mixed).Safe()
  {
    var calls := EffectsOf(requests, ios);
    if forall i :: 0 <= i < |requests| ==> !CanClear(requests[i]) {
      forall i | 0 <= i < |calls| ensures MarksFirst(w, calls[i]) {
        NonClearingCallMarksFirst(w, requests[i], ios[i]);
      }
      MarkingCallsMix(w, calls, mixed);
    } else {
      forall i | 0 <= i < |calls| ensures ClearsFirst(w, calls[i]) {
        NonSettingCallClearsFirst(w, requests[i], ios[i]);
      }
      ClearingCallsMix(w, calls, mixed);
    }
  }
}
