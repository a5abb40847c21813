/** What every step of the child-process runner keeps. */
module ReaperInvariant {
  import opened Text
  import opened ChildReaper

  /** Caller `i` has sent a stop to child `k` and has no reply yet. */
  predicate WaitsFor(s: State, i: nat, k: nat) {
    && i < |s.callers|
    && s.callers[i].pc == Awaiting
    && s.callers[i].reply == NoReply
    && s.callers[i].owned != []
    && s.callers[i].owned[0] == k
  }

  predicate GoneOrFailed(p: Proc) {
    p.os == Reaped || p.failed
  }

  /** A reaper ends by exactly one of answering a stop and reporting an exit. */
  predicate CountsOk(p: Proc) {
    && p.pc != Disconnected
    && (if p.pc == Finished then p.stopsHandled + p.exitsReported == 1 && GoneOrFailed(p)
        else p.stopsHandled == 0 && p.exitsReported == 0)
    && p.handlerCalls == (if p.hasHandler then p.exitsReported else 0)
    && (p.pc in {Removing, Locked, Notifying} ==> GoneOrFailed(p))
    && (p.pc.StopReply? ==> if p.pc.ok then p.os == Reaped else p.failed)
    && (p.pc.StopWait? ==> p.os != Running)
  }

  predicate InboxOk(s: State, k: nat)
    requires k < |s.procs|
  {
    var p := s.procs[k];
    && |p.inbox| <= 1
    && (p.inbox != [] ==> WaitsFor(s, p.inbox[0], k) && p.pc != Finished && !p.pc.Serving())
    && (p.pc.Serving() ==> WaitsFor(s, p.pc.caller, k) && p.inbox == [])
  }

  predicate ControlOk(s: State, k: nat)
    requires k < |s.procs|
  {
    var p := s.procs[k];
    match p.control
    case NotMade => p.pc == Unstarted
    case InTable =>
      && p.pid in s.table && s.table[p.pid] == k
      && p.inbox == [] && p.pc != Finished && p.pc != Notifying && !p.pc.Serving()
    case HeldBy(i) => i < |s.callers| && k in s.callers[i].owned
    case Dropped => p.pc in {Notifying, Finished}
  }

  predicate SpawnerOk(s: State, k: nat)
    requires k < |s.procs|
  {
    var p := s.procs[k];
    && p.spawner < |s.callers|
    && s.callers[p.spawner].call == Spawn(k)
    && (p.pc == Unstarted <==> s.callers[p.spawner].pc != Done)
    && (p.control == NotMade <==> s.callers[p.spawner].pc in {Want, Holding})
  }

  predicate ProcOk(s: State, k: nat)
    requires k < |s.procs|
  {
    && CountsOk(s.procs[k])
    && InboxOk(s, k)
    && ControlOk(s, k)
    && SpawnerOk(s, k)
    && (s.procs[k].pc == Locked <==> s.lock == Some(ByReaper(k)))
  }

  predicate OwnedOk(s: State, i: nat)
    requires i < |s.callers|
  {
    var c := s.callers[i];
    && (forall a :: 0 <= a < |c.owned| ==> c.owned[a] < |s.procs| && s.procs[c.owned[a]].control == HeldBy(i))
    && (forall a, b :: 0 <= a < b < |c.owned| ==> c.owned[a] != c.owned[b])
    && (c.owned != [] ==> c.pc in {Sending, Awaiting})
    && (forall k :: k in c.took ==> k < |s.procs| && (k in c.owned || s.procs[k].pc == Finished))
  }

  predicate CallerOk(s: State, i: nat)
    requires i < |s.callers|
  {
    var c := s.callers[i];
    && OwnedOk(s, i)
    && (c.pc == Holding <==> s.lock == Some(ByCaller(i)))
    && (c.pc != Awaiting ==> c.reply == NoReply)
    && (c.pc == Awaiting ==>
          && c.owned != []
          && if c.reply == NoReply then
               s.procs[c.owned[0]].inbox == [i] || s.procs[c.owned[0]].pc.Serves(i)
             else s.procs[c.owned[0]].pc == Finished)
    && (c.call.Spawn? ==>
          && c.call.child < |s.procs| && s.procs[c.call.child].spawner == i
          && c.pc in {Want, Holding, Launching, Done})
    && (!c.call.Spawn? ==> c.pc != Launching)
  }

  predicate TableOk(s: State) {
    forall pid :: pid in s.table ==>
      s.table[pid] < |s.procs| && s.procs[s.table[pid]].pid == pid && s.procs[s.table[pid]].control == InTable
  }

  predicate PidsDistinct(s: State) {
    forall j, k :: 0 <= j < k < |s.procs| && s.procs[j].pc != Finished && s.procs[k].pc != Finished
                   ==> s.procs[j].pid != s.procs[k].pid
  }

  predicate LockOk(s: State) {
    match s.lock
    case None => true
    case Some(ByCaller(i)) => i < |s.callers|
    case Some(ByReaper(k)) => k < |s.procs|
  }

  predicate DropOk(s: State) {
    match s.dropper
    case None => forall i :: 0 <= i < |s.callers| ==> !s.callers[i].call.DropRunner?
    case Some(d) =>
      && d < |s.callers|
      && s.callers[d].call == DropRunner
      && (forall i :: 0 <= i < |s.callers| && i != d ==> s.callers[i].pc == Done)
      && (s.callers[d].pc !in {Want, Holding} ==> s.table == map[])
  }

  ghost predicate Inv(s: State) {
    && (forall k :: 0 <= k < |s.procs| ==> ProcOk(s, k))
    && (forall i :: 0 <= i < |s.callers| ==> CallerOk(s, i))
    && TableOk(s)
    && PidsDistinct(s)
    && LockOk(s)
    && DropOk(s)
  }

  lemma InitOk()
    ensures Inv(INIT)
  {
  }

  /** A step of one reaper that changes neither its channel, its pid nor its place in the protocol. */
  ghost predicate LocalChange(s: State, k: nat, p: Proc)
    requires k < |s.procs|
  {
    var q := s.procs[k];
    && p == q.(os := p.os, pc := p.pc, failed := p.failed)
    && CountsOk(p)
    && p.pc != Finished && q.pc != Finished
    && (p.pc == Unstarted <==> q.pc == Unstarted)
    && (p.pc == Locked <==> q.pc == Locked)
    && p.pc.Serving() == q.pc.Serving()
    && (p.pc.Serving() ==> p.pc.caller == q.pc.caller)
    && (q.control == InTable ==> p.pc != Notifying)
    && (q.control == Dropped ==> p.pc == Notifying)
  }

  lemma LocalProcs(s: State, k: nat, p: Proc)
    requires Inv(s) && k < |s.procs| && LocalChange(s, k, p)
    ensures forall j :: 0 <= j < |s.procs| ==> ProcOk(SetProc(s, k, p), j)
  {
    assert ProcOk(s, k);
    forall j | 0 <= j < |s.procs| ensures ProcOk(SetProc(s, k, p), j) {
      assert ProcOk(s, j);
    }
  }

  lemma LocalCallers(s: State, k: nat, p: Proc)
    requires Inv(s) && k < |s.procs| && LocalChange(s, k, p)
    ensures forall i :: 0 <= i < |s.callers| ==> CallerOk(SetProc(s, k, p), i)
  {
    assert ProcOk(s, k);
    forall i | 0 <= i < |s.callers| ensures CallerOk(SetProc(s, k, p), i) {
      assert CallerOk(s, i);
    }
  }

  lemma KeepsLocal(s: State, k: nat, p: Proc)
    requires Inv(s) && k < |s.procs| && LocalChange(s, k, p)
    ensures Inv(SetProc(s, k, p))
  {
    LocalProcs(s, k, p);
    LocalCallers(s, k, p);
    assert TableOk(SetProc(s, k, p));
    assert PidsDistinct(SetProc(s, k, p));
  }

  lemma KeepsTimeout(s: State, e: Step)
    requires Inv(s) && Enabled(s, e) && e.Timeout?
    ensures Inv(Do(s, e))
  {
    assert ProcOk(s, e.k);
    KeepsLocal(s, e.k, Do(s, e).procs[e.k]);
  }

  lemma KeepsTryWait(s: State, e: Step)
    requires Inv(s) && Enabled(s, e) && e.TryWait?
    ensures Inv(Do(s, e))
  {
    assert ProcOk(s, e.k);
    KeepsLocal(s, e.k, Do(s, e).procs[e.k]);
  }

  lemma KeepsUpgradeFails(s: State, e: Step)
    requires Inv(s) && Enabled(s, e) && e.UpgradeFails?
    ensures Inv(Do(s, e))
  {
    assert ProcOk(s, e.k);
    KeepsLocal(s, e.k, Do(s, e).procs[e.k]);
  }

  lemma KeepsStopChild(s: State, e: Step)
    requires Inv(s) && Enabled(s, e) && e.StopChild?
    ensures Inv(Do(s, e))
  {
    var p := StopChildStep(s.procs[e.k], e.error);
    assert ProcOk(s, e.k);
    assert CountsOk(p);
    assert LocalChange(s, e.k, p);
    KeepsLocal(s, e.k, p);
  }

  /** Child `k0` has exited by itself. */
  predicate HasExited(s: State, t: State, k0: nat) {
    && k0 < |s.procs| && s.procs[k0].os == Running
    && t == SetProc(s, k0, s.procs[k0].(os := Exited))
  }

  lemma ChildExitProcs(s: State, t: State, k0: nat)
    requires Inv(s) && HasExited(s, t, k0)
    ensures forall k :: 0 <= k < |t.procs| ==> ProcOk(t, k)
  {
    assert ProcOk(s, k0);
    forall k | 0 <= k < |t.procs| ensures ProcOk(t, k) {
      assert ProcOk(s, k);
    }
  }

  lemma ChildExitCallers(s: State, t: State, k0: nat)
    requires Inv(s) && HasExited(s, t, k0)
    ensures forall i :: 0 <= i < |t.callers| ==> CallerOk(t, i)
  {
    assert ProcOk(s, k0);
    forall i | 0 <= i < |t.callers| ensures CallerOk(t, i) {
      assert CallerOk(s, i);
    }
  }

  lemma ChildExit(s: State, t: State, k0: nat)
    requires Inv(s) && HasExited(s, t, k0)
    ensures Inv(t)
  {
    assert ProcOk(s, k0);
    ChildExitProcs(s, t, k0);
    ChildExitCallers(s, t, k0);
    assert TableOk(t);
    assert PidsDistinct(t);
  }

  lemma KeepsChildExits(s: State, e: Step)
    requires Inv(s) && Enabled(s, e) && e.ChildExits?
    ensures Inv(Do(s, e))
  {
    ChildExit(s, Do(s, e), e.k);
  }

  lemma KeepsBeginSpawn(s: State, e: Step)
    requires Inv(s) && Enabled(s, e) && e.BeginSpawn?
    ensures Inv(Do(s, e))
  {
    var t := Do(s, e);
    forall k | 0 <= k < |t.procs| ensures ProcOk(t, k) {
      assert k < |s.procs| ==> ProcOk(s, k);
    }
    forall i | 0 <= i < |t.callers| ensures CallerOk(t, i) {
      assert i < |s.callers| ==> CallerOk(s, i);
    }
    assert TableOk(t);
    assert PidsDistinct(t);
  }

  lemma KeepsBeginStop(s: State, e: Step)
    requires Inv(s) && Enabled(s, e) && e.BeginStop?
    ensures Inv(Do(s, e))
  {
    var t := Do(s, e);
    forall k | 0 <= k < |t.procs| ensures ProcOk(t, k) {
      assert k < |s.procs| ==> ProcOk(s, k);
    }
    forall i | 0 <= i < |t.callers| ensures CallerOk(t, i) {
      assert i < |s.callers| ==> CallerOk(s, i);
    }
    assert TableOk(t);
    assert PidsDistinct(t);
  }

  lemma KeepsBeginDrop(s: State, e: Step)
    requires Inv(s) && Enabled(s, e) && e.BeginDrop?
    ensures Inv(Do(s, e))
  {
    var t := Do(s, e);
    forall k | 0 <= k < |t.procs| ensures ProcOk(t, k) {
      assert k < |s.procs| ==> ProcOk(s, k);
    }
    forall i | 0 <= i < |t.callers| ensures CallerOk(t, i) {
      assert i < |s.callers| ==> CallerOk(s, i);
    }
    assert TableOk(t);
    assert PidsDistinct(t);
  }

  lemma KeepsAcquire(s: State, e: Step)
    requires Inv(s) && Enabled(s, e) && e.Acquire?
    ensures Inv(Do(s, e))
  {
    var t := Do(s, e);
    assert CallerOk(s, e.i);
    forall k | 0 <= k < |t.procs| ensures ProcOk(t, k) {
      assert k < |s.procs| ==> ProcOk(s, k);
    }
    forall i | 0 <= i < |t.callers| ensures CallerOk(t, i) {
      assert i < |s.callers| ==> CallerOk(s, i);
    }
    assert TableOk(t);
    assert PidsDistinct(t);
  }

  lemma KeepsReturn(s: State, e: Step)
    requires Inv(s) && Enabled(s, e) && e.Return?
    ensures Inv(Do(s, e))
  {
    var t := Do(s, e);
    assert CallerOk(s, e.i);
    forall k | 0 <= k < |t.procs| ensures ProcOk(t, k) {
      assert k < |s.procs| ==> ProcOk(s, k);
    }
    forall i | 0 <= i < |t.callers| ensures CallerOk(t, i) {
      assert i < |s.callers| ==> CallerOk(s, i);
    }
    assert TableOk(t);
    assert PidsDistinct(t);
  }

  /** The reaper of `k0` has taken the stop of caller `w` out of its channel. */
  predicate BeginsStopping(s: State, t: State, k0: nat, w: nat) {
    && k0 < |s.procs| && s.procs[k0].pc == Polling && s.procs[k0].inbox == [w]
    && t == SetProc(s, k0, s.procs[k0].(pc := StopCheck(w), inbox := []))
  }

  lemma BeginStoppingProcs(s: State, t: State, k0: nat, w: nat)
    requires Inv(s) && BeginsStopping(s, t, k0, w)
    ensures forall k :: 0 <= k < |t.procs| ==> ProcOk(t, k)
  {
    assert ProcOk(s, k0);
    forall k | 0 <= k < |t.procs| ensures ProcOk(t, k) {
      assert ProcOk(s, k);
    }
  }

  lemma BeginStoppingCallers(s: State, t: State, k0: nat, w: nat)
    requires Inv(s) && BeginsStopping(s, t, k0, w)
    ensures forall i :: 0 <= i < |t.callers| ==> CallerOk(t, i)
  {
    assert ProcOk(s, k0);
    forall i | 0 <= i < |t.callers| ensures CallerOk(t, i) {
      assert CallerOk(s, i);
    }
  }

  lemma BeginStopping(s: State, t: State, k0: nat, w: nat)
    requires Inv(s) && BeginsStopping(s, t, k0, w)
    ensures Inv(t)
  {
    assert ProcOk(s, k0);
    BeginStoppingProcs(s, t, k0, w);
    BeginStoppingCallers(s, t, k0, w);
    assert TableOk(t);
    assert PidsDistinct(t);
  }

  lemma KeepsTakeStop(s: State, e: Step)
    requires Inv(s) && Enabled(s, e) && e.TakeStop?
    ensures Inv(Do(s, e))
  {
    var inbox := s.procs[e.k].inbox;
    assert ProcOk(s, e.k);
    assert inbox == [inbox[0]] && inbox[1..] == [];
    BeginStopping(s, Do(s, e), e.k, inbox[0]);
  }

  /** The sender of a polling reaper's channel is never gone. */
  lemma NeverDisconnected(s: State, k: nat)
    requires Inv(s)
    ensures !Enabled(s, SeeDisconnected(k))
  {
    assert k < |s.procs| ==> ProcOk(s, k);
  }

  lemma KeepsLaunchProcs(s: State, e: Step)
    requires Inv(s) && Enabled(s, e) && e.Launch?
    ensures var t := Do(s, e); forall k :: 0 <= k < |t.procs| ==> ProcOk(t, k)
  {
    var t := Do(s, e);
    assert CallerOk(s, e.i);
    assert ProcOk(s, s.callers[e.i].call.child);
    forall k | 0 <= k < |t.procs| ensures ProcOk(t, k) {
      assert ProcOk(s, k);
    }
  }

  lemma KeepsLaunchCallers(s: State, e: Step)
    requires Inv(s) && Enabled(s, e) && e.Launch?
    ensures var t := Do(s, e); forall i :: 0 <= i < |t.callers| ==> CallerOk(t, i)
  {
    var t := Do(s, e);
    assert CallerOk(s, e.i);
    assert ProcOk(s, s.callers[e.i].call.child);
    forall i | 0 <= i < |t.callers| ensures CallerOk(t, i) {
      assert CallerOk(s, i);
    }
  }

  lemma KeepsLaunch(s: State, e: Step)
    requires Inv(s) && Enabled(s, e) && e.Launch?
    ensures Inv(Do(s, e))
  {
    var t := Do(s, e);
    assert CallerOk(s, e.i);
    assert ProcOk(s, s.callers[e.i].call.child);
    KeepsLaunchProcs(s, e);
    KeepsLaunchCallers(s, e);
    assert TableOk(t);
    assert PidsDistinct(t);
  }

  /** Before a stop is sent the child's channel is empty and its reaper serves nobody. */
  lemma SendFacts(s: State, i: nat)
    requires Inv(s) && i < |s.callers| && s.callers[i].pc == Sending && s.callers[i].owned != []
    ensures var k := s.callers[i].owned[0];
            && k < |s.procs| && s.procs[k].control == HeldBy(i)
            && s.procs[k].inbox == [] && !s.procs[k].pc.Serving()
            && forall b :: 1 <= b < |s.callers[i].owned| ==> s.callers[i].owned[b] != k
  {
    var k := s.callers[i].owned[0];
    assert CallerOk(s, i);
    assert ProcOk(s, k);
    assert s.procs[k].inbox != [] ==> CallerOk(s, s.procs[k].inbox[0]);
    assert s.procs[k].pc.Serving() ==> CallerOk(s, s.procs[k].pc.caller);
  }

  /** The next stop of caller `i` finds the receiver of child `k0` gone. */
  predicate SendsLate(s: State, t: State, i: nat, k0: nat) {
    && i < |s.callers| && s.callers[i].pc == Sending && s.callers[i].owned != []
    && k0 == s.callers[i].owned[0] && k0 < |s.procs| && s.procs[k0].pc == Finished
    && t == SetCaller(SetProc(s, k0, s.procs[k0].(control := Dropped)), i,
                      s.callers[i].(owned := s.callers[i].owned[1..],
                                    answers := s.callers[i].answers[k0 := ChannelClosed]))
  }

  lemma SendLateProcs(s: State, t: State, i: nat, k0: nat)
    requires Inv(s) && SendsLate(s, t, i, k0)
    ensures forall k :: 0 <= k < |t.procs| ==> ProcOk(t, k)
  {
    SendFacts(s, i);
    assert CallerOk(s, i);
    assert ProcOk(s, k0);
    forall k | 0 <= k < |t.procs| ensures ProcOk(t, k) {
      assert ProcOk(s, k);
    }
  }

  lemma SendLateOwned(s: State, t: State, i: nat, k0: nat)
    requires Inv(s) && SendsLate(s, t, i, k0)
    ensures forall i :: 0 <= i < |t.callers| ==> OwnedOk(t, i)
  {
    SendFacts(s, i);
    assert CallerOk(s, i);
    assert ProcOk(s, k0);
    forall i | 0 <= i < |t.callers| ensures OwnedOk(t, i) {
      assert CallerOk(s, i);
    }
  }

  lemma SendLateCallers(s: State, t: State, i: nat, k0: nat)
    requires Inv(s) && SendsLate(s, t, i, k0)
    ensures forall i :: 0 <= i < |t.callers| ==> CallerOk(t, i)
  {
    SendFacts(s, i);
    assert CallerOk(s, i);
    assert ProcOk(s, k0);
    SendLateOwned(s, t, i, k0);
    forall i | 0 <= i < |t.callers| ensures CallerOk(t, i) {
      assert CallerOk(s, i);
    }
  }

  lemma SendLate(s: State, t: State, i: nat, k0: nat)
    requires Inv(s) && SendsLate(s, t, i, k0)
    ensures Inv(t)
  {
    SendFacts(s, i);
    assert CallerOk(s, i);
    assert ProcOk(s, k0);
    SendLateProcs(s, t, i, k0);
    SendLateCallers(s, t, i, k0);
    assert TableOk(t);
    assert PidsDistinct(t);
  }

  /** The next stop of caller `i` enters the empty channel of child `k0`. */
  predicate SendsInTime(s: State, t: State, i: nat, k0: nat) {
    && i < |s.callers| && s.callers[i].pc == Sending && s.callers[i].owned != []
    && k0 == s.callers[i].owned[0] && k0 < |s.procs| && s.procs[k0].pc != Finished && s.procs[k0].inbox == []
    && t == SetCaller(SetProc(s, k0, s.procs[k0].(inbox := [i])), i, s.callers[i].(pc := Awaiting))
  }

  lemma SendInTimeProcs(s: State, t: State, i: nat, k0: nat)
    requires Inv(s) && SendsInTime(s, t, i, k0)
    ensures forall k :: 0 <= k < |t.procs| ==> ProcOk(t, k)
  {
    SendFacts(s, i);
    assert CallerOk(s, i);
    assert ProcOk(s, k0);
    forall k | 0 <= k < |t.procs| ensures ProcOk(t, k) {
      assert ProcOk(s, k);
    }
  }

  lemma SendInTimeCallers(s: State, t: State, i: nat, k0: nat)
    requires Inv(s) && SendsInTime(s, t, i, k0)
    ensures forall i :: 0 <= i < |t.callers| ==> CallerOk(t, i)
  {
    SendFacts(s, i);
    assert CallerOk(s, i);
    assert ProcOk(s, k0);
    forall i | 0 <= i < |t.callers| ensures CallerOk(t, i) {
      assert CallerOk(s, i);
    }
  }

  lemma SendInTime(s: State, t: State, i: nat, k0: nat)
    requires Inv(s) && SendsInTime(s, t, i, k0)
    ensures Inv(t)
  {
    SendFacts(s, i);
    assert CallerOk(s, i);
    assert ProcOk(s, k0);
    SendInTimeProcs(s, t, i, k0);
    SendInTimeCallers(s, t, i, k0);
    assert TableOk(t);
    assert PidsDistinct(t);
  }

  lemma KeepsSend(s: State, e: Step)
    requires Inv(s) && Enabled(s, e) && e.Send?
    ensures Inv(Do(s, e))
  {
    var k := s.callers[e.i].owned[0];
    SendFacts(s, e.i);
    if s.procs[k].pc == Finished {
      SendLate(s, Do(s, e), e.i, k);
    } else {
      assert s.procs[k].inbox + [e.i] == [e.i];
      SendInTime(s, Do(s, e), e.i, k);
    }
  }

  /** Caller `i` has its reply, and lets the control of child `k0` go. */
  predicate ReceivesReply(s: State, t: State, i: nat, k0: nat) {
    && i < |s.callers| && s.callers[i].pc == Awaiting && s.callers[i].reply != NoReply
    && s.callers[i].owned != [] && k0 == s.callers[i].owned[0] && k0 < |s.procs|
    && t == SetCaller(SetProc(s, k0, s.procs[k0].(control := Dropped)), i,
                      s.callers[i].(pc := Sending, owned := s.callers[i].owned[1..], reply := NoReply,
                                    answers := s.callers[i].answers[k0 := s.callers[i].reply]))
  }

  lemma ReceiveReplyProcs(s: State, t: State, i: nat, k0: nat)
    requires Inv(s) && ReceivesReply(s, t, i, k0)
    ensures forall k :: 0 <= k < |t.procs| ==> ProcOk(t, k)
  {
    assert CallerOk(s, i);
    assert ProcOk(s, k0);
    forall k | 0 <= k < |t.procs| ensures ProcOk(t, k) {
      assert ProcOk(s, k);
    }
  }

  lemma ReceiveReplyOwned(s: State, t: State, i: nat, k0: nat)
    requires Inv(s) && ReceivesReply(s, t, i, k0)
    ensures forall i :: 0 <= i < |t.callers| ==> OwnedOk(t, i)
  {
    assert CallerOk(s, i);
    assert ProcOk(s, k0);
    forall i | 0 <= i < |t.callers| ensures OwnedOk(t, i) {
      assert CallerOk(s, i);
    }
  }

  lemma ReceiveReplyCallers(s: State, t: State, i: nat, k0: nat)
    requires Inv(s) && ReceivesReply(s, t, i, k0)
    ensures forall i :: 0 <= i < |t.callers| ==> CallerOk(t, i)
  {
    assert CallerOk(s, i);
    assert ProcOk(s, k0);
    ReceiveReplyOwned(s, t, i, k0);
    forall i | 0 <= i < |t.callers| ensures CallerOk(t, i) {
      assert CallerOk(s, i);
    }
  }

  lemma ReceiveReply(s: State, t: State, i: nat, k0: nat)
    requires Inv(s) && ReceivesReply(s, t, i, k0)
    ensures Inv(t)
  {
    assert CallerOk(s, i);
    assert ProcOk(s, k0);
    ReceiveReplyProcs(s, t, i, k0);
    ReceiveReplyCallers(s, t, i, k0);
    assert TableOk(t);
    assert PidsDistinct(t);
  }

  lemma KeepsReceive(s: State, e: Step)
    requires Inv(s) && Enabled(s, e) && e.Receive?
    ensures Inv(Do(s, e))
  {
    assert CallerOk(s, e.i);
    ReceiveReply(s, Do(s, e), e.i, s.callers[e.i].owned[0]);
  }

  lemma KeepsReaperAcquireProcs(s: State, e: Step)
    requires Inv(s) && Enabled(s, e) && e.ReaperAcquire?
    ensures var t := Do(s, e); forall k :: 0 <= k < |t.procs| ==> ProcOk(t, k)
  {
    var t := Do(s, e);
    assert ProcOk(s, e.k);
    forall k | 0 <= k < |t.procs| ensures ProcOk(t, k) {
      assert ProcOk(s, k);
    }
  }

  lemma KeepsReaperAcquireCallers(s: State, e: Step)
    requires Inv(s) && Enabled(s, e) && e.ReaperAcquire?
    ensures var t := Do(s, e); forall i :: 0 <= i < |t.callers| ==> CallerOk(t, i)
  {
    var t := Do(s, e);
    assert ProcOk(s, e.k);
    forall i | 0 <= i < |t.callers| ensures CallerOk(t, i) {
      assert CallerOk(s, i);
    }
  }

  lemma KeepsReaperAcquire(s: State, e: Step)
    requires Inv(s) && Enabled(s, e) && e.ReaperAcquire?
    ensures Inv(Do(s, e))
  {
    var t := Do(s, e);
    assert ProcOk(s, e.k);
    KeepsReaperAcquireProcs(s, e);
    KeepsReaperAcquireCallers(s, e);
    assert TableOk(t);
    assert PidsDistinct(t);
  }

  /** An unfinished child's pid can only name its own entry. */
  lemma OwnEntry(s: State, k: nat)
    requires Inv(s) && k < |s.procs| && s.procs[k].pc != Finished
    ensures s.procs[k].pid in s.table ==> s.table[s.procs[k].pid] == k && s.procs[k].control == InTable
  {
    var pid := s.procs[k].pid;
    if pid in s.table {
      assert ProcOk(s, s.table[pid]);
    }
  }

  /** The reaper of `k0`, as `q`, has removed the entry of its pid. */
  predicate RemovesEntry(s: State, t: State, k0: nat, q: Proc) {
    && k0 < |s.procs| && s.procs[k0].pc == Locked
    && q == s.procs[k0].(pc := Notifying,
                         control := if s.procs[k0].control == InTable then Dropped else s.procs[k0].control)
    && t == s.(procs := s.procs[k0 := q], table := s.table - {q.pid}, lock := None)
  }

  lemma RemoveEntryProcs(s: State, t: State, k0: nat, q: Proc)
    requires Inv(s) && RemovesEntry(s, t, k0, q)
    ensures forall k :: 0 <= k < |t.procs| ==> ProcOk(t, k)
  {
    assert ProcOk(s, k0);
    OwnEntry(s, k0);
    forall k | 0 <= k < |t.procs| ensures ProcOk(t, k) {
      assert ProcOk(s, k);
    }
  }

  lemma RemoveEntryCallers(s: State, t: State, k0: nat, q: Proc)
    requires Inv(s) && RemovesEntry(s, t, k0, q)
    ensures forall i :: 0 <= i < |t.callers| ==> CallerOk(t, i)
  {
    assert ProcOk(s, k0);
    OwnEntry(s, k0);
    forall i | 0 <= i < |t.callers| ensures CallerOk(t, i) {
      assert CallerOk(s, i);
    }
  }

  lemma RemoveEntry(s: State, t: State, k0: nat, q: Proc)
    requires Inv(s) && RemovesEntry(s, t, k0, q)
    ensures Inv(t)
  {
    assert ProcOk(s, k0);
    OwnEntry(s, k0);
    RemoveEntryProcs(s, t, k0, q);
    RemoveEntryCallers(s, t, k0, q);
    assert TableOk(t);
    assert PidsDistinct(t);
  }

  lemma KeepsReaperRemove(s: State, e: Step)
    requires Inv(s) && Enabled(s, e) && e.ReaperRemove?
    ensures Inv(Do(s, e))
  {
    var p := s.procs[e.k];
    var q := p.(pc := Notifying, control := if p.control == InTable then Dropped else p.control);
    assert ProcOk(s, e.k);
    OwnEntry(s, e.k);
    assert EntryOf(s, p.pid) == if p.control == InTable then {e.k} else {};
    assert Do(s, e).procs == s.procs[e.k := q];
    RemoveEntry(s, Do(s, e), e.k, q);
  }

  /** `q` is the reaper of `k0` at its end; only its counters and its channel have changed. */
  predicate CanFinish(s: State, k0: nat, q: Proc) {
    && k0 < |s.procs| && CountsOk(q)
    && q == s.procs[k0].(pc := Finished, inbox := [], handlerCalls := q.handlerCalls,
                         stopsHandled := q.stopsHandled, exitsReported := q.exitsReported)
    && s.procs[k0].pc !in {Unstarted, Polling, Checking, Locked, Finished} && s.procs[k0].control != InTable
  }

  /** The reaper of `k0` ends, as `q`, with nobody waiting for it. */
  predicate FinishesAlone(s: State, t: State, k0: nat, q: Proc) {
    && CanFinish(s, k0, q)
    && s.procs[k0].inbox == [] && !s.procs[k0].pc.Serving()
    && t == SetProc(s, k0, q)
  }

  lemma FinishAloneProcs(s: State, t: State, k0: nat, q: Proc)
    requires Inv(s) && FinishesAlone(s, t, k0, q)
    ensures forall k :: 0 <= k < |t.procs| ==> ProcOk(t, k)
  {
    assert ProcOk(s, k0);
    forall k | 0 <= k < |t.procs| ensures ProcOk(t, k) {
      assert ProcOk(s, k);
    }
  }

  lemma FinishAloneCallers(s: State, t: State, k0: nat, q: Proc)
    requires Inv(s) && FinishesAlone(s, t, k0, q)
    ensures forall i :: 0 <= i < |t.callers| ==> CallerOk(t, i)
  {
    assert ProcOk(s, k0);
    forall i | 0 <= i < |t.callers| ensures CallerOk(t, i) {
      assert CallerOk(s, i);
    }
  }

  lemma FinishAlone(s: State, t: State, k0: nat, q: Proc)
    requires Inv(s) && FinishesAlone(s, t, k0, q)
    ensures Inv(t)
  {
    assert ProcOk(s, k0);
    FinishAloneProcs(s, t, k0, q);
    FinishAloneCallers(s, t, k0, q);
    assert TableOk(t);
    assert PidsDistinct(t);
  }

  /** The reaper of `k0` ends, as `q`, and caller `w` gets `r`. */
  predicate FinishesFor(s: State, t: State, k0: nat, q: Proc, w: nat, r: Reply) {
    && CanFinish(s, k0, q) && r != NoReply
    && w < |s.callers| && (s.procs[k0].inbox == [w] || s.procs[k0].pc.Serves(w))
    && t == SetCaller(SetProc(s, k0, q), w, s.callers[w].(reply := r))
  }

  lemma FinishForProcs(s: State, t: State, k0: nat, q: Proc, w: nat, r: Reply)
    requires Inv(s) && FinishesFor(s, t, k0, q, w, r)
    ensures forall k :: 0 <= k < |t.procs| ==> ProcOk(t, k)
  {
    assert ProcOk(s, k0);
    assert CallerOk(s, w);
    assert s.procs[k0].control == HeldBy(w) && s.callers[w].owned[0] == k0;
    forall k | 0 <= k < |t.procs| ensures ProcOk(t, k) {
      assert ProcOk(s, k);
    }
  }

  lemma FinishForOwned(s: State, t: State, k0: nat, q: Proc, w: nat, r: Reply)
    requires Inv(s) && FinishesFor(s, t, k0, q, w, r)
    ensures forall i :: 0 <= i < |t.callers| ==> OwnedOk(t, i)
  {
    assert ProcOk(s, k0);
    assert CallerOk(s, w);
    assert s.procs[k0].control == HeldBy(w) && s.callers[w].owned[0] == k0;
    forall i | 0 <= i < |t.callers| ensures OwnedOk(t, i) {
      assert CallerOk(s, i);
    }
  }

  lemma FinishForCallers(s: State, t: State, k0: nat, q: Proc, w: nat, r: Reply)
    requires Inv(s) && FinishesFor(s, t, k0, q, w, r)
    ensures forall i :: 0 <= i < |t.callers| ==> CallerOk(t, i)
  {
    assert ProcOk(s, k0);
    assert CallerOk(s, w);
    assert s.procs[k0].control == HeldBy(w) && s.callers[w].owned[0] == k0;
    FinishForOwned(s, t, k0, q, w, r);
    forall i | 0 <= i < |t.callers| ensures CallerOk(t, i) {
      assert CallerOk(s, i);
    }
  }

  lemma FinishFor(s: State, t: State, k0: nat, q: Proc, w: nat, r: Reply)
    requires Inv(s) && FinishesFor(s, t, k0, q, w, r)
    ensures Inv(t)
  {
    assert ProcOk(s, k0);
    assert CallerOk(s, w);
    assert s.procs[k0].control == HeldBy(w) && s.callers[w].owned[0] == k0;
    FinishForProcs(s, t, k0, q, w, r);
    FinishForCallers(s, t, k0, q, w, r);
    assert TableOk(t);
    assert PidsDistinct(t);
  }

  lemma KeepsNotify(s: State, e: Step)
    requires Inv(s) && Enabled(s, e) && e.Notify?
    ensures Inv(Do(s, e))
  {
    var p, t := s.procs[e.k], Do(s, e);
    assert ProcOk(s, e.k);
    if p.inbox == [] {
      assert t.callers == s.callers;
      FinishAlone(s, t, e.k, t.procs[e.k]);
    } else {
      var w := p.inbox[0];
      assert p.inbox == [w];
      assert t.callers == s.callers[w := s.callers[w].(reply := ChannelClosed)];
      FinishFor(s, t, e.k, t.procs[e.k], w, ChannelClosed);
    }
  }

  lemma KeepsSendReply(s: State, e: Step)
    requires Inv(s) && Enabled(s, e) && e.SendReply?
    ensures Inv(Do(s, e))
  {
    var p, t := s.procs[e.k], Do(s, e);
    assert ProcOk(s, e.k);
    var w := p.pc.caller;
    assert t.callers == s.callers[w := s.callers[w].(reply := Answered(p.pc.ok))];
    FinishFor(s, t, e.k, t.procs[e.k], w, Answered(p.pc.ok));
  }

  /** The spawn by caller `i` has put child `k0` in the table. */
  predicate InsertsEntry(s: State, t: State, i: nat, k0: nat) {
    && i < |s.callers| && s.callers[i].pc == Holding && s.callers[i].call == Spawn(k0)
    && k0 < |s.procs| && s.procs[k0].pid !in s.table
    && t == s.(procs := s.procs[k0 := s.procs[k0].(control := InTable)],
               table := s.table[s.procs[k0].pid := k0],
               callers := s.callers[i := s.callers[i].(pc := Launching)],
               lock := None)
  }

  lemma InsertEntryProcs(s: State, t: State, i: nat, k0: nat)
    requires Inv(s) && InsertsEntry(s, t, i, k0)
    ensures forall k :: 0 <= k < |t.procs| ==> ProcOk(t, k)
  {
    assert CallerOk(s, i);
    assert ProcOk(s, k0);
    assert s.procs[k0].inbox != [] ==> CallerOk(s, s.procs[k0].inbox[0]);
    forall k | 0 <= k < |t.procs| ensures ProcOk(t, k) {
      assert ProcOk(s, k);
    }
  }

  lemma InsertEntryCallers(s: State, t: State, i: nat, k0: nat)
    requires Inv(s) && InsertsEntry(s, t, i, k0)
    ensures forall i :: 0 <= i < |t.callers| ==> CallerOk(t, i)
  {
    assert CallerOk(s, i);
    assert ProcOk(s, k0);
    assert s.procs[k0].inbox != [] ==> CallerOk(s, s.procs[k0].inbox[0]);
    forall i | 0 <= i < |t.callers| ensures CallerOk(t, i) {
      assert CallerOk(s, i);
    }
  }

  lemma InsertEntry(s: State, t: State, i: nat, k0: nat)
    requires Inv(s) && InsertsEntry(s, t, i, k0)
    ensures Inv(t)
  {
    assert CallerOk(s, i);
    assert ProcOk(s, k0);
    assert s.procs[k0].inbox != [] ==> CallerOk(s, s.procs[k0].inbox[0]);
    InsertEntryProcs(s, t, i, k0);
    InsertEntryCallers(s, t, i, k0);
    assert TableOk(t);
    assert PidsDistinct(t);
  }

  lemma KeepsActSpawn(s: State, e: Step)
    requires Inv(s) && Enabled(s, e) && e.Act? && s.callers[e.i].call.Spawn?
    ensures Inv(Do(s, e))
  {
    var k, t := s.callers[e.i].call.child, Do(s, e);
    assert CallerOk(s, e.i);
    assert ProcOk(s, k);
    var pid := s.procs[k].pid;
    OwnEntry(s, k);
    assert t.procs == s.procs[k := s.procs[k].(control := InTable)];
    InsertEntry(s, t, e.i, k);
  }

  /** The stop by caller `i` has taken the control of child `k0` out of the table. */
  predicate TakesEntry(s: State, t: State, i: nat, pid: Pid, k0: nat) {
    && i < |s.callers| && s.callers[i].pc == Holding && s.callers[i].call == Stop(pid)
    && pid in s.table && k0 == s.table[pid] && k0 < |s.procs|
    && t == s.(procs := s.procs[k0 := s.procs[k0].(control := HeldBy(i))],
               table := s.table - {pid},
               callers := s.callers[i := s.callers[i].(pc := Sending, owned := [k0], took := {k0})],
               lock := None)
  }

  lemma TakeEntryProcs(s: State, t: State, i: nat, pid: Pid, k0: nat)
    requires Inv(s) && TakesEntry(s, t, i, pid, k0)
    ensures forall k :: 0 <= k < |t.procs| ==> ProcOk(t, k)
  {
    assert CallerOk(s, i);
    assert ProcOk(s, k0);
    forall k | 0 <= k < |t.procs| ensures ProcOk(t, k) {
      assert ProcOk(s, k);
    }
  }

  lemma TakeEntryCallers(s: State, t: State, i: nat, pid: Pid, k0: nat)
    requires Inv(s) && TakesEntry(s, t, i, pid, k0)
    ensures forall i :: 0 <= i < |t.callers| ==> CallerOk(t, i)
  {
    assert CallerOk(s, i);
    assert ProcOk(s, k0);
    forall i | 0 <= i < |t.callers| ensures CallerOk(t, i) {
      assert CallerOk(s, i);
    }
  }

  lemma TakeEntry(s: State, t: State, i: nat, pid: Pid, k0: nat)
    requires Inv(s) && TakesEntry(s, t, i, pid, k0)
    ensures Inv(t)
  {
    assert CallerOk(s, i);
    assert ProcOk(s, k0);
    TakeEntryProcs(s, t, i, pid, k0);
    TakeEntryCallers(s, t, i, pid, k0);
    assert TableOk(t);
    assert PidsDistinct(t);
  }

  /** The stop by caller `i` has found no child. */
  predicate FindsNoEntry(s: State, t: State, i: nat, pid: Pid) {
    && i < |s.callers| && s.callers[i].pc == Holding && s.callers[i].call == Stop(pid) && pid !in s.table
    && t == s.(callers := s.callers[i := s.callers[i].(pc := Sending, owned := [], took := {})], lock := None)
  }

  lemma FindNoEntryProcs(s: State, t: State, i: nat, pid: Pid)
    requires Inv(s) && FindsNoEntry(s, t, i, pid)
    ensures forall k :: 0 <= k < |t.procs| ==> ProcOk(t, k)
  {
    assert CallerOk(s, i);
    forall k | 0 <= k < |t.procs| ensures ProcOk(t, k) {
      assert ProcOk(s, k);
    }
  }

  lemma FindNoEntryCallers(s: State, t: State, i: nat, pid: Pid)
    requires Inv(s) && FindsNoEntry(s, t, i, pid)
    ensures forall i :: 0 <= i < |t.callers| ==> CallerOk(t, i)
  {
    assert CallerOk(s, i);
    forall i | 0 <= i < |t.callers| ensures CallerOk(t, i) {
      assert CallerOk(s, i);
    }
  }

  lemma FindNoEntry(s: State, t: State, i: nat, pid: Pid)
    requires Inv(s) && FindsNoEntry(s, t, i, pid)
    ensures Inv(t)
  {
    assert CallerOk(s, i);
    FindNoEntryProcs(s, t, i, pid);
    FindNoEntryCallers(s, t, i, pid);
    assert TableOk(t);
    assert PidsDistinct(t);
  }

  lemma KeepsActFound(s: State, e: Step)
    requires Inv(s) && Enabled(s, e) && e.Act? && s.callers[e.i].call.Stop? && s.callers[e.i].call.pid in s.table
    ensures Inv(Do(s, e))
  {
    var pid, t := s.callers[e.i].call.pid, Do(s, e);
    assert t.procs == s.procs[s.table[pid] := s.procs[s.table[pid]].(control := HeldBy(e.i))];
    TakeEntry(s, t, e.i, pid, s.table[pid]);
  }

  lemma KeepsActStop(s: State, e: Step)
    requires Inv(s) && Enabled(s, e) && e.Act? && s.callers[e.i].call.Stop?
    ensures Inv(Do(s, e))
  {
    var pid, t := s.callers[e.i].call.pid, Do(s, e);
    if pid in s.table {
      KeepsActFound(s, e);
    } else {
      assert t.procs == s.procs && t.table == s.table;
      FindNoEntry(s, t, e.i, pid);
    }
  }

  lemma TableValues(s: State, order: seq<nat>)
    requires Inv(s) && Enumerates(order, s.table)
    ensures forall k: nat :: k in s.table.Values <==> k < |s.procs| && s.procs[k].control == InTable
    ensures forall k: nat :: k in order <==> k in s.table.Values
  {
    forall k: nat | k < |s.procs| && s.procs[k].control == InTable ensures k in s.table.Values {
      assert ProcOk(s, k);
      assert s.table[s.procs[k].pid] in s.table.Values;
    }
    assert forall k: nat :: k in s.table.Values <==> k in (set x | x in order);
  }

  /** The drop by caller `i` has taken every control, in some order. */
  predicate TakesAll(s: State, t: State, i: nat, order: seq<nat>) {
    && i < |s.callers| && s.callers[i].pc == Holding && s.callers[i].call == DropRunner
    && Enumerates(order, s.table)
    && t == s.(procs := MoveControls(s.procs, s.table.Values, HeldBy(i)),
               table := map[],
               callers := s.callers[i := s.callers[i].(pc := Sending, owned := order, took := s.table.Values)],
               lock := None)
  }

  lemma TakeAllProcs(s: State, t: State, i: nat, order: seq<nat>)
    requires Inv(s) && TakesAll(s, t, i, order)
    ensures forall k :: 0 <= k < |t.procs| ==> ProcOk(t, k)
  {
    assert CallerOk(s, i);
    TableValues(s, order);
    assert forall a :: 0 <= a < |order| ==> order[a] in s.table.Values;
    forall k | 0 <= k < |t.procs| ensures ProcOk(t, k) {
      assert ProcOk(s, k);
    }
  }

  lemma TakeAllCallers(s: State, t: State, i: nat, order: seq<nat>)
    requires Inv(s) && TakesAll(s, t, i, order)
    ensures forall i :: 0 <= i < |t.callers| ==> CallerOk(t, i)
  {
    assert CallerOk(s, i);
    TableValues(s, order);
    assert forall a :: 0 <= a < |order| ==> order[a] in s.table.Values;
    forall i | 0 <= i < |t.callers| ensures CallerOk(t, i) {
      assert CallerOk(s, i);
    }
  }

  lemma TakeAll(s: State, t: State, i: nat, order: seq<nat>)
    requires Inv(s) && TakesAll(s, t, i, order)
    ensures Inv(t)
  {
    assert CallerOk(s, i);
    TableValues(s, order);
    assert forall a :: 0 <= a < |order| ==> order[a] in s.table.Values;
    TakeAllProcs(s, t, i, order);
    TakeAllCallers(s, t, i, order);
    assert TableOk(t);
    assert PidsDistinct(t);
  }

  lemma KeepsAct(s: State, e: Step)
    requires Inv(s) && Enabled(s, e) && e.Act?
    ensures Inv(Do(s, e))
  {
    match s.callers[e.i].call
    case Spawn(_) => KeepsActSpawn(s, e);
    case Stop(_) => KeepsActStop(s, e);
    case DropRunner =>
      assert CallerOk(s, e.i);
      TakeAll(s, Do(s, e), e.i, e.order);
  }

  /** Every step keeps the invariant. */
  lemma StepKeepsInv(s: State, e: Step)
    requires Inv(s) && Enabled(s, e)
    ensures Inv(Do(s, e))
  {
    match e
    case BeginSpawn(_, _) => KeepsBeginSpawn(s, e);
    case BeginStop(_) => KeepsBeginStop(s, e);
    case BeginDrop => KeepsBeginDrop(s, e);
    case Acquire(_) => KeepsAcquire(s, e);
    case Act(_, _) => KeepsAct(s, e);
    case Launch(_) => KeepsLaunch(s, e);
    case Send(_) => KeepsSend(s, e);
    case Receive(_) => KeepsReceive(s, e);
    case Return(_) => KeepsReturn(s, e);
    case TakeStop(_) => KeepsTakeStop(s, e);
    case Timeout(_) => KeepsTimeout(s, e);
    case SeeDisconnected(k) => NeverDisconnected(s, k);
    case TryWait(_, _) => KeepsTryWait(s, e);
    case ReaperAcquire(_) => KeepsReaperAcquire(s, e);
    case ReaperRemove(_) => KeepsReaperRemove(s, e);
    case UpgradeFails(_) => KeepsUpgradeFails(s, e);
    case Notify(_) => KeepsNotify(s, e);
    case StopChild(_, _) => KeepsStopChild(s, e);
    case SendReply(_) => KeepsSendReply(s, e);
    case ChildExits(_) => KeepsChildExits(s, e);
  }
}
