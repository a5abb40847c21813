/** The runner over whole interleavings: how reapers end, what a stop and the drop leave behind, no deadlock. */
module ReaperRuns {
  import opened Text
  import opened ChildReaper
  import opened ReaperInvariant

  /** An interleaving of any number of threads from the fresh runner. */
  ghost predicate Run(states: seq<State>, steps: seq<Step>) {
    && |states| == |steps| + 1
    && states[0] == INIT
    && forall n {:trigger steps[n]} :: 0 <= n < |steps| ==>
         Enabled(states[n], steps[n]) && states[n + 1] == Do(states[n], steps[n])
  }

  lemma {:induction false} RunKeepsInv(states: seq<State>, steps: seq<Step>, n: nat)
    requires Run(states, steps) && n <= |steps|
    ensures Inv(states[n])
  {
    if n == 0 {
      InitOk();
    } else {
      RunKeepsInv(states, steps, n - 1);
      assert Enabled(states[n - 1], steps[n - 1]);
      StepKeepsInv(states[n - 1], steps[n - 1]);
    }
  }

  /**
   * In every state of every interleaving: a table entry belongs to an unfinished reaper of
   * that pid; no reaper has seen its channel disconnected, and none can; a finished reaper
   * has either answered one stop or reported one exit; the handler was called at most once.
   */
  lemma ReapersEndOnce(states: seq<State>, steps: seq<Step>, n: nat)
    requires Run(states, steps) && n <= |steps|
    ensures var s := states[n];
            && (forall pid :: pid in s.table ==>
                  && s.table[pid] < |s.procs|
                  && s.procs[s.table[pid]].pid == pid
                  && s.procs[s.table[pid]].pc != Finished)
            && (forall k :: 0 <= k < |s.procs| ==>
                  && s.procs[k].pc != Disconnected
                  && !Enabled(s, SeeDisconnected(k))
                  && s.procs[k].stopsHandled + s.procs[k].exitsReported == (if s.procs[k].pc == Finished then 1 else 0)
                  && s.procs[k].handlerCalls == (if s.procs[k].hasHandler then s.procs[k].exitsReported else 0))
  {
    var s := states[n];
    RunKeepsInv(states, steps, n);
    forall pid | pid in s.table ensures s.procs[s.table[pid]].pc != Finished {
      assert ProcOk(s, s.table[pid]);
    }
    forall k | 0 <= k < |s.procs| ensures CountsOk(s.procs[k]) && !Enabled(s, SeeDisconnected(k)) {
      assert ProcOk(s, k);
      NeverDisconnected(s, k);
    }
  }

  /** When a stop that found its child returns, the child has been reaped unless the OS failed. */
  lemma StopReapsChild(states: seq<State>, steps: seq<Step>, n: nat, i: nat, k: nat)
    requires Run(states, steps) && n <= |steps|
    requires i < |states[n].callers| && states[n].callers[i].pc == Done && k in states[n].callers[i].took
    ensures k < |states[n].procs| && GoneOrFailed(states[n].procs[k]) && states[n].procs[k].pc == Finished
  {
    RunKeepsInv(states, steps, n);
    assert CallerOk(states[n], i);
    assert ProcOk(states[n], k);
  }

  /** Once the drop of the runner has returned, no child it ever spawned is alive, unless the OS failed. */
  lemma DropLeavesNothingAlive(states: seq<State>, steps: seq<Step>, n: nat, k: nat)
    requires Run(states, steps) && n <= |steps|
    requires states[n].dropper.Some? && AllDone(states[n])
    requires k < |states[n].procs|
    ensures GoneOrFailed(states[n].procs[k])
  {
    var s := states[n];
    RunKeepsInv(states, steps, n);
    assert ProcOk(s, k);
    assert CallerOk(s, s.procs[k].spawner);
    assert s.procs[k].control.HeldBy? ==> CallerOk(s, s.procs[k].control.caller);
  }

  // -------------------------------------------------------------------- no deadlock

  lemma {:induction false} SomeOrder(ids: set<nat>) returns (order: seq<nat>)
    ensures forall k: nat :: k in order <==> k in ids
    ensures forall a, b :: 0 <= a < b < |order| ==> order[a] != order[b]
  {
    if ids == {} {
      order := [];
    } else {
      var k :| k in ids;
      var rest := SomeOrder(ids - {k});
      order := [k] + rest;
    }
  }

  lemma CallerReleases(s: State, i: nat, order: seq<nat>)
    requires Inv(s) && s.lock == Some(ByCaller(i)) && Enumerates(order, s.table)
    ensures Enabled(s, Act(i, order)) && Do(s, Act(i, order)).lock == None
  {
    assert CallerOk(s, i);
  }

  /** The lock is never held by a thread that waits, so its holder can always go on. */
  lemma HolderCanRelease(s: State) returns (e: Step)
    requires Inv(s) && s.lock.Some?
    ensures Enabled(s, e) && (e.Act? || e.ReaperRemove?) && Do(s, e).lock == None
  {
    match s.lock.value
    case ByCaller(i) =>
      assert CallerOk(s, i);
      var order := SomeOrder(s.table.Values);
      assert (set k | k in order) == s.table.Values;
      CallerReleases(s, i, order);
      e := Act(i, order);
    case ByReaper(k) =>
      assert ProcOk(s, k);
      e := ReaperRemove(k);
  }

  /** The step that brings the reaper of `k` closer to its end, when the lock is free for it. */
  function NextFor(p: Proc, k: nat): Step {
    match p.pc
    case Unstarted => Launch(p.spawner)
    case Polling => TakeStop(k)
    case Checking => TryWait(k, false)
    case Removing => ReaperAcquire(k)
    case Locked => ReaperRemove(k)
    case Notifying => Notify(k)
    case StopReply(_, _) => SendReply(k)
    case _ => StopChild(k, false)
  }

  lemma WaitedReaperCanMove(s: State, i: nat, k: nat)
    requires Inv(s) && WaitsFor(s, i, k)
    ensures k < |s.procs|
    ensures (s.procs[k].pc == Removing && s.lock.Some?) || Enabled(s, NextFor(s.procs[k], k))
  {
    assert CallerOk(s, i);
    assert ProcOk(s, k);
    assert CallerOk(s, s.procs[k].spawner);
  }

  /** Steps that serve calls already begun. */
  predicate Serves(e: Step) {
    !e.BeginSpawn? && !e.BeginStop? && !e.BeginDrop? && !e.Timeout? && !e.ChildExits?
  }

  /** As long as some call has not returned, some thread can take a step that serves it. */
  lemma NoDeadlock(states: seq<State>, steps: seq<Step>, n: nat, i: nat)
    requires Run(states, steps) && n <= |steps|
    requires i < |states[n].callers| && states[n].callers[i].pc != Done
    ensures exists e :: Enabled(states[n], e) && Serves(e)
  {
    var s := states[n];
    RunKeepsInv(states, steps, n);
    assert CallerOk(s, i);
    var e: Step;
    if s.lock.Some? {
      e := HolderCanRelease(s);
    } else {
      var c := s.callers[i];
      match c.pc
      case Want => e := Acquire(i);
      case Launching => e := Launch(i);
      case Sending => e := if c.owned == [] then Return(i) else Send(i);
      case Awaiting =>
        if c.reply == NoReply {
          WaitedReaperCanMove(s, i, c.owned[0]);
          e := NextFor(s.procs[c.owned[0]], c.owned[0]);
        } else {
          e := Receive(i);
        }
    }
    assert Enabled(s, e) && Serves(e);
  }

  // ----------------------------------------------------------- every stop is answered

  /** How many steps the reaper of `p` may still take once a stop is in its channel. */
  function Rank(p: Proc): nat {
    match p.pc
    case Unstarted => 6
    case Checking => 6
    case Polling => 5
    case StopCheck(_) => 4
    case StopKill(_) => 3
    case StopWait(_) => 2
    case StopReply(_, _) => 1
    case Removing => 3
    case Locked => 2
    case Notifying => 1
    case _ => 0
  }

  predicate ReaperStep(e: Step, k: nat) {
    match e
    case TakeStop(j) => j == k
    case Timeout(j) => j == k
    case SeeDisconnected(j) => j == k
    case TryWait(j, _) => j == k
    case ReaperAcquire(j) => j == k
    case ReaperRemove(j) => j == k
    case UpgradeFails(j) => j == k
    case Notify(j) => j == k
    case StopChild(j, _) => j == k
    case SendReply(j) => j == k
    case _ => false
  }

  function CountReaperSteps(steps: seq<Step>, k: nat): nat {
    if steps == [] then 0
    else (if ReaperStep(steps[0], k) then 1 else 0) + CountReaperSteps(steps[1..], k)
  }

  /** What callers do with the lock moves controls, not reapers. */
  lemma ActKeepsPc(s: State, e: Step, k: nat)
    requires Possible(s, e) && k < |s.procs| && e.Act?
    ensures k < |Do(s, e).procs| && Do(s, e).procs[k].pc == s.procs[k].pc
  {
  }

  /** Only a reaper's own steps, and its launch, move it on. */
  lemma OthersKeepPc(s: State, e: Step, k: nat)
    requires Possible(s, e) && k < |s.procs| && !ReaperStep(e, k) && !e.Launch?
    ensures k < |Do(s, e).procs| && Do(s, e).procs[k].pc == s.procs[k].pc
  {
    if e.Act? {
      ActKeepsPc(s, e, k);
    }
  }

  /** A stop waits in the channel of `k`, or its reaper serves one. */
  predicate Pending(p: Proc) {
    (p.inbox != [] || p.pc.Serving()) && p.pc != Disconnected
  }

  lemma NotifyLowersRank(s: State, k: nat)
    requires Possible(s, Notify(k))
    ensures k < |Do(s, Notify(k)).procs| && Rank(Do(s, Notify(k)).procs[k]) < Rank(s.procs[k])
  {
  }

  lemma ReplyLowersRank(s: State, k: nat)
    requires Possible(s, SendReply(k))
    ensures k < |Do(s, SendReply(k)).procs| && Rank(Do(s, SendReply(k)).procs[k]) < Rank(s.procs[k])
  {
  }

  lemma AcquireLowersRank(s: State, k: nat)
    requires Possible(s, ReaperAcquire(k))
    ensures k < |Do(s, ReaperAcquire(k)).procs| && Rank(Do(s, ReaperAcquire(k)).procs[k]) < Rank(s.procs[k])
  {
  }

  lemma RemovedIsNotifying(s: State, k: nat)
    requires Possible(s, ReaperRemove(k))
    ensures k < |Do(s, ReaperRemove(k)).procs| && Do(s, ReaperRemove(k)).procs[k].pc == Notifying
  {
  }

  lemma LockedAboveNotifying(p: Proc, q: Proc)
    requires p.pc == Locked && q.pc == Notifying
    ensures Rank(q) < Rank(p)
  {
  }

  lemma RemoveLowersRank(s: State, k: nat)
    requires Possible(s, ReaperRemove(k))
    ensures k < |Do(s, ReaperRemove(k)).procs| && Rank(Do(s, ReaperRemove(k)).procs[k]) < Rank(s.procs[k])
  {
    RemovedIsNotifying(s, k);
    LockedAboveNotifying(s.procs[k], Do(s, ReaperRemove(k)).procs[k]);
  }

  lemma UpgradeLowersRank(s: State, k: nat)
    requires Possible(s, UpgradeFails(k))
    ensures k < |Do(s, UpgradeFails(k)).procs| && Rank(Do(s, UpgradeFails(k)).procs[k]) < Rank(s.procs[k])
  {
  }

  lemma StopLowersRank(s: State, k: nat, error: bool)
    requires Possible(s, StopChild(k, error))
    ensures k < |Do(s, StopChild(k, error)).procs| && Rank(Do(s, StopChild(k, error)).procs[k]) < Rank(s.procs[k])
  {
  }

  lemma OwnStepLowersRank(s: State, e: Step, k: nat)
    requires Possible(s, e) && k < |s.procs| && ReaperStep(e, k) && Pending(s.procs[k])
    ensures k < |Do(s, e).procs| && Rank(Do(s, e).procs[k]) < Rank(s.procs[k])
  {
    match e
    case Notify(_) => NotifyLowersRank(s, k);
    case SendReply(_) => ReplyLowersRank(s, k);
    case StopChild(_, error) => StopLowersRank(s, k, error);
    case ReaperAcquire(_) => AcquireLowersRank(s, k);
    case ReaperRemove(_) => RemoveLowersRank(s, k);
    case UpgradeFails(_) => UpgradeLowersRank(s, k);
    case _ =>
  }

  lemma LaunchLowersRank(s: State, e: Step, k: nat)
    requires Inv(s) && Enabled(s, e) && e.Launch? && k < |s.procs|
    ensures k < |Do(s, e).procs| && Rank(Do(s, e).procs[k]) <= Rank(s.procs[k])
  {
    assert CallerOk(s, e.i);
    assert ProcOk(s, s.callers[e.i].call.child);
  }

  /** While a stop is pending no step raises the rank of its reaper, and its own steps lower it. */
  lemma RankStep(s: State, e: Step, i: nat, k: nat)
    requires Inv(s) && Enabled(s, e) && WaitsFor(s, i, k)
    ensures k < |s.procs| && k < |Do(s, e).procs|
    ensures Rank(Do(s, e).procs[k]) <= Rank(s.procs[k])
    ensures ReaperStep(e, k) ==> Rank(Do(s, e).procs[k]) < Rank(s.procs[k])
  {
    assert CallerOk(s, i);
    assert ProcOk(s, k);
    if ReaperStep(e, k) {
      OwnStepLowersRank(s, e, k);
    } else if e.Launch? {
      LaunchLowersRank(s, e, k);
    } else {
      OthersKeepPc(s, e, k);
    }
  }

  lemma NextRank(s: State, e: Step, next: State, i: nat, k: nat)
    requires Inv(s) && Enabled(s, e) && next == Do(s, e) && WaitsFor(s, i, k)
    ensures k < |s.procs| && k < |next.procs|
    ensures Rank(next.procs[k]) + (if ReaperStep(e, k) then 1 else 0) <= Rank(s.procs[k])
  {
    RankStep(s, e, i, k);
  }

  lemma CountFirst(steps: seq<Step>, m: nat, n: nat, k: nat)
    requires m < n <= |steps|
    ensures CountReaperSteps(steps[m..n], k)
            == (if ReaperStep(steps[m], k) then 1 else 0) + CountReaperSteps(steps[m + 1..n], k)
  {
    assert steps[m..n][1..] == steps[m + 1..n];
  }

  /**
   * However the threads interleave, while a stop waits for its reply its reaper takes at
   * most six more steps. With `NoDeadlock` this bounds the wait under any fair schedule.
   */
  lemma {:induction false} StopIsAnswered(states: seq<State>, steps: seq<Step>, m: nat, n: nat, i: nat, k: nat)
    requires Run(states, steps) && m <= n <= |steps|
    requires forall x :: m <= x <= n ==> WaitsFor(states[x], i, k)
    ensures k < |states[m].procs| && CountReaperSteps(steps[m..n], k) <= Rank(states[m].procs[k]) <= 6
    decreases n - m
  {
    RunKeepsInv(states, steps, m);
    assert CallerOk(states[m], i);
    if m < n {
      NextRank(states[m], steps[m], states[m + 1], i, k);
      StopIsAnswered(states, steps, m + 1, n, i, k);
      CountFirst(steps, m, n, k);
    }
  }

  // ---------------------------------------------------- every stop can be answered

  /** The steps can be taken one after another from `s`. */
  ghost predicate Feasible(s: State, steps: seq<Step>)
    decreases |steps|
  {
    steps != [] ==> Enabled(s, steps[0]) && Feasible(Do(s, steps[0]), steps[1..])
  }

  ghost function After(s: State, steps: seq<Step>): State
    requires Feasible(s, steps)
    decreases |steps|
  {
    if steps == [] then s else After(Do(s, steps[0]), steps[1..])
  }

  /** A step of the reaper of `k`, its launch, or the release of the lock by whoever holds it. */
  predicate Helps(e: Step, k: nat) {
    ReaperStep(e, k) || e.Launch? || e.Act? || e.ReaperRemove?
  }

  predicate HasReply(s: State, i: nat) {
    i < |s.callers| && s.callers[i].pc == Awaiting && s.callers[i].reply != NoReply
  }

  lemma ActKeepsWaiting(s: State, e: Step, i: nat, k: nat)
    requires Inv(s) && Enabled(s, e) && WaitsFor(s, i, k) && e.Act?
    ensures WaitsFor(Do(s, e), i, k)
  {
    assert CallerOk(s, e.i);
  }

  lemma HelpKeepsWaiting(s: State, e: Step, i: nat, k: nat)
    requires Inv(s) && Enabled(s, e) && WaitsFor(s, i, k) && Helps(e, k)
    ensures WaitsFor(Do(s, e), i, k) || HasReply(Do(s, e), i)
  {
    if e.Act? {
      ActKeepsWaiting(s, e, i, k);
    } else if e.Launch? {
      assert CallerOk(s, e.i);
    }
  }

  /** How far the reaper of `k` is from its end, counting a lock it has to wait for. */
  function Distance(s: State, k: nat): nat
    requires k < |s.procs|
  {
    2 * Rank(s.procs[k]) + if s.procs[k].pc == Removing && s.lock.Some? then 1 else 0
  }

  lemma LaunchedStarts(s: State, i: nat, k: nat)
    requires Inv(s) && WaitsFor(s, i, k) && k < |s.procs| && s.procs[k].pc == Unstarted
    requires Enabled(s, Launch(s.procs[k].spawner))
    ensures k < |Do(s, Launch(s.procs[k].spawner)).procs|
    ensures Do(s, Launch(s.procs[k].spawner)).procs[k].pc == Polling
  {
    assert ProcOk(s, k);
  }

  lemma ReleaseKeepsPc(s: State, e: Step, k: nat)
    requires Inv(s) && Enabled(s, e) && k < |s.procs| && s.procs[k].pc == Removing && (e.Act? || e.ReaperRemove?)
    ensures k < |Do(s, e).procs| && Do(s, e).procs[k].pc == Removing
  {
    OthersKeepPc(s, e, k);
  }

  /** The step helps: the reaper gets closer to its end, and `i` waits on or has its reply. */
  ghost predicate Moves(s: State, e: Step, i: nat, k: nat) {
    && k < |s.procs| && Enabled(s, e) && Helps(e, k)
    && var next := Do(s, e);
    && Inv(next) && k < |next.procs| && Distance(next, k) < Distance(s, k)
    && (WaitsFor(next, i, k) || HasReply(next, i))
  }

  lemma TakeMoves(s: State, i: nat, k: nat)
    requires Inv(s) && WaitsFor(s, i, k) && k < |s.procs| && s.procs[k].pc == Polling
    ensures Moves(s, TakeStop(k), i, k)
  {
    WaitedReaperCanMove(s, i, k);
    StepKeepsInv(s, TakeStop(k));
    HelpKeepsWaiting(s, TakeStop(k), i, k);
    RankStep(s, TakeStop(k), i, k);
  }

  lemma TryMoves(s: State, i: nat, k: nat)
    requires Inv(s) && WaitsFor(s, i, k) && k < |s.procs| && s.procs[k].pc == Checking
    ensures Moves(s, TryWait(k, false), i, k)
  {
    WaitedReaperCanMove(s, i, k);
    StepKeepsInv(s, TryWait(k, false));
    HelpKeepsWaiting(s, TryWait(k, false), i, k);
    RankStep(s, TryWait(k, false), i, k);
  }

  lemma AcquireMoves(s: State, i: nat, k: nat)
    requires Inv(s) && WaitsFor(s, i, k) && k < |s.procs| && s.procs[k].pc == Removing && s.lock.None?
    ensures Moves(s, ReaperAcquire(k), i, k)
  {
    WaitedReaperCanMove(s, i, k);
    StepKeepsInv(s, ReaperAcquire(k));
    HelpKeepsWaiting(s, ReaperAcquire(k), i, k);
    RankStep(s, ReaperAcquire(k), i, k);
  }

  lemma RemoveMoves(s: State, i: nat, k: nat)
    requires Inv(s) && WaitsFor(s, i, k) && k < |s.procs| && s.procs[k].pc == Locked
    ensures Moves(s, ReaperRemove(k), i, k)
  {
    WaitedReaperCanMove(s, i, k);
    StepKeepsInv(s, ReaperRemove(k));
    HelpKeepsWaiting(s, ReaperRemove(k), i, k);
    RankStep(s, ReaperRemove(k), i, k);
  }

  lemma NotifyMoves(s: State, i: nat, k: nat)
    requires Inv(s) && WaitsFor(s, i, k) && k < |s.procs| && s.procs[k].pc == Notifying
    ensures Moves(s, Notify(k), i, k)
  {
    WaitedReaperCanMove(s, i, k);
    StepKeepsInv(s, Notify(k));
    HelpKeepsWaiting(s, Notify(k), i, k);
    RankStep(s, Notify(k), i, k);
  }

  lemma ReplyMoves(s: State, i: nat, k: nat)
    requires Inv(s) && WaitsFor(s, i, k) && k < |s.procs| && s.procs[k].pc.StopReply?
    ensures Moves(s, SendReply(k), i, k)
  {
    WaitedReaperCanMove(s, i, k);
    StepKeepsInv(s, SendReply(k));
    HelpKeepsWaiting(s, SendReply(k), i, k);
    RankStep(s, SendReply(k), i, k);
  }

  lemma StopMoves(s: State, i: nat, k: nat)
    requires Inv(s) && WaitsFor(s, i, k) && k < |s.procs| && (s.procs[k].pc.StopCheck? || s.procs[k].pc.StopKill? || s.procs[k].pc.StopWait?)
    ensures Moves(s, StopChild(k, false), i, k)
  {
    WaitedReaperCanMove(s, i, k);
    StepKeepsInv(s, StopChild(k, false));
    HelpKeepsWaiting(s, StopChild(k, false), i, k);
    RankStep(s, StopChild(k, false), i, k);
  }

  lemma LaunchMoves(s: State, i: nat, k: nat)
    requires Inv(s) && WaitsFor(s, i, k) && k < |s.procs| && s.procs[k].pc == Unstarted
    ensures Moves(s, Launch(s.procs[k].spawner), i, k)
  {
    var e := Launch(s.procs[k].spawner);
    WaitedReaperCanMove(s, i, k);
    StepKeepsInv(s, e);
    HelpKeepsWaiting(s, e, i, k);
    LaunchedStarts(s, i, k);
  }

  lemma CallerReleaseMoves(s: State, i: nat, k: nat, j: nat, order: seq<nat>)
    requires Inv(s) && WaitsFor(s, i, k) && k < |s.procs| && s.procs[k].pc == Removing && s.lock == Some(ByCaller(j))
    requires Enabled(s, Act(j, order)) && Do(s, Act(j, order)).lock == None
    ensures Moves(s, Act(j, order), i, k)
  {
    StepKeepsInv(s, Act(j, order));
    HelpKeepsWaiting(s, Act(j, order), i, k);
    ReleaseKeepsPc(s, Act(j, order), k);
  }

  lemma ReaperReleaseMoves(s: State, i: nat, k: nat, j: nat)
    requires Inv(s) && WaitsFor(s, i, k) && k < |s.procs| && s.procs[k].pc == Removing && s.lock == Some(ByReaper(j))
    requires Enabled(s, ReaperRemove(j))
    ensures Moves(s, ReaperRemove(j), i, k)
  {
    StepKeepsInv(s, ReaperRemove(j));
    HelpKeepsWaiting(s, ReaperRemove(j), i, k);
    ReleaseKeepsPc(s, ReaperRemove(j), k);
  }

  lemma ReleaseMoves(s: State, i: nat, k: nat) returns (e: Step)
    requires Inv(s) && WaitsFor(s, i, k) && k < |s.procs| && s.procs[k].pc == Removing && s.lock.Some?
    ensures Moves(s, e, i, k)
  {
    match s.lock.value
    case ByCaller(j) =>
      assert CallerOk(s, j);
      var order := SomeOrder(s.table.Values);
      assert (set x | x in order) == s.table.Values;
      e := Act(j, order);
      CallerReleases(s, j, order);
      CallerReleaseMoves(s, i, k, j, order);
    case ByReaper(j) =>
      assert ProcOk(s, j);
      e := ReaperRemove(j);
      ReaperReleaseMoves(s, i, k, j);
  }

  /** Some step brings the reaper that `i` waits for closer to its end. */
  lemma HelpfulStep(s: State, i: nat, k: nat) returns (e: Step)
    requires Inv(s) && WaitsFor(s, i, k)
    ensures Moves(s, e, i, k)
  {
    WaitedReaperCanMove(s, i, k);
    assert ProcOk(s, k) && CallerOk(s, i);
    match s.procs[k].pc
    case Unstarted => e := Launch(s.procs[k].spawner); LaunchMoves(s, i, k);
    case Polling => e := TakeStop(k); TakeMoves(s, i, k);
    case Checking => e := TryWait(k, false); TryMoves(s, i, k);
    case Removing =>
      if s.lock.Some? {
        e := ReleaseMoves(s, i, k);
      } else {
        e := ReaperAcquire(k);
        AcquireMoves(s, i, k);
      }
    case Locked => e := ReaperRemove(k); RemoveMoves(s, i, k);
    case Notifying => e := Notify(k); NotifyMoves(s, i, k);
    case StopReply(_, _) => e := SendReply(k); ReplyMoves(s, i, k);
    case _ => e := StopChild(k, false); StopMoves(s, i, k);
  }

  lemma FeasibleCons(s: State, e: Step, next: State, more: seq<Step>)
    requires Enabled(s, e) && next == Do(s, e) && Feasible(next, more)
    ensures Feasible(s, [e] + more) && After(s, [e] + more) == After(next, more)
  {
    assert ([e] + more)[1..] == more;
  }

  lemma DistanceBounded(s: State, k: nat)
    requires k < |s.procs|
    ensures Distance(s, k) <= 13
  {
  }

  /** From every state in which a stop waits, helpful steps alone lead to its reply. */
  lemma {:induction false} AnswerFollows(s: State, i: nat, k: nat) returns (steps: seq<Step>)
    requires Inv(s) && WaitsFor(s, i, k)
    ensures Feasible(s, steps) && HasReply(After(s, steps), i)
    ensures forall e :: e in steps ==> Helps(e, k)
    ensures k < |s.procs| && |steps| <= Distance(s, k)
    decreases if k < |s.procs| then Distance(s, k) else 0
  {
    var e := HelpfulStep(s, i, k);
    var next := Do(s, e);
    var more: seq<Step> := [];
    if WaitsFor(next, i, k) {
      more := AnswerFollows(next, i, k);
    }
    FeasibleCons(s, e, next, more);
    steps := [e] + more;
  }

  /**
   * In a run from the fresh runner every stop that waits can still get its reply, within
   * thirteen steps of its reaper and of whoever holds the lock.
   */
  lemma WaitingStopIsAnswered(states: seq<State>, steps: seq<Step>, n: nat, i: nat, k: nat)
    requires Run(states, steps) && n <= |steps| && WaitsFor(states[n], i, k)
    ensures exists more :: Feasible(states[n], more) && HasReply(After(states[n], more), i) && |more| <= 13
                           && forall e :: e in more ==> Helps(e, k)
  {
    RunKeepsInv(states, steps, n);
    var more := AnswerFollows(states[n], i, k);
    DistanceBounded(states[n], k);
  }
}
