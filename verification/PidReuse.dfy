/**
 * Why `NeverDisconnected` needs pids that differ between unfinished reapers. The system
 * only promises not to hand out a pid again before its child was reaped; between that and
 * the removal of the table entry, a new child may get the same pid.
 */
module PidReuse {
  import opened Text
  import opened ChildReaper

  /** What the system promises about the pid of a new child. */
  predicate ReapedPid(s: State, pid: Pid) {
    forall k :: 0 <= k < |s.procs| && s.procs[k].pid == pid ==> s.procs[k].os == Reaped
  }

  predicate Allowed(s: State, e: Step) {
    Possible(s, e) && (e.BeginSpawn? ==> ReapedPid(s, e.pid))
  }

  /** An interleaving under the system's promise alone. */
  ghost predicate SystemRun(states: seq<State>, steps: seq<Step>) {
    && |states| == |steps| + 1
    && states[0] == INIT
    && forall n {:trigger steps[n]} :: 0 <= n < |steps| ==>
         Allowed(states[n], steps[n]) && states[n + 1] == Do(states[n], steps[n])
  }

  ghost predicate Reachable(s: State) {
    exists states, steps :: SystemRun(states, steps) && states[|steps|] == s
  }

  lemma StartReachable()
    ensures Reachable(INIT)
  {
    var states, steps: seq<Step> := [INIT], [];
    assert SystemRun(states, steps) && states[|steps|] == INIT;
  }

  lemma StepReachable(s: State, e: Step)
    requires Reachable(s) && Allowed(s, e)
    ensures Reachable(Do(s, e))
  {
    var states, steps :| SystemRun(states, steps) && states[|steps|] == s;
    var states', steps' := states + [Do(s, e)], steps + [e];
    forall n {:trigger steps'[n]} | 0 <= n < |steps'|
      ensures Allowed(states'[n], steps'[n]) && states'[n + 1] == Do(states'[n], steps'[n])
    {
      if n < |steps| {
        assert steps'[n] == steps[n];
      }
    }
    assert SystemRun(states', steps') && states'[|steps'|] == Do(s, e);
  }

  function ChildOf(pid: Pid, spawner: nat, os: Os, pc: ReaperPc, control: Control): Proc {
    Proc(pid, spawner, false, os, pc, control, [], 0, 0, 0, false)
  }

  function SpawnerOf(child: nat, pc: CallerPc): Caller {
    Caller(Spawn(child), pc, [], {}, NoReply, map[])
  }

  /** The first child has run, exited and been reaped; its entry is still in the table. */
  function FirstReaped(pid: Pid): State {
    State([ChildOf(pid, 0, Reaped, Removing, InTable)], [SpawnerOf(0, CallerPc.Done)], map[pid := 0], None, None)
  }

  /** A second child got the pid and took over the entry. */
  function SecondRuns(pid: Pid): State {
    State([ChildOf(pid, 0, Reaped, Removing, Dropped), ChildOf(pid, 1, Running, Polling, InTable)],
          [SpawnerOf(0, CallerPc.Done), SpawnerOf(1, CallerPc.Done)], map[pid := 1], None, None)
  }

  /** The reaper of the first child has removed the entry of the second. */
  function EntryRemoved(pid: Pid): State {
    State([ChildOf(pid, 0, Reaped, Notifying, Dropped), ChildOf(pid, 1, Running, Polling, Dropped)],
          [SpawnerOf(0, CallerPc.Done), SpawnerOf(1, CallerPc.Done)], map[], None, None)
  }

  lemma WantFirst(pid: Pid)
    ensures Reachable(State([ChildOf(pid, 0, Running, Unstarted, NotMade)], [SpawnerOf(0, Want)], map[], None, None))
  {
    StartReachable();
    StepReachable(INIT, BeginSpawn(pid, false));
  }

  lemma ListFirst(pid: Pid, want: State, listed: State)
    requires want == State([ChildOf(pid, 0, Running, Unstarted, NotMade)], [SpawnerOf(0, Want)], map[], None, None)
    requires listed == State([ChildOf(pid, 0, Running, Unstarted, InTable)], [SpawnerOf(0, Launching)],
                             map[pid := 0], None, None)
    requires Reachable(want)
    ensures Reachable(listed)
  {
    var held := want.(callers := [SpawnerOf(0, Holding)], lock := Some(ByCaller(0)));
    StepReachable(want, Acquire(0));
    assert Do(want, Acquire(0)) == held;
    StepReachable(held, Act(0, []));
    assert EntryOf(held, pid) == {};
    assert Do(held, Act(0, [])) == listed;
  }

  lemma SpawnFirst(pid: Pid)
    ensures Reachable(State([ChildOf(pid, 0, Running, Polling, InTable)], [SpawnerOf(0, CallerPc.Done)],
                            map[pid := 0], None, None))
  {
    var want := State([ChildOf(pid, 0, Running, Unstarted, NotMade)], [SpawnerOf(0, Want)], map[], None, None);
    var listed := State([ChildOf(pid, 0, Running, Unstarted, InTable)], [SpawnerOf(0, Launching)], map[pid := 0],
                        None, None);
    WantFirst(pid);
    ListFirst(pid, want, listed);
    StepReachable(listed, Launch(0));
  }

  lemma ReapFirst(pid: Pid)
    ensures Reachable(FirstReaped(pid))
  {
    SpawnFirst(pid);
    var s := State([ChildOf(pid, 0, Running, Polling, InTable)], [SpawnerOf(0, CallerPc.Done)], map[pid := 0], None, None);
    StepReachable(s, ChildExits(0));
    var exited := s.(procs := [ChildOf(pid, 0, Exited, Polling, InTable)]);
    assert Do(s, ChildExits(0)) == exited;
    StepReachable(exited, Timeout(0));
    var checking := s.(procs := [ChildOf(pid, 0, Exited, Checking, InTable)]);
    assert Do(exited, Timeout(0)) == checking;
    StepReachable(checking, TryWait(0, false));
    assert Do(checking, TryWait(0, false)) == FirstReaped(pid);
  }

  /** The second spawn, holding the lock. */
  function SecondHolds(pid: Pid): State {
    State([ChildOf(pid, 0, Reaped, Removing, InTable), ChildOf(pid, 1, Running, Unstarted, NotMade)],
          [SpawnerOf(0, CallerPc.Done), SpawnerOf(1, Holding)], map[pid := 0], Some(ByCaller(1)), None)
  }

  lemma HoldSecond(pid: Pid)
    ensures Reachable(SecondHolds(pid))
  {
    var s := FirstReaped(pid);
    ReapFirst(pid);
    StepReachable(s, BeginSpawn(pid, false));
    var want := s.(procs := s.procs + [ChildOf(pid, 1, Running, Unstarted, NotMade)],
                   callers := s.callers + [SpawnerOf(1, Want)]);
    assert Do(s, BeginSpawn(pid, false)) == want;
    StepReachable(want, Acquire(1));
    assert Do(want, Acquire(1)) == SecondHolds(pid);
  }

  lemma SpawnSecond(pid: Pid)
    ensures Reachable(SecondRuns(pid))
  {
    var held := SecondHolds(pid);
    var listed := State([ChildOf(pid, 0, Reaped, Removing, Dropped), ChildOf(pid, 1, Running, Unstarted, InTable)],
                        [SpawnerOf(0, CallerPc.Done), SpawnerOf(1, Launching)], map[pid := 1], None, None);
    HoldSecond(pid);
    StepReachable(held, Act(1, []));
    TakesOver(pid, held, listed);
    StepReachable(listed, Launch(1));
    assert Do(listed, Launch(1)) == SecondRuns(pid);
  }

  lemma TakesOver(pid: Pid, held: State, listed: State)
    requires held == State([ChildOf(pid, 0, Reaped, Removing, InTable), ChildOf(pid, 1, Running, Unstarted, NotMade)],
                           [SpawnerOf(0, CallerPc.Done), SpawnerOf(1, Holding)], map[pid := 0], Some(ByCaller(1)), None)
    requires listed == State([ChildOf(pid, 0, Reaped, Removing, Dropped), ChildOf(pid, 1, Running, Unstarted, InTable)],
                             [SpawnerOf(0, CallerPc.Done), SpawnerOf(1, Launching)], map[pid := 1], None, None)
    ensures Do(held, Act(1, [])) == listed
  {
    assert EntryOf(held, pid) == {0};
    assert Do(held, Act(1, [])).table == map[pid := 1];
  }

  lemma RemoveEntry(pid: Pid)
    ensures Reachable(EntryRemoved(pid))
  {
    var s := SecondRuns(pid);
    SpawnSecond(pid);
    StepReachable(s, ReaperAcquire(0));
    var locked := s.(procs := s.procs[0 := ChildOf(pid, 0, Reaped, Locked, Dropped)], lock := Some(ByReaper(0)));
    assert Do(s, ReaperAcquire(0)) == locked;
    StepReachable(locked, ReaperRemove(0));
    assert EntryOf(locked, pid) == {1};
    assert Do(locked, ReaperRemove(0)).table == map[];
    assert Do(locked, ReaperRemove(0)) == EntryRemoved(pid);
  }

  /** Under the system's promise alone a running child can find its control channel closed. */
  lemma ForeignEntryDisconnects(pid: Pid)
    ensures exists s :: Reachable(s) && Possible(s, SeeDisconnected(1)) && s.procs[1].os == Running
  {
    RemoveEntry(pid);
    assert Possible(EntryRemoved(pid), SeeDisconnected(1));
  }
}
