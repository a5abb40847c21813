/**
 * Two stops of one child at a time: the second finds no table entry and returns success at
 * once, while the child still runs. `StopEndsLaunched` says that nothing else goes wrong.
 */
module ConcurrentStops {
  import opened Text
  import opened ChildReaper
  import opened ReaperRuns

  ghost predicate Reached(s: State) {
    exists states, steps :: Run(states, steps) && states[|steps|] == s
  }

  lemma StartReached()
    ensures Reached(INIT)
  {
    var states, steps: seq<Step> := [INIT], [];
    assert Run(states, steps) && states[|steps|] == INIT;
  }

  lemma StepReached(s: State, e: Step, t: State)
    requires Reached(s) && Enabled(s, e) && Do(s, e) == t
    ensures Reached(t)
  {
    var states, steps :| Run(states, steps) && states[|steps|] == s;
    var states', steps' := states + [t], steps + [e];
    forall n {:trigger steps'[n]} | 0 <= n < |steps'|
      ensures Enabled(states'[n], steps'[n]) && states'[n + 1] == Do(states'[n], steps'[n])
    {
      if n < |steps| {
        assert steps'[n] == steps[n];
      }
    }
    assert Run(states', steps') && states'[|steps'|] == t;
  }

  function Child(pid: Pid, pc: ReaperPc, control: Control): Proc {
    Proc(pid, 0, false, Running, pc, control, [], 0, 0, 0, false)
  }

  function Spawner(pc: CallerPc): Caller {
    Caller(Spawn(0), pc, [], {}, NoReply, map[])
  }

  function Stopper(pid: Pid, pc: CallerPc): Caller {
    Caller(Stop(pid), pc, [], {}, NoReply, map[])
  }

  /** The child runs, and its spawn has returned. */
  function Started(pid: Pid): State {
    State([Child(pid, Polling, InTable)], [Spawner(CallerPc.Done)], map[pid := 0], None, None)
  }

  lemma StartedReached(pid: Pid)
    ensures Reached(Started(pid))
  {
    var held := State([Child(pid, Unstarted, NotMade)], [Spawner(Holding)], map[], Some(ByCaller(0)), None);
    var listed := State([Child(pid, Unstarted, InTable)], [Spawner(Launching)], map[pid := 0], None, None);
    HeldReached(pid, held);
    Listed(pid, held, listed);
    StepReached(held, Act(0, []), listed);
    StepReached(listed, Launch(0), Started(pid));
  }

  lemma HeldReached(pid: Pid, held: State)
    requires held == State([Child(pid, Unstarted, NotMade)], [Spawner(Holding)], map[], Some(ByCaller(0)), None)
    ensures Reached(held)
  {
    var want := State([Child(pid, Unstarted, NotMade)], [Spawner(Want)], map[], None, None);
    StartReached();
    StepReached(INIT, BeginSpawn(pid, false), want);
    StepReached(want, Acquire(0), held);
  }

  lemma Listed(pid: Pid, held: State, listed: State)
    requires held == State([Child(pid, Unstarted, NotMade)], [Spawner(Holding)], map[], Some(ByCaller(0)), None)
    requires listed == State([Child(pid, Unstarted, InTable)], [Spawner(Launching)], map[pid := 0], None, None)
    ensures Do(held, Act(0, [])) == listed
  {
    assert EntryOf(held, pid) == {};
  }

  /** Both stops have begun; the first has the control and has yet to send its command. */
  function FirstTook(pid: Pid): State {
    State([Child(pid, Polling, HeldBy(1))],
          [Spawner(CallerPc.Done), Stopper(pid, Sending).(owned := [0], took := {0}), Stopper(pid, Want)], map[], None, None)
  }

  lemma FirstTookReached(pid: Pid)
    ensures Reached(FirstTook(pid))
  {
    var s := Started(pid);
    var one := s.(callers := [Spawner(CallerPc.Done), Stopper(pid, Want)]);
    var two := s.(callers := [Spawner(CallerPc.Done), Stopper(pid, Want), Stopper(pid, Want)]);
    var held := two.(callers := [Spawner(CallerPc.Done), Stopper(pid, Holding), Stopper(pid, Want)],
                     lock := Some(ByCaller(1)));
    StartedReached(pid);
    StepReached(s, BeginStop(pid), one);
    StepReached(one, BeginStop(pid), two);
    StepReached(two, Acquire(1), held);
    Took(pid, held);
    StepReached(held, Act(1, []), FirstTook(pid));
  }

  lemma Took(pid: Pid, held: State)
    requires held == State([Child(pid, Polling, InTable)],
                           [Spawner(CallerPc.Done), Stopper(pid, Holding), Stopper(pid, Want)],
                           map[pid := 0], Some(ByCaller(1)), None)
    ensures Do(held, Act(1, [])) == FirstTook(pid)
  {
    assert EntryOf(held, pid) == {0};
    assert Do(held, Act(1, [])).table == map[];
  }

  /** The second of two stops returns success while the child runs. */
  lemma SecondStopReturnsEarly(pid: Pid)
    ensures exists s ::
              && Reached(s) && |s.callers| == 3 && |s.procs| == 1
              && s.callers[2].call == Stop(pid) && s.callers[2].pc == CallerPc.Done && s.callers[2].StopSucceeds()
              && s.procs[0].pid == pid && s.procs[0].os == Running
  {
    var s := FirstTook(pid);
    var held := s.(callers := s.callers[2 := Stopper(pid, Holding)], lock := Some(ByCaller(2)));
    var missed := s.(callers := s.callers[2 := Stopper(pid, Sending)]);
    var done := s.(callers := s.callers[2 := Stopper(pid, CallerPc.Done)]);
    FirstTookReached(pid);
    StepReached(s, Acquire(2), held);
    assert EntryOf(held, pid) == {};
    StepReached(held, Act(2, []), missed);
    StepReached(missed, Return(2), done);
    assert done.callers[2].StopSucceeds();
  }
}
