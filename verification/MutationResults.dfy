/** What a mutation reports: success exactly when it has been applied, and then once. */
module MutationResults {
  import opened ConfigMutation

  /** What has happened since the process was started last. */
  function SinceReload(history: seq<Event>): seq<Event> {
    if history == [] || history[|history| - 1].Reloaded? then []
    else SinceReload(history[..|history| - 1]) + [history[|history| - 1]]
  }

  lemma SinceStep(history: seq<Event>, e: Event)
    ensures SinceReload(history + [e]) == if e.Reloaded? then [] else SinceReload(history) + [e]
  {
    assert (history + [e])[..|history|] == history;
  }

  /** The task has committed, and at most its publication is missing. */
  predicate Took(pc: TaskPc) {
    pc == Committed || pc == Ended(true)
  }

  /** Each applied mutation is that of a task that took effect, and no task is applied twice. */
  ghost predicate EventsOk(tasks: seq<Task>, events: seq<Event>) {
    && (forall n :: 0 <= n < |events| ==>
          && events[n].Applied?
          && events[n].task < |tasks|
          && tasks[events[n].task].mutation == events[n].mutation
          && Took(tasks[events[n].task].pc))
    && (forall m, n :: 0 <= m < n < |events| ==> events[m].task != events[n].task)
  }

  predicate IsApplied(events: seq<Event>, i: nat) {
    exists n :: 0 <= n < |events| && events[n].Applied? && events[n].task == i
  }

  ghost predicate ResultsOk(w: World) {
    && EventsOk(w.tasks, SinceReload(w.history))
    && forall i :: 0 <= i < |w.tasks| && Took(w.tasks[i].pc) ==> IsApplied(SinceReload(w.history), i)
  }

  /** A step that applies nothing: the tasks that took effect are the same ones. */
  lemma QuietResults(w: World, after: World)
    requires ResultsOk(w) && after.history == w.history && |w.tasks| <= |after.tasks|
    requires forall i :: 0 <= i < |w.tasks| ==>
               after.tasks[i].mutation == w.tasks[i].mutation && Took(after.tasks[i].pc) == Took(w.tasks[i].pc)
    requires forall i :: |w.tasks| <= i < |after.tasks| ==> !Took(after.tasks[i].pc)
    ensures ResultsOk(after)
  {
  }

  lemma AppliedStays(events: seq<Event>, e: Event, j: nat)
    requires IsApplied(events, j)
    ensures IsApplied(events + [e], j)
  {
    var n :| 0 <= n < |events| && events[n].Applied? && events[n].task == j;
    assert (events + [e])[n] == events[n];
  }

  /** Task `i` has just committed. */
  lemma EventsGrow(tasks: seq<Task>, after: seq<Task>, events: seq<Event>, i: nat)
    requires EventsOk(tasks, events) && i < |tasks| && tasks[i].pc == Saved
    requires after == tasks[i := tasks[i].(pc := Committed)]
    ensures EventsOk(after, events + [Applied(tasks[i].mutation, i)])
  {
  }

  lemma CommitResults(w: World, i: nat)
    requires ResultsOk(w) && Enabled(w, Commit(i, true))
    ensures ResultsOk(Do(w, Commit(i, true)))
  {
    var after, e, events := Do(w, Commit(i, true)), Applied(w.tasks[i].mutation, i), SinceReload(w.history);
    SinceStep(w.history, e);
    EventsGrow(w.tasks, after.tasks, events, i);
    forall j | 0 <= j < |after.tasks| && Took(after.tasks[j].pc) ensures IsApplied(events + [e], j) {
      if j == i {
        assert (events + [e])[|events|] == e;
      } else {
        AppliedStays(events, e, j);
      }
    }
  }

  lemma StepKeepsResults(w: World, e: Step)
    requires ResultsOk(w) && Enabled(w, e)
    ensures ResultsOk(Do(w, e))
  {
    if e.CrashAndReload? {
      SinceStep(w.history, Reloaded);
    } else if e.Commit? && e.ok {
      CommitResults(w, e.i);
    } else {
      QuietResults(w, Do(w, e));
    }
  }

  lemma {:induction false} RunKeepsResults(worlds: seq<World>, steps: seq<Step>, first: Image, n: nat)
    requires Run(worlds, steps, first) && n <= |steps|
    ensures ResultsOk(worlds[n])
  {
    if n > 0 {
      RunKeepsResults(worlds, steps, first, n - 1);
      assert Enabled(worlds[n - 1], steps[n - 1]);
      StepKeepsResults(worlds[n - 1], steps[n - 1]);
    }
  }

  /**
   * In every run, a mutation that has returned did so with success exactly when it is one of
   * those applied since the last start; it is applied once, with its own edit.
   */
  lemma ResultsExactly(worlds: seq<World>, steps: seq<Step>, first: Image, n: nat, i: nat)
    requires Run(worlds, steps, first) && n <= |steps|
    requires i < |worlds[n].tasks| && worlds[n].tasks[i].pc.Ended?
    ensures var w := worlds[n];
            && EventsOk(w.tasks, SinceReload(w.history))
            && (w.tasks[i].pc.ok <==> IsApplied(SinceReload(w.history), i))
  {
    RunKeepsResults(worlds, steps, first, n);
  }
}
