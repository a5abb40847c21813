/** A child that ends by itself, or that cannot be waited for, is reaped and reported. */
module ReaperExits {
  import opened Text
  import opened ChildReaper
  import opened ReaperInvariant
  import opened ReaperRuns

  /**
   * The reaper of `k` has no stop to serve and has found, or will find when it looks, that
   * the child has ended, or (`error`) that it cannot be waited for.
   */
  predicate EndsUnasked(s: State, k: nat, error: bool) {
    && k < |s.procs|
    && s.procs[k].inbox == []
    && s.procs[k].pc in {Polling, Checking, Removing, Locked, Notifying}
    && (s.procs[k].pc in {Polling, Checking} ==> error || s.procs[k].os != Running)
  }

  /** The reaper has ended with a report and, if there is a handler, one call of it. */
  predicate HasReported(s: State, k: nat) {
    && k < |s.procs|
    && s.procs[k].pc == Finished
    && s.procs[k].exitsReported == 1
    && s.procs[k].handlerCalls == (if s.procs[k].hasHandler then 1 else 0)
    && (s.procs[k].os == Reaped || s.procs[k].failed)
  }

  /** How many steps are left, counting a lock to wait for. */
  function Left(s: State, k: nat): nat
    requires k < |s.procs|
  {
    match s.procs[k].pc
    case Polling => 6
    case Checking => 5
    case Removing => if s.lock.Some? then 4 else 3
    case Locked => 2
    case _ => 1
  }

  predicate Brings(e: Step, k: nat) {
    ReaperStep(e, k) || e.Act? || e.ReaperRemove?
  }

  ghost predicate Advances(s: State, e: Step, k: nat, error: bool) {
    && k < |s.procs| && Enabled(s, e) && Brings(e, k)
    && Inv(Do(s, e))
    && ((EndsUnasked(Do(s, e), k, error) && Left(Do(s, e), k) < Left(s, k)) || HasReported(Do(s, e), k))
  }

  lemma PollAdvances(s: State, k: nat, error: bool)
    requires Inv(s) && EndsUnasked(s, k, error) && s.procs[k].pc == Polling
    ensures Advances(s, Timeout(k), k, error)
  {
    assert ProcOk(s, k);
    StepKeepsInv(s, Timeout(k));
  }

  lemma CheckAdvances(s: State, k: nat, error: bool)
    requires Inv(s) && EndsUnasked(s, k, error) && s.procs[k].pc == Checking
    ensures Advances(s, TryWait(k, error), k, error)
  {
    StepKeepsInv(s, TryWait(k, error));
  }

  lemma AcquireAdvances(s: State, k: nat, error: bool)
    requires Inv(s) && EndsUnasked(s, k, error) && s.procs[k].pc == Removing && s.lock.None?
    ensures Advances(s, ReaperAcquire(k), k, error)
  {
    StepKeepsInv(s, ReaperAcquire(k));
  }

  lemma RemoveAdvances(s: State, k: nat, error: bool)
    requires Inv(s) && EndsUnasked(s, k, error) && s.procs[k].pc == Locked
    ensures Advances(s, ReaperRemove(k), k, error)
  {
    StepKeepsInv(s, ReaperRemove(k));
  }

  lemma NotifyAdvances(s: State, k: nat, error: bool)
    requires Inv(s) && EndsUnasked(s, k, error) && s.procs[k].pc == Notifying
    ensures Advances(s, Notify(k), k, error)
  {
    assert ProcOk(s, k);
    StepKeepsInv(s, Notify(k));
  }

  lemma ReleaseKeepsInbox(s: State, e: Step, k: nat)
    requires Possible(s, e) && (e.Act? || e.ReaperRemove?) && k < |s.procs|
    ensures k < |Do(s, e).procs| && Do(s, e).procs[k].inbox == s.procs[k].inbox
  {
  }

  lemma ReleaseAdvances(s: State, e: Step, k: nat, error: bool)
    requires Inv(s) && EndsUnasked(s, k, error) && s.procs[k].pc == Removing && s.lock.Some?
    requires Enabled(s, e) && (e.Act? || e.ReaperRemove?) && Do(s, e).lock == None
    ensures Advances(s, e, k, error)
  {
    StepKeepsInv(s, e);
    ReleaseKeepsPc(s, e, k);
    ReleaseKeepsInbox(s, e, k);
  }

  lemma NextAdvance(s: State, k: nat, error: bool) returns (e: Step)
    requires Inv(s) && EndsUnasked(s, k, error)
    ensures Advances(s, e, k, error)
  {
    match s.procs[k].pc
    case Polling => e := Timeout(k); PollAdvances(s, k, error);
    case Checking => e := TryWait(k, error); CheckAdvances(s, k, error);
    case Removing =>
      if s.lock.Some? {
        e := HolderCanRelease(s);
        ReleaseAdvances(s, e, k, error);
      } else {
        e := ReaperAcquire(k);
        AcquireAdvances(s, k, error);
      }
    case Locked => e := ReaperRemove(k); RemoveAdvances(s, k, error);
    case _ => e := Notify(k); NotifyAdvances(s, k, error);
  }

  lemma {:induction false} ReportFollows(s: State, k: nat, error: bool) returns (steps: seq<Step>)
    requires Inv(s) && EndsUnasked(s, k, error)
    ensures Feasible(s, steps) && HasReported(After(s, steps), k)
    ensures |steps| <= Left(s, k) && forall e :: e in steps ==> Brings(e, k)
    decreases Left(s, k)
  {
    var e := NextAdvance(s, k, error);
    var next := Do(s, e);
    var more: seq<Step> := [];
    if !HasReported(next, k) {
      more := ReportFollows(next, k, error);
    }
    FeasibleCons(s, e, next, more);
    steps := [e] + more;
  }

  /**
   * In every state of every run a child that has ended by itself, with no stop under way,
   * can be reported within six steps of its reaper and of whoever holds the lock; so can a
   * child whose reaper is about to learn that it cannot be waited for.
   */
  lemma ExitIsReported(states: seq<State>, steps: seq<Step>, n: nat, k: nat, error: bool)
    requires Run(states, steps) && n <= |steps| && EndsUnasked(states[n], k, error)
    ensures exists more :: Feasible(states[n], more) && HasReported(After(states[n], more), k) && |more| <= 6
                           && forall e :: e in more ==> Brings(e, k)
  {
    RunKeepsInv(states, steps, n);
    var more := ReportFollows(states[n], k, error);
  }
}
