/**
 * What `stop` answers: an error only when the system reported one for that child, success
 * only when the child was reaped or its reaper has ended; and which children a stop leaves
 * behind when another stop of the same child is under way.
 */
module ReaperAnswers {
  import opened ChildReaper
  import opened ReaperInvariant
  import opened ReaperRuns

  /** The reply is true of the child it is about. */
  predicate TrueOf(r: Reply, p: Proc) {
    match r
    case NoReply => true
    case Answered(ok) => if ok then p.os == Reaped else p.failed
    case ChannelClosed => p.os == Reaped || p.failed
  }

  predicate AnswersOk(s: State, i: nat)
    requires i < |s.callers|
  {
    var c := s.callers[i];
    && (c.pc in {Want, Holding} ==> c.took == {} && c.answers == map[])
    && (c.owned != [] ==> c.owned[0] < |s.procs| && TrueOf(c.reply, s.procs[c.owned[0]]))
    && (forall k :: k in c.owned ==> k in c.took)
    && (forall k :: k in c.took ==>
          && k < |s.procs|
          && (k in c.owned || k in c.answers)
          && (c.call.Stop? ==> s.procs[k].pid == c.call.pid))
    && (forall k :: k in c.answers ==>
          k in c.took && k < |s.procs| && c.answers[k] != NoReply && TrueOf(c.answers[k], s.procs[k]))
  }

  predicate AnswersOkAt(s: State, i: nat) {
    i < |s.callers| && AnswersOk(s, i)
  }

  predicate AllAnswersOk(s: State) {
    forall i :: 0 <= i < |s.callers| ==> AnswersOk(s, i)
  }

  /** What stays true of a child once it is true. */
  predicate Stays(p: Proc, q: Proc) {
    q.pid == p.pid && q.spawner == p.spawner && (p.os == Reaped ==> q.os == Reaped) && (p.failed ==> q.failed)
  }

  predicate AllStay(s: State, t: State) {
    |s.procs| <= |t.procs| && forall k :: 0 <= k < |s.procs| ==> Stays(s.procs[k], t.procs[k])
  }

  lemma ActStays(s: State, i: nat, order: seq<nat>)
    requires Possible(s, Act(i, order))
    ensures AllStay(s, ActWithLock(s, i, order))
  {
    match s.callers[i].call
    case Spawn(k) =>
      if k < |s.procs| {
        var procs := MoveControls(s.procs, EntryOf(s, s.procs[k].pid), Dropped);
        assert ActWithLock(s, i, order).procs == MoveControls(procs, {k}, InTable);
      }
    case Stop(pid) =>
      assert ActWithLock(s, i, order).procs == MoveControls(s.procs, EntryOf(s, pid), HeldBy(i));
    case DropRunner =>
      assert ActWithLock(s, i, order).procs == MoveControls(s.procs, s.table.Values, HeldBy(i));
  }

  lemma CallerStepStays(s: State, e: Step)
    requires Possible(s, e) && (e.Send? || e.Receive? || e.Launch?)
    ensures AllStay(s, Do(s, e))
  {
  }

  lemma ReaperStepStays(s: State, e: Step)
    requires Possible(s, e) && (e.StopChild? || e.TryWait? || e.Notify? || e.SendReply?)
    ensures AllStay(s, Do(s, e))
  {
  }

  lemma StepStays(s: State, e: Step)
    requires Possible(s, e)
    ensures AllStay(s, Do(s, e))
  {
    if e.Act? {
      ActStays(s, e.i, e.order);
    } else if e.Send? || e.Receive? || e.Launch? {
      CallerStepStays(s, e);
    } else if e.StopChild? || e.TryWait? || e.Notify? || e.SendReply? {
      ReaperStepStays(s, e);
    } else {
      assert AllStay(s, Do(s, e));
    }
  }

  // ------------------------------------------------------------- what every step keeps

  /** A caller keeps what it was told as long as only its place in the call changes. */
  lemma SameAnswers(s: State, t: State, i: nat)
    requires AllStay(s, t) && i < |s.callers| && i < |t.callers| && AnswersOk(s, i)
    requires t.callers[i] == s.callers[i].(pc := t.callers[i].pc)
    requires t.callers[i].pc in {Want, Holding} ==> s.callers[i].pc in {Want, Holding}
    ensures AnswersOk(t, i)
  {
  }

  lemma NewReply(s: State, t: State, i: nat, r: Reply)
    requires AllStay(s, t) && i < |s.callers| && i < |t.callers| && AnswersOk(s, i)
    requires t.callers[i] == s.callers[i].(reply := r)
    requires s.callers[i].owned != [] && s.callers[i].owned[0] < |s.procs| && TrueOf(r, t.procs[s.callers[i].owned[0]])
    ensures AnswersOk(t, i)
  {
  }

  /** The call goes on to its next child, with an answer about this one. */
  lemma NewAnswer(s: State, t: State, i: nat, k: nat, r: Reply)
    requires AllStay(s, t) && i < |s.callers| && i < |t.callers| && AnswersOk(s, i)
    requires s.callers[i].owned != [] && s.callers[i].owned[0] == k && k < |s.procs| && k in s.callers[i].took
    requires s.callers[i].pc !in {Want, Holding} && r != NoReply && TrueOf(r, s.procs[k])
    requires var c := s.callers[i];
             t.callers[i] == c.(pc := Sending, owned := c.owned[1..], reply := NoReply, answers := c.answers[k := r])
    requires forall b :: 0 <= b < |s.callers[i].owned| ==> s.callers[i].owned[b] < |s.procs|
    ensures AnswersOk(t, i)
  {
    var c, d := s.callers[i], t.callers[i];
    forall j | j in d.took ensures j in d.owned || j in d.answers {
      assert j in c.owned ==> j == k || j in c.owned[1..];
    }
  }

  lemma ActAnswers(s: State, e: Step)
    requires Inv(s) && Enabled(s, e) && e.Act? && AnswersOkAt(s, e.i)
    ensures AnswersOk(Do(s, e), e.i)
  {
    assert CallerOk(s, e.i);
    match s.callers[e.i].call
    case Spawn(_) => SpawnActAnswers(s, e);
    case Stop(_) => StopActAnswers(s, e);
    case DropRunner => DropActAnswers(s, e);
  }

  /** The call has taken these controls out of the table. */
  lemma TakesControls(s: State, t: State, i: nat, owned: seq<nat>, took: set<nat>)
    requires AllStay(s, t) && AnswersOkAt(s, i) && s.callers[i].pc == Holding && i < |t.callers|
    requires t.callers[i] == s.callers[i].(pc := Sending, owned := owned, took := took)
    requires s.callers[i].reply == NoReply && forall k :: k in owned <==> k in took
    requires forall k :: k in took ==> k < |s.procs| && (s.callers[i].call.Stop? ==> s.procs[k].pid == s.callers[i].call.pid)
    ensures AnswersOk(t, i)
  {
    assert owned != [] ==> owned[0] in owned;
  }

  lemma SpawnActAnswers(s: State, e: Step)
    requires Inv(s) && Enabled(s, e) && e.Act? && AnswersOkAt(s, e.i) && s.callers[e.i].call.Spawn?
    ensures AnswersOk(Do(s, e), e.i)
  {
    StepStays(s, e);
    assert CallerOk(s, e.i);
    SameAnswers(s, Do(s, e), e.i);
  }

  lemma StopActAnswers(s: State, e: Step)
    requires Inv(s) && Enabled(s, e) && e.Act? && AnswersOkAt(s, e.i) && s.callers[e.i].call.Stop?
    ensures AnswersOk(Do(s, e), e.i)
  {
    var pid := s.callers[e.i].call.pid;
    StepStays(s, e);
    assert CallerOk(s, e.i);
    TakesControls(s, Do(s, e), e.i, if pid in s.table then [s.table[pid]] else [], EntryOf(s, pid));
  }

  lemma TableChildren(s: State, order: seq<nat>)
    requires TableOk(s) && Enumerates(order, s.table)
    ensures forall k :: k in order <==> k in s.table.Values
    ensures forall k :: k in s.table.Values ==> k < |s.procs|
  {
    assert forall k :: k in order <==> k in (set j | j in order);
  }

  lemma DropActAnswers(s: State, e: Step)
    requires Inv(s) && Enabled(s, e) && e.Act? && AnswersOkAt(s, e.i) && s.callers[e.i].call.DropRunner?
    ensures AnswersOk(Do(s, e), e.i)
  {
    StepStays(s, e);
    assert CallerOk(s, e.i);
    TableChildren(s, e.order);
    TakesControls(s, Do(s, e), e.i, e.order, s.table.Values);
  }

  lemma SendAnswers(s: State, e: Step)
    requires Inv(s) && Enabled(s, e) && e.Send? && AnswersOkAt(s, e.i)
    ensures AnswersOk(Do(s, e), e.i)
  {
    var c, t := s.callers[e.i], Do(s, e);
    var k := c.owned[0];
    StepStays(s, e);
    SendFacts(s, e.i);
    assert CallerOk(s, e.i) && ProcOk(s, k);
    if s.procs[k].pc == Finished {
      assert c.owned[0] == k && k in c.owned;
      NewAnswer(s, t, e.i, k, ChannelClosed);
    } else {
      SameAnswers(s, t, e.i);
    }
  }

  lemma ReceiveAnswers(s: State, e: Step)
    requires Inv(s) && Enabled(s, e) && e.Receive? && AnswersOkAt(s, e.i)
    ensures AnswersOk(Do(s, e), e.i)
  {
    var c, t := s.callers[e.i], Do(s, e);
    StepStays(s, e);
    assert CallerOk(s, e.i);
    var k := c.owned[0];
    assert c.owned[0] == k && k in c.owned;
    NewAnswer(s, t, e.i, k, c.reply);
  }

  lemma NotifyCallers(s: State, e: Step, i: nat)
    requires Possible(s, e) && e.Notify? && i < |s.callers|
    ensures i < |Do(s, e).callers|
    ensures Do(s, e).callers[i]
            == if i in s.procs[e.k].inbox then s.callers[i].(reply := ChannelClosed) else s.callers[i]
  {
  }

  lemma ClosedAnswers(s: State, t: State, k: nat, i: nat)
    requires Inv(s) && AllStay(s, t) && AnswersOkAt(s, i) && k < |s.procs| && s.procs[k].pc == Notifying
    requires i in s.procs[k].inbox && i < |t.callers| && t.callers[i] == s.callers[i].(reply := ChannelClosed)
    ensures AnswersOk(t, i)
  {
    assert ProcOk(s, k);
    assert s.procs[k].inbox[0] == i;
    NewReply(s, t, i, ChannelClosed);
  }

  lemma NotifyAnswers(s: State, e: Step, i: nat)
    requires Inv(s) && Enabled(s, e) && e.Notify? && AnswersOkAt(s, i)
    ensures AnswersOk(Do(s, e), i)
  {
    StepStays(s, e);
    NotifyCallers(s, e, i);
    if i in s.procs[e.k].inbox {
      ClosedAnswers(s, Do(s, e), e.k, i);
    } else {
      SameAnswers(s, Do(s, e), i);
    }
  }

  lemma SendReplyAnswers(s: State, e: Step, i: nat)
    requires Inv(s) && Enabled(s, e) && e.SendReply? && AnswersOkAt(s, i)
    ensures AnswersOk(Do(s, e), i)
  {
    StepStays(s, e);
    assert ProcOk(s, e.k);
    if i == s.procs[e.k].pc.caller {
      NewReply(s, Do(s, e), i, Answered(s.procs[e.k].pc.ok));
    } else {
      SameAnswers(s, Do(s, e), i);
    }
  }

  /** The other steps only move callers on, if they touch them at all. */
  lemma QuietAnswers(s: State, e: Step, i: nat)
    requires Inv(s) && AnswersOkAt(s, i) && Enabled(s, e)
    requires !e.Act? && !e.Send? && !e.Receive? && !e.Notify? && !e.SendReply?
    ensures AnswersOk(Do(s, e), i)
  {
    StepStays(s, e);
    QuietCallers(s, e, i);
    SameAnswers(s, Do(s, e), i);
  }

  lemma QuietCallers(s: State, e: Step, i: nat)
    requires Possible(s, e) && i < |s.callers|
    requires !e.Act? && !e.Send? && !e.Receive? && !e.Notify? && !e.SendReply?
    ensures i < |Do(s, e).callers|
    ensures var c, d := s.callers[i], Do(s, e).callers[i];
            d == c.(pc := d.pc) && (d.pc in {Want, Holding} ==> c.pc in {Want, Holding})
  {
  }

  /** A step of another caller leaves this one alone. */
  lemma OtherCallers(s: State, e: Step, i: nat)
    requires Possible(s, e) && i < |s.callers| && (e.Act? || e.Send? || e.Receive?) && e.i != i
    ensures i < |Do(s, e).callers| && Do(s, e).callers[i] == s.callers[i]
  {
  }

  lemma OwnAnswers(s: State, e: Step)
    requires Inv(s) && Enabled(s, e) && (e.Act? || e.Send? || e.Receive?) && AnswersOkAt(s, e.i)
    ensures e.i < |Do(s, e).callers| && AnswersOk(Do(s, e), e.i)
  {
    match e
    case Act(_, _) => ActAnswers(s, e);
    case Send(_) => SendAnswers(s, e);
    case Receive(_) => ReceiveAnswers(s, e);
  }

  lemma CallersStay(s: State, e: Step)
    requires Possible(s, e)
    ensures |s.callers| <= |Do(s, e).callers|
  {
  }

  lemma CallerAnswers(s: State, e: Step, i: nat)
    requires Inv(s) && AllAnswersOk(s) && Enabled(s, e) && i < |s.callers|
    ensures i < |Do(s, e).callers| && AnswersOk(Do(s, e), i)
  {
    CallersStay(s, e);
    assert AnswersOkAt(s, i);
    if e.Act? || e.Send? || e.Receive? {
      if e.i == i {
        OwnAnswers(s, e);
      } else {
        StepStays(s, e);
        OtherCallers(s, e, i);
        SameAnswers(s, Do(s, e), i);
      }
    } else if e.Notify? {
      NotifyAnswers(s, e, i);
    } else if e.SendReply? {
      SendReplyAnswers(s, e, i);
    } else {
      QuietAnswers(s, e, i);
    }
  }

  lemma NewCallers(s: State, e: Step, i: nat)
    requires Possible(s, e) && |s.callers| <= i < |Do(s, e).callers|
    ensures AnswersOk(Do(s, e), i)
  {
  }

  lemma StepKeepsAnswers(s: State, e: Step)
    requires Inv(s) && AllAnswersOk(s) && Enabled(s, e)
    ensures AllAnswersOk(Do(s, e))
  {
    forall i | 0 <= i < |Do(s, e).callers| ensures AnswersOk(Do(s, e), i) {
      if i < |s.callers| {
        CallerAnswers(s, e, i);
      } else {
        NewCallers(s, e, i);
      }
    }
  }

  lemma {:induction false} RunKeepsAnswers(states: seq<State>, steps: seq<Step>, n: nat)
    requires Run(states, steps) && n <= |steps|
    ensures AllAnswersOk(states[n])
  {
    if n > 0 {
      RunKeepsAnswers(states, steps, n - 1);
      RunKeepsInv(states, steps, n - 1);
      assert Enabled(states[n - 1], steps[n - 1]);
      StepKeepsAnswers(states[n - 1], steps[n - 1]);
    }
  }

  /**
   * A returned stop has an answer about each child it took. It reports an error exactly
   * when a reaper answered with one, and then the system had failed on that child; a
   * reaper that answered with success has reaped its child. Without a child to stop, and
   * where the channel was closed, the stop succeeds.
   */
  lemma StopAnswers(states: seq<State>, steps: seq<Step>, n: nat, i: nat)
    requires Run(states, steps) && n <= |steps|
    requires i < |states[n].callers| && states[n].callers[i].pc == Done && states[n].callers[i].call.Stop?
    ensures var s, c := states[n], states[n].callers[i];
            && c.answers.Keys == c.took
            && (forall k :: k in c.took ==>
                  && k < |s.procs|
                  && s.procs[k].pid == c.call.pid
                  && (c.answers[k] == Answered(true) ==> s.procs[k].os == Reaped)
                  && (c.answers[k] == Answered(false) ==> s.procs[k].failed)
                  && (c.answers[k] == ChannelClosed ==> s.procs[k].os == Reaped || s.procs[k].failed)
                  && c.answers[k] != NoReply)
            && (c.StopSucceeds() <==> forall k :: k in c.took ==> c.answers[k] == Answered(true) || c.answers[k] == ChannelClosed)
  {
    RunKeepsInv(states, steps, n);
    RunKeepsAnswers(states, steps, n);
    assert CallerOk(states[n], i);
    assert AnswersOk(states[n], i);
  }

  /** Without errors of the system a stop succeeds, and its child is reaped. */
  lemma StopSucceedsWithoutErrors(states: seq<State>, steps: seq<Step>, n: nat, i: nat)
    requires Run(states, steps) && n <= |steps|
    requires i < |states[n].callers| && states[n].callers[i].pc == Done && states[n].callers[i].call.Stop?
    requires forall k :: 0 <= k < |states[n].procs| ==> !states[n].procs[k].failed
    ensures states[n].callers[i].StopSucceeds()
    ensures forall k :: k in states[n].callers[i].took ==> k < |states[n].procs| && states[n].procs[k].os == Reaped
  {
    var s, c := states[n], states[n].callers[i];
    StopAnswers(states, steps, n, i);
    forall k | k in c.took ensures k < |s.procs| && c.answers[k] != Answered(false) && s.procs[k].os == Reaped {
      assert !s.procs[k].failed;
    }
  }

  // ------------------------------------------------------- stops of the same child

  /** The stop by caller `i` of a child `k` in the table has not found the table yet, or nobody finds `k` there any more. */
  ghost predicate StopCovers(s: State, i: nat, k: nat) {
    && i < |s.callers| && s.callers[i].call.Stop?
    && k < |s.procs| && s.procs[k].pid == s.callers[i].call.pid
    && s.procs[k].control != NotMade
    && (s.callers[i].pc in {Want, Holding} || s.procs[k].control != InTable)
  }

  lemma SpawnActControl(s: State, e: Step, k: nat)
    requires Inv(s) && Enabled(s, e) && e.Act? && k < |s.procs| && s.callers[e.i].call.Spawn?
    requires s.procs[k].control != NotMade
    ensures k < |Do(s, e).procs| && Do(s, e).procs[k].control in {s.procs[k].control, Dropped}
  {
    assert CallerOk(s, e.i);
    assert ProcOk(s, s.callers[e.i].call.child);
  }

  lemma ActControl(s: State, e: Step, k: nat)
    requires Possible(s, e) && e.Act? && k < |s.procs| && !s.callers[e.i].call.Spawn?
    ensures k < |Do(s, e).procs| && Do(s, e).procs[k].control in {s.procs[k].control, HeldBy(e.i)}
  {
  }

  /** A control that has left the table does not come back. */
  lemma StepControl(s: State, e: Step, k: nat)
    requires Inv(s) && Enabled(s, e) && k < |s.procs| && s.procs[k].control != NotMade
    ensures k < |Do(s, e).procs| && Do(s, e).procs[k].control != NotMade
    ensures s.procs[k].control != InTable ==> Do(s, e).procs[k].control != InTable
  {
    if e.Act? {
      if s.callers[e.i].call.Spawn? {
        SpawnActControl(s, e, k);
      } else {
        ActControl(s, e, k);
      }
    } else {
      OtherControl(s, e, k);
    }
  }

  lemma OtherControl(s: State, e: Step, k: nat)
    requires Possible(s, e) && !e.Act? && k < |s.procs|
    ensures k < |Do(s, e).procs|
    ensures Do(s, e).procs[k].control == s.procs[k].control || Do(s, e).procs[k].control == Dropped
  {
  }

  /** The stop finds every child of its pid that is in the table. */
  lemma StopTakes(s: State, e: Step, k: nat)
    requires Inv(s) && Enabled(s, e) && e.Act? && s.callers[e.i].call.Stop?
    requires k < |s.procs| && s.procs[k].pid == s.callers[e.i].call.pid && s.procs[k].control == InTable
    ensures k < |Do(s, e).procs| && Do(s, e).procs[k].control == HeldBy(e.i)
  {
    assert ProcOk(s, k);
  }

  /** Nothing but its own look into the table ends a caller's way there. */
  lemma StillSearching(s: State, e: Step, i: nat)
    requires Possible(s, e) && i < |s.callers|
    ensures i < |Do(s, e).callers| && Do(s, e).callers[i].call == s.callers[i].call
    ensures s.callers[i].pc in {Want, Holding} && Do(s, e).callers[i].pc !in {Want, Holding}
            ==> e.Act? && e.i == i
    ensures s.callers[i].pc !in {Want, Holding} ==> Do(s, e).callers[i].pc !in {Want, Holding}
  {
    if e.Act? {
      ActCallers(s, e, i);
    } else if e.Send? || e.Receive? || e.Notify? || e.SendReply? {
      ReplyCallers(s, e, i);
    } else {
      QuietCallers(s, e, i);
      CallsStay(s, e, i);
    }
  }

  lemma ActCallers(s: State, e: Step, i: nat)
    requires Possible(s, e) && e.Act? && i < |s.callers|
    ensures i < |Do(s, e).callers| && Do(s, e).callers[i].call == s.callers[i].call
    ensures e.i != i ==> Do(s, e).callers[i] == s.callers[i]
    ensures s.callers[i].pc !in {Want, Holding} ==> Do(s, e).callers[i].pc !in {Want, Holding}
  {
  }

  lemma ReplyCallers(s: State, e: Step, i: nat)
    requires Possible(s, e) && (e.Send? || e.Receive? || e.Notify? || e.SendReply?) && i < |s.callers|
    ensures i < |Do(s, e).callers| && Do(s, e).callers[i].call == s.callers[i].call
    ensures Do(s, e).callers[i].pc == s.callers[i].pc
            || (s.callers[i].pc in {Sending, Awaiting} && Do(s, e).callers[i].pc in {Sending, Awaiting})
  {
  }

  lemma CallsStay(s: State, e: Step, i: nat)
    requires Possible(s, e) && !e.Act? && !e.Send? && !e.Receive? && !e.Notify? && !e.SendReply? && i < |s.callers|
    ensures i < |Do(s, e).callers| && Do(s, e).callers[i].call == s.callers[i].call
    ensures s.callers[i].pc in {Want, Holding} ==> Do(s, e).callers[i].pc in {Want, Holding}
  {
  }

  lemma StepKeepsCover(s: State, e: Step, i: nat, k: nat)
    requires Inv(s) && Enabled(s, e) && StopCovers(s, i, k)
    ensures StopCovers(Do(s, e), i, k)
  {
    StepStays(s, e);
    StepControl(s, e, k);
    StillSearching(s, e, i);
    if e.Act? && e.i == i && s.procs[k].control == InTable {
      StopTakes(s, e, k);
    }
  }

  lemma {:induction false} RunKeepsCover(states: seq<State>, steps: seq<Step>, m: nat, n: nat, i: nat, k: nat)
    requires Run(states, steps) && m <= n <= |steps| && StopCovers(states[m], i, k)
    ensures StopCovers(states[n], i, k)
    decreases n - m
  {
    if m < n {
      RunKeepsInv(states, steps, m);
      assert Enabled(states[m], steps[m]);
      StepKeepsCover(states[m], steps[m], i, k);
      RunKeepsCover(states, steps, m + 1, n, i, k);
    }
  }

  /**
   * A stop begun (in state `m`) when a child with its pid had been started finds that child:
   * when it returns (in state `n`), the child has been reaped, or the system has failed on
   * it, unless another stop or the drop is still at work on it.
   */
  lemma StopEndsLaunched(states: seq<State>, steps: seq<Step>, m: nat, n: nat, i: nat, k: nat)
    requires Run(states, steps) && m <= n <= |steps|
    requires i < |states[m].callers| && states[m].callers[i].pc == Want && states[m].callers[i].call.Stop?
    requires k < |states[m].procs| && states[m].procs[k].pid == states[m].callers[i].call.pid
    requires states[m].procs[k].pc != Unstarted
    requires i < |states[n].callers| && states[n].callers[i].pc == Done
    ensures k < |states[n].procs|
    ensures GoneOrFailed(states[n].procs[k])
            || exists j :: 0 <= j < |states[n].callers| && j != i && k in states[n].callers[j].owned && states[n].callers[j].pc != Done
  {
    RunKeepsInv(states, steps, m);
    assert ProcOk(states[m], k);
    assert StopCovers(states[m], i, k);
    RunKeepsCover(states, steps, m, n, i, k);
    RunKeepsInv(states, steps, n);
    assert ProcOk(states[n], k);
    if states[n].procs[k].control.HeldBy? {
      var j := states[n].procs[k].control.caller;
      assert CallerOk(states[n], j) && CallerOk(states[n], i);
      assert k in states[n].callers[j].owned;
    }
  }
}
