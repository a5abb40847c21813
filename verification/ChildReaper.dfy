/**
 * The child-process runner as a transition system. Callers spawn, stop and finally drop;
 * one reaper thread per child polls for a stop command or for the child's exit. They share
 * a table of control channels under a lock. A step is what one thread does between two
 * points where another may run; lock and unlock are points of their own.
 */
module ChildReaper {
  import opened Text

  type Pid = nat

  /** What the operating system knows of a child; an exited child waits to be reaped. */
  datatype Os = Running | Exited | Reaped

  datatype ReaperPc =
    | Unstarted
    | Polling
    | Checking
    | Removing
    | Locked
    | Notifying
    | StopCheck(caller: nat)
    | StopKill(caller: nat)
    | StopWait(caller: nat)
    | StopReply(caller: nat, ok: bool)
    | Disconnected
    | Finished
  {
    predicate Serves(i: nat) {
      this == StopCheck(i) || this == StopKill(i) || this == StopWait(i) || (StopReply? && caller == i)
    }

    predicate Serving() {
      StopCheck? || StopKill? || StopWait? || StopReply?
    }
  }

  /** Where the sending half of a child's control channel is. */
  datatype Control = NotMade | InTable | HeldBy(caller: nat) | Dropped

  /** One child, its control channel and its reaper. `failed` notes an error of the OS. */
  datatype Proc = Proc(
    pid: Pid,
    spawner: nat,
    hasHandler: bool,
    os: Os,
    pc: ReaperPc,
    control: Control,
    inbox: seq<nat>,
    handlerCalls: nat,
    stopsHandled: nat,
    exitsReported: nat,
    failed: bool)

  datatype Call = Spawn(child: nat) | Stop(pid: Pid) | DropRunner

  datatype CallerPc = Want | Holding | Launching | Sending | Awaiting | Done

  datatype Reply = NoReply | Answered(ok: bool) | ChannelClosed

  /**
   * A thread inside one call. `owned` are the controls it holds, `took` all it ever held;
   * `answers` is what it was told about each child it has stopped.
   */
  datatype Caller = Caller(
    call: Call,
    pc: CallerPc,
    owned: seq<nat>,
    took: set<nat>,
    reply: Reply,
    answers: map<nat, Reply>)
  {
    /** What `stop` returns: the reaper's answer, and success if there was nobody to answer. */
    predicate StopSucceeds() {
      forall k :: k in answers ==> !answers[k].Answered? || answers[k].ok
    }
  }

  datatype Holder = ByCaller(i: nat) | ByReaper(k: nat)

  datatype State = State(
    procs: seq<Proc>,
    callers: seq<Caller>,
    table: map<Pid, nat>,
    lock: Option<Holder>,
    dropper: Option<nat>)

  const INIT := State([], [], map[], None, None)

  datatype Step =
    | BeginSpawn(pid: Pid, hasHandler: bool)
    | BeginStop(pid: Pid)
    | BeginDrop
    | Acquire(i: nat)
    | Act(i: nat, order: seq<nat>)
    | Launch(i: nat)
    | Send(i: nat)
    | Receive(i: nat)
    | Return(i: nat)
    | TakeStop(k: nat)
    | Timeout(k: nat)
    | SeeDisconnected(k: nat)
    | TryWait(k: nat, error: bool)
    | ReaperAcquire(k: nat)
    | ReaperRemove(k: nat)
    | UpgradeFails(k: nat)
    | Notify(k: nat)
    | StopChild(k: nat, error: bool)
    | SendReply(k: nat)
    | ChildExits(k: nat)

  predicate AllDone(s: State) {
    forall i :: 0 <= i < |s.callers| ==> s.callers[i].pc == Done
  }

  /** No unfinished reaper has this pid. */
  predicate FreshPid(s: State, pid: Pid) {
    forall k :: 0 <= k < |s.procs| && s.procs[k].pid == pid ==> s.procs[k].pc == Finished
  }

  predicate Enumerates(order: seq<nat>, table: map<Pid, nat>) {
    && (forall a, b :: 0 <= a < b < |order| ==> order[a] != order[b])
    && (set k | k in order) == table.Values
  }

  /** The threads can take this step; what pid a new child gets is up to the system. */
  predicate Possible(s: State, e: Step) {
    match e
    case BeginSpawn(_, _) => s.dropper.None?
    case BeginStop(_) => s.dropper.None?
    // Dropping needs exclusive access, so no call is in progress.
    case BeginDrop => s.dropper.None? && AllDone(s)
    case Acquire(i) => i < |s.callers| && s.callers[i].pc == Want && s.lock.None?
    case Act(i, order) =>
      i < |s.callers| && s.callers[i].pc == Holding && (s.callers[i].call.DropRunner? ==> Enumerates(order, s.table))
    case Launch(i) => i < |s.callers| && s.callers[i].pc == Launching
    case Send(i) => i < |s.callers| && s.callers[i].pc == Sending && s.callers[i].owned != []
    case Receive(i) => i < |s.callers| && s.callers[i].pc == Awaiting && s.callers[i].reply != NoReply
    case Return(i) => i < |s.callers| && s.callers[i].pc == Sending && s.callers[i].owned == []
    case TakeStop(k) => k < |s.procs| && s.procs[k].pc == Polling && s.procs[k].inbox != []
    case Timeout(k) =>
      k < |s.procs| && s.procs[k].pc == Polling && s.procs[k].inbox == [] && !s.procs[k].control.Dropped?
    case SeeDisconnected(k) =>
      k < |s.procs| && s.procs[k].pc == Polling && s.procs[k].inbox == [] && s.procs[k].control.Dropped?
    case TryWait(k, _) => k < |s.procs| && s.procs[k].pc == Checking
    case ReaperAcquire(k) => k < |s.procs| && s.procs[k].pc == Removing && s.lock.None?
    case ReaperRemove(k) => k < |s.procs| && s.procs[k].pc == Locked
    case UpgradeFails(k) =>
      k < |s.procs| && s.procs[k].pc == Removing
      && s.dropper.Some? && s.dropper.value < |s.callers| && s.callers[s.dropper.value].pc == Done
    case Notify(k) => k < |s.procs| && s.procs[k].pc == Notifying
    case StopChild(k, _) =>
      // Waiting for a child ends when the child has.
      k < |s.procs| && (s.procs[k].pc.StopCheck? || s.procs[k].pc.StopKill?
                        || (s.procs[k].pc.StopWait? && s.procs[k].os != Running))
    case SendReply(k) => k < |s.procs| && s.procs[k].pc.StopReply?
    case ChildExits(k) => k < |s.procs| && s.procs[k].os == Running
  }

  /** A possible step; a new child gets a pid that no unfinished reaper has. */
  predicate Enabled(s: State, e: Step) {
    Possible(s, e) && (e.BeginSpawn? ==> FreshPid(s, e.pid))
  }

  function SetProc(s: State, k: nat, p: Proc): State
    requires k < |s.procs|
  {
    s.(procs := s.procs[k := p])
  }

  function SetCaller(s: State, i: nat, c: Caller): State
    requires i < |s.callers|
  {
    s.(callers := s.callers[i := c])
  }

  /** The controls of the listed children move to `to`. */
  function MoveControls(procs: seq<Proc>, ids: set<nat>, to: Control): (r: seq<Proc>)
    ensures |r| == |procs|
    ensures forall k :: 0 <= k < |r| ==> r[k] == if k in ids then procs[k].(control := to) else procs[k]
  {
    seq(|procs|, k requires 0 <= k < |procs| => if k in ids then procs[k].(control := to) else procs[k])
  }

  /** The receiving half of a channel goes away: whoever still waits in it learns so. */
  function CloseInbox(callers: seq<Caller>, inbox: seq<nat>): (r: seq<Caller>)
    ensures |r| == |callers|
    ensures forall i :: 0 <= i < |r| ==> r[i] == if i in inbox then callers[i].(reply := ChannelClosed) else callers[i]
  {
    seq(|callers|, i requires 0 <= i < |callers| =>
      if i in inbox then callers[i].(reply := ChannelClosed) else callers[i])
  }

  /** The entry of `pid`, if there is one. */
  function EntryOf(s: State, pid: Pid): set<nat> {
    if pid in s.table then {s.table[pid]} else {}
  }

  function ActWithLock(s: State, i: nat, order: seq<nat>): State
    requires i < |s.callers|
  {
    var c := s.callers[i];
    match c.call
    case Spawn(k) =>
      if k < |s.procs| then
        var pid := s.procs[k].pid;
        // Replacing an entry drops the control it held.
        s.(procs := MoveControls(MoveControls(s.procs, EntryOf(s, pid), Dropped), {k}, InTable),
           table := s.table[pid := k],
           callers := s.callers[i := c.(pc := Launching)],
           lock := None)
      else s
    case Stop(pid) =>
      var ids := EntryOf(s, pid);
      var owned := if pid in s.table then [s.table[pid]] else [];
      s.(procs := MoveControls(s.procs, ids, HeldBy(i)),
         table := s.table - {pid},
         callers := s.callers[i := c.(pc := Sending, owned := owned, took := ids)],
         lock := None)
    case DropRunner =>
      s.(procs := MoveControls(s.procs, s.table.Values, HeldBy(i)),
         table := map[],
         callers := s.callers[i := c.(pc := Sending, owned := order, took := s.table.Values)],
         lock := None)
  }

  function SendStop(s: State, i: nat): State
    requires i < |s.callers| && s.callers[i].owned != []
  {
    var c := s.callers[i];
    var k := c.owned[0];
    if k < |s.procs| then
      if s.procs[k].pc == Finished then
        // The receiver is gone: the call to stop this child returns at once.
        SetCaller(SetProc(s, k, s.procs[k].(control := Dropped)), i,
                  c.(owned := c.owned[1..], answers := c.answers[k := ChannelClosed]))
      else
        SetCaller(SetProc(s, k, s.procs[k].(inbox := s.procs[k].inbox + [i])), i, c.(pc := Awaiting))
    else s
  }

  function FinishReaper(s: State, k: nat, p: Proc): State
    requires k < |s.procs|
  {
    SetProc(s, k, p.(pc := Finished, inbox := [])).(callers := CloseInbox(s.callers, p.inbox))
  }

  function StopChildStep(p: Proc, error: bool): Proc
    requires p.pc.StopCheck? || p.pc.StopKill? || p.pc.StopWait?
  {
    var i := p.pc.caller;
    if error then p.(failed := true, pc := StopReply(i, false))
    else
      match p.pc
      case StopCheck(_) => if p.os == Running then p.(pc := StopKill(i)) else p.(os := Reaped, pc := StopReply(i, true))
      case StopKill(_) => p.(os := if p.os == Running then Exited else p.os, pc := StopWait(i))
      case _ => p.(os := Reaped, pc := StopReply(i, true))
  }

  function Do(s: State, e: Step): State
    requires Possible(s, e)
  {
    match e
    case BeginSpawn(pid, hasHandler) =>
      s.(procs := s.procs + [Proc(pid, |s.callers|, hasHandler, Running, Unstarted, NotMade, [], 0, 0, 0, false)],
         callers := s.callers + [Caller(Spawn(|s.procs|), Want, [], {}, NoReply, map[])])
    case BeginStop(pid) => s.(callers := s.callers + [Caller(Stop(pid), Want, [], {}, NoReply, map[])])
    case BeginDrop =>
      s.(callers := s.callers + [Caller(DropRunner, Want, [], {}, NoReply, map[])], dropper := Some(|s.callers|))
    case Acquire(i) => SetCaller(s, i, s.callers[i].(pc := Holding)).(lock := Some(ByCaller(i)))
    case Act(i, order) => ActWithLock(s, i, order)
    case Launch(i) =>
      var c := s.callers[i];
      if c.call.Spawn? && c.call.child < |s.procs| then
        SetCaller(SetProc(s, c.call.child, s.procs[c.call.child].(pc := Polling)), i, c.(pc := Done))
      else s
    case Send(i) => SendStop(s, i)
    case Receive(i) =>
      var c := s.callers[i];
      if c.owned != [] && c.owned[0] < |s.procs| then
        var k := c.owned[0];
        SetCaller(SetProc(s, k, s.procs[k].(control := Dropped)), i,
                  c.(pc := Sending, owned := c.owned[1..], reply := NoReply, answers := c.answers[k := c.reply]))
      else s
    case Return(i) => SetCaller(s, i, s.callers[i].(pc := Done))
    case TakeStop(k) =>
      var p := s.procs[k];
      SetProc(s, k, p.(pc := StopCheck(p.inbox[0]), inbox := p.inbox[1..]))
    case Timeout(k) => SetProc(s, k, s.procs[k].(pc := Checking))
    case SeeDisconnected(k) => SetProc(s, k, s.procs[k].(pc := Disconnected))
    case TryWait(k, error) =>
      var p := s.procs[k];
      SetProc(s, k,
        if error then p.(failed := true, pc := Removing)
        else if p.os == Running then p.(pc := Polling)
        else p.(os := Reaped, pc := Removing))
    case ReaperAcquire(k) => SetProc(s, k, s.procs[k].(pc := Locked)).(lock := Some(ByReaper(k)))
    case ReaperRemove(k) =>
      var pid := s.procs[k].pid;
      var procs := MoveControls(s.procs, EntryOf(s, pid), Dropped);
      s.(procs := procs[k := procs[k].(pc := Notifying)], table := s.table - {pid}, lock := None)
    case UpgradeFails(k) => SetProc(s, k, s.procs[k].(pc := Notifying))
    case Notify(k) =>
      var p := s.procs[k];
      FinishReaper(s, k, p.(
        handlerCalls := p.handlerCalls + if p.hasHandler then 1 else 0,
        exitsReported := p.exitsReported + 1))
    case StopChild(k, error) => SetProc(s, k, StopChildStep(s.procs[k], error))
    case SendReply(k) =>
      var p := s.procs[k];
      var answered :=
        if p.pc.caller < |s.callers| then
          SetCaller(s, p.pc.caller, s.callers[p.pc.caller].(reply := Answered(p.pc.ok)))
        else s;
      FinishReaper(answered, k, p.(stopsHandled := p.stopsHandled + 1))
    case ChildExits(k) => SetProc(s, k, s.procs[k].(os := Exited))
  }
}
