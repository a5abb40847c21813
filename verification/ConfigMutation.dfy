/**
 * Configuration mutations: each takes the mutation lock, snapshots memory, opens a
 * transaction, edits both, commits the store and then publishes to memory. Any number of
 * tasks interleave, any step of the store may fail, a task may be abandoned before its
 * commit, and the process may crash and reload between any two steps.
 */
module ConfigMutation {
  import opened Text
  import opened SettingsProjection

  /** Business rows that a mutation changes together with the configuration. */
  type Rows = map<string, string>

  datatype Image = Image(config: AppConfig, rows: Rows)
  datatype Store = Store(settings: Settings, state: StateRecord, rows: Rows)

  /** What a task does to its working copies; the store and the lock are not its business. */
  datatype Mutation = Mutation(run: Image -> Image)

  datatype TaskPc =
    | Waiting
    | HasLock
    | Snapped
    | Open
    | Edited
    | Saved
    | Committed
    | Ended(ok: bool)

  /** `working` and `staged` mean something from the step that fills them on. */
  datatype Task = Task(mutation: Mutation, pc: TaskPc, working: AppConfig, staged: Store)

  /** What has happened to the configuration so far. */
  datatype Event = Applied(mutation: Mutation, task: nat) | Reloaded

  datatype World = World(memory: AppConfig, store: Store, lock: Option<nat>, tasks: seq<Task>, history: seq<Event>)

  datatype Step =
    | Start(mutation: Mutation)
    | Lock(i: nat)
    | Snapshot(i: nat)
    | OpenTransaction(i: nat, ok: bool)
    | Edit(i: nat)
    | Save(i: nat, ok: bool)
    | Commit(i: nat, ok: bool)
    | Publish(i: nat)
    | Abandon(i: nat)
    | CrashAndReload

  predicate HoldsLock(pc: TaskPc) {
    pc != Waiting && !pc.Ended?
  }

  predicate At(w: World, i: nat, pc: TaskPc) {
    i < |w.tasks| && w.tasks[i].pc == pc
  }

  predicate Enabled(w: World, e: Step) {
    match e
    case Start(_) => true
    case Lock(i) => At(w, i, Waiting) && w.lock.None?
    case Snapshot(i) => At(w, i, HasLock)
    case OpenTransaction(i, _) => At(w, i, Snapped)
    case Edit(i) => At(w, i, Open)
    case Save(i, _) => At(w, i, Edited)
    case Commit(i, _) => At(w, i, Saved)
    case Publish(i) => At(w, i, Committed)
    // No task is interrupted between its commit and its publication.
    case Abandon(i) => i < |w.tasks| && !w.tasks[i].pc.Ended? && w.tasks[i].pc != Committed
    case CrashAndReload => ConfigFromSettings(w.store.settings, w.store.state).Ok?
  }

  function SetTask(w: World, i: nat, t: Task): World
    requires i < |w.tasks|
  {
    w.(tasks := w.tasks[i := t])
  }

  /** The guard is dropped: the transaction rolls back and the lock is released. */
  function EndTask(w: World, i: nat, ok: bool): World
    requires i < |w.tasks|
  {
    SetTask(w, i, w.tasks[i].(pc := Ended(ok))).(lock := if HoldsLock(w.tasks[i].pc) then None else w.lock)
  }

  function Do(w: World, e: Step): World
    requires Enabled(w, e)
  {
    match e
    case Start(m) => w.(tasks := w.tasks + [Task(m, Waiting, w.memory, w.store)])
    case Lock(i) => SetTask(w, i, w.tasks[i].(pc := HasLock)).(lock := Some(i))
    case Snapshot(i) => SetTask(w, i, w.tasks[i].(pc := Snapped, working := w.memory))
    case OpenTransaction(i, ok) =>
      if ok then SetTask(w, i, w.tasks[i].(pc := Open, staged := w.store)) else EndTask(w, i, false)
    case Edit(i) =>
      var t := w.tasks[i];
      var image := t.mutation.run(Image(t.working, t.staged.rows));
      SetTask(w, i, t.(pc := Edited, working := image.config, staged := t.staged.(rows := image.rows)))
    case Save(i, ok) =>
      var t := w.tasks[i];
      if ok then
        SetTask(w, i, t.(pc := Saved,
          staged := Store(SettingsFromConfig(t.working), StateFromConfig(t.working), t.staged.rows)))
      else EndTask(w, i, false)
    case Commit(i, ok) =>
      var t := w.tasks[i];
      if ok then
        SetTask(w, i, t.(pc := Committed)).(store := t.staged, history := w.history + [Applied(t.mutation, i)])
      else EndTask(w, i, false)
    case Publish(i) => EndTask(w, i, true).(memory := w.tasks[i].working)
    case Abandon(i) => EndTask(w, i, false)
    case CrashAndReload =>
      w.(memory := ConfigFromSettings(w.store.settings, w.store.state).config,
         lock := None,
         tasks := [],
         history := w.history + [Reloaded])
  }

  // ------------------------------------------------------------------ one after another

  /** The history replayed without any concurrency. */
  function Replay(first: Image, history: seq<Event>): Image {
    if history == [] then first
    else
      var before := Replay(first, history[..|history| - 1]);
      var last := history[|history| - 1];
      if last.Applied? then last.mutation.run(before) else before.(config := Canonical(before.config))
  }

  predicate StoreMatches(store: Store, image: Image) {
    && store.settings == SettingsFromConfig(image.config)
    && store.state == StateFromConfig(image.config)
    && store.rows == image.rows
  }

  /** The task that has committed but not yet published, if there is one. */
  predicate CommitPending(w: World) {
    w.lock.Some? && At(w, w.lock.value, Committed)
  }

  predicate TaskOk(w: World, i: nat)
    requires i < |w.tasks|
  {
    var t := w.tasks[i];
    && (HoldsLock(t.pc) <==> w.lock == Some(i))
    && (t.pc == Snapped || t.pc == Open ==> t.working == w.memory)
    && (t.pc == Open ==> t.staged == w.store)
    && (t.pc == Edited ==> Image(t.working, t.staged.rows) == t.mutation.run(Image(w.memory, w.store.rows)))
    && (t.pc == Saved ==> StoreMatches(t.staged, t.mutation.run(Image(w.memory, w.store.rows)))
                          && t.working == t.mutation.run(Image(w.memory, w.store.rows)).config)
  }

  ghost predicate Inv(w: World, first: Image) {
    && (forall i :: 0 <= i < |w.tasks| ==> TaskOk(w, i))
    && (w.lock.Some? ==> w.lock.value < |w.tasks|)
    && StoreMatches(w.store, Replay(first, w.history))
    && (if CommitPending(w) then w.tasks[w.lock.value].working == Replay(first, w.history).config
        else w.memory == Replay(first, w.history).config)
  }

  predicate Initial(w: World, first: Image) {
    var store := Store(SettingsFromConfig(first.config), StateFromConfig(first.config), first.rows);
    w == World(first.config, store, None, [], [])
  }

  lemma ReplayStep(first: Image, history: seq<Event>, e: Event)
    ensures Replay(first, history + [e]) ==
            if e.Applied? then e.mutation.run(Replay(first, history))
            else Replay(first, history).(config := Canonical(Replay(first, history).config))
  {
    assert (history + [e])[..|history|] == history;
  }

  lemma ReloadKeepsInv(w: World, first: Image)
    requires Inv(w, first) && Enabled(w, CrashAndReload)
    ensures Inv(Do(w, CrashAndReload), first)
  {
    ReplayStep(first, w.history, Reloaded);
    ReloadGivesCanonical(Replay(first, w.history).config);
    CanonicalIsStoredAlike(Replay(first, w.history).config);
  }

  lemma CommitKeepsInv(w: World, first: Image, i: nat)
    requires Inv(w, first) && Enabled(w, Commit(i, true))
    ensures Inv(Do(w, Commit(i, true)), first)
  {
    assert TaskOk(w, i);
    ReplayStep(first, w.history, Applied(w.tasks[i].mutation, i));
    KeepsTasks(w, Do(w, Commit(i, true)), first, i);
  }

  lemma PublishKeepsInv(w: World, first: Image, i: nat)
    requires Inv(w, first) && Enabled(w, Publish(i))
    ensures Inv(Do(w, Publish(i)), first)
  {
    assert TaskOk(w, i);
    KeepsTasks(w, Do(w, Publish(i)), first, i);
  }

  /** Locking, the snapshot and the steps between it and the commit. */
  lemma WorkKeepsInv(w: World, first: Image, e: Step, i: nat)
    requires Inv(w, first) && Enabled(w, e)
    requires e == Lock(i) || e == Snapshot(i) || e == OpenTransaction(i, true) || e == Edit(i) || e == Save(i, true)
    ensures Inv(Do(w, e), first)
  {
    assert TaskOk(w, i);
    KeepsTasks(w, Do(w, e), first, i);
  }

  /** A task that ends without a commit. */
  lemma EndKeepsInv(w: World, first: Image, e: Step, i: nat)
    requires Inv(w, first) && Enabled(w, e)
    requires e == OpenTransaction(i, false) || e == Save(i, false) || e == Commit(i, false) || e == Abandon(i)
    ensures Inv(Do(w, e), first)
  {
    assert TaskOk(w, i);
    KeepsTasks(w, Do(w, e), first, i);
  }

  lemma StartKeepsInv(w: World, first: Image, e: Step)
    requires Inv(w, first) && e.Start?
    ensures Inv(Do(w, e), first)
  {
    KeepsTasks(w, Do(w, e), first, |w.tasks|);
  }

  lemma StepKeepsInv(w: World, first: Image, e: Step)
    requires Inv(w, first) && Enabled(w, e)
    ensures Inv(Do(w, e), first)
  {
    match e
    case CrashAndReload => ReloadKeepsInv(w, first);
    case Start(_) => StartKeepsInv(w, first, e);
    case Publish(i) => PublishKeepsInv(w, first, i);
    case Commit(i, ok) =>
      if ok {
        CommitKeepsInv(w, first, i);
      } else {
        EndKeepsInv(w, first, e, i);
      }
    case OpenTransaction(i, ok) =>
      if ok {
        WorkKeepsInv(w, first, e, i);
      } else {
        EndKeepsInv(w, first, e, i);
      }
    case Save(i, ok) =>
      if ok {
        WorkKeepsInv(w, first, e, i);
      } else {
        EndKeepsInv(w, first, e, i);
      }
    case Abandon(i) => EndKeepsInv(w, first, e, i);
    case _ => WorkKeepsInv(w, first, e, e.i);
  }

  ghost predicate Untouched(w: World, after: World, j: nat) {
    j < |w.tasks| && j < |after.tasks| && after.tasks[j] == w.tasks[j]
  }

  /** Only the acting task is affected: the others hold no lock and no working copy. */
  lemma KeepsTasks(w: World, after: World, first: Image, i: nat)
    requires Inv(w, first)
    requires |w.tasks| <= |after.tasks|
    requires forall j: nat :: j < |after.tasks| && j != i ==> Untouched(w, after, j)
    requires after.lock == w.lock || w.lock == Some(i) || after.lock == Some(i)
    requires after.lock.Some? && after.lock != Some(i)
             ==> after.memory == w.memory && after.store == w.store && after.lock == w.lock
    requires w.lock.Some? && w.lock != Some(i) ==> after.lock == w.lock
    requires i < |after.tasks| ==> TaskOk(after, i)
    ensures forall j :: 0 <= j < |after.tasks| ==> TaskOk(after, j)
  {
    forall j | 0 <= j < |after.tasks| ensures TaskOk(after, j) {
      if j != i {
        assert Untouched(w, after, j);
        assert TaskOk(w, j);
      }
    }
  }

  // ------------------------------------------------------------------------------ runs

  ghost predicate Run(worlds: seq<World>, steps: seq<Step>, first: Image) {
    && |worlds| == |steps| + 1
    && Initial(worlds[0], first)
    && forall n {:trigger steps[n]} :: 0 <= n < |steps| ==>
         Enabled(worlds[n], steps[n]) && worlds[n + 1] == Do(worlds[n], steps[n])
  }

  lemma {:induction false} RunKeepsInv(worlds: seq<World>, steps: seq<Step>, first: Image, n: nat)
    requires Run(worlds, steps, first) && n <= |steps|
    ensures Inv(worlds[n], first)
  {
    if n > 0 {
      RunKeepsInv(worlds, steps, first, n - 1);
      assert Enabled(worlds[n - 1], steps[n - 1]);
      StepKeepsInv(worlds[n - 1], first, steps[n - 1]);
    }
  }

  /**
   * Every interleaving equals its committed mutations applied one after another, a crash
   * in between only reducing the configuration to its canonical form: the store always
   * holds that result, and so does memory unless a committed task is about to publish it.
   */
  lemma RunIsSerial(worlds: seq<World>, steps: seq<Step>, first: Image, n: nat)
    requires Run(worlds, steps, first) && n <= |steps|
    ensures var w, serial := worlds[n], Replay(first, worlds[n].history);
            && StoreMatches(w.store, serial)
            && (!CommitPending(w) ==> w.memory == serial.config)
            && (w.lock.None? ==> StoreMatches(w.store, Image(w.memory, w.store.rows)))
  {
    RunKeepsInv(worlds, steps, first, n);
  }

  /** A crash at any moment can be recovered from, and loses no committed mutation. */
  lemma CrashKeepsCommitted(worlds: seq<World>, steps: seq<Step>, first: Image, n: nat)
    requires Run(worlds, steps, first) && n <= |steps|
    ensures Enabled(worlds[n], CrashAndReload)
    ensures var after := Do(worlds[n], CrashAndReload);
            && after.memory == Canonical(Replay(first, worlds[n].history).config)
            && after.store == worlds[n].store
            && StoreMatches(after.store, Image(after.memory, after.store.rows))
  {
    RunKeepsInv(worlds, steps, first, n);
    ReloadGivesCanonical(Replay(first, worlds[n].history).config);
    CanonicalIsStoredAlike(Replay(first, worlds[n].history).config);
  }

  /** Memory and store change only by a commit that succeeds, its publication, or a crash. */
  lemma OnlyCommitsChange(w: World, e: Step)
    requires Enabled(w, e)
    requires !e.CrashAndReload? && !e.Publish? && !(e.Commit? && e.ok)
    ensures Do(w, e).memory == w.memory && Do(w, e).store == w.store && Do(w, e).history == w.history
  {
  }
}
