/**
 * One mutation as the code runs it: the guard with its working copies, the commit, and
 * the saving of settings, which also changes the desktop outside the store.
 */
module ConfigGuard {
  import opened Text
  import opened SettingsProjection
  import opened ConfigMutation

  class Database {
    var committed: Store

    constructor (store: Store)
      ensures committed == store
    {
      committed := store;
    }
  }

  class ConfigMutationCoordinator {
    const database: Database
    var config: AppConfig

    constructor (database: Database, config: AppConfig)
      ensures this.database == database && this.config == config
    {
      this.database, this.config := database, config;
    }
  }

  class ConfigMutationGuard {
    const coordinator: ConfigMutationCoordinator
    var working: AppConfig
    var staged: Store

    /** The snapshot of memory and the transaction that a mutation starts from. */
    constructor Begin(coordinator: ConfigMutationCoordinator)
      ensures this.coordinator == coordinator
      ensures working == coordinator.config && staged == coordinator.database.committed
    {
      this.coordinator := coordinator;
      working := coordinator.config;
      staged := coordinator.database.committed;
    }

    method Edit(mutation: Mutation)
      modifies this
      ensures Image(working, staged.rows) == mutation.run(Image(old(working), old(staged.rows)))
    {
      var image := mutation.run(Image(working, staged.rows));
      working := image.config;
      staged := staged.(rows := image.rows);
    }

    /** Stores the working copies and then publishes them, or changes nothing. */
    method Commit(saveOk: bool, commitOk: bool) returns (ok: bool)
      modifies this`staged, coordinator, coordinator.database
      ensures ok <==> saveOk && commitOk
      ensures ok ==> coordinator.config == working
                     && StoreMatches(coordinator.database.committed, Image(working, old(staged.rows)))
      ensures !ok ==> coordinator.config == old(coordinator.config)
                      && coordinator.database.committed == old(coordinator.database.committed)
    {
      if !saveOk {
        return false;
      }
      staged := Store(SettingsFromConfig(working), StateFromConfig(working), staged.rows);
      if !commitOk {
        return false;
      }
      coordinator.database.committed := staged;
      coordinator.config := working;
      return true;
    }
  }

  /** How an attempt to change the desktop ends: on failure it may leave anything behind. */
  datatype Attempt<T> = Attempt(ok: bool, left: T)

  datatype Touched = Touched(autostartTouched: bool, hotkeysTouched: bool)

  /** The autostart entry and the registered shortcut of the desktop. */
  class SideEffects {
    var autostart: bool
    var shortcut: Option<KeyEvent>

    predicate Shows(c: AppConfig)
      reads this
    {
      autostart == c.autoRun && shortcut == c.showWindowShortcut
    }

    method ApplyAutostart(c: AppConfig, attempt: Attempt<bool>) returns (ok: bool)
      modifies this`autostart
      ensures ok == attempt.ok
      ensures ok ==> autostart == c.autoRun
    {
      autostart := if attempt.ok then c.autoRun else attempt.left;
      return attempt.ok;
    }

    method ApplyHotkeys(c: AppConfig, attempt: Attempt<Option<KeyEvent>>) returns (ok: bool)
      modifies this`shortcut
      ensures ok == attempt.ok
      ensures ok ==> shortcut == c.showWindowShortcut
    {
      shortcut := if attempt.ok then c.showWindowShortcut else attempt.left;
      return attempt.ok;
    }

    /** Puts back what was touched, in reverse order; `errors` counts what could not be. */
    method Compensate(original: AppConfig, applied: Touched, hotkeys: Attempt<Option<KeyEvent>>, auto: Attempt<bool>)
      returns (errors: nat)
      requires applied.autostartTouched || autostart == original.autoRun
      requires applied.hotkeysTouched || shortcut == original.showWindowShortcut
      modifies this
      ensures errors == (if applied.hotkeysTouched && !hotkeys.ok then 1 else 0)
                        + if applied.autostartTouched && !auto.ok then 1 else 0
      ensures !applied.autostartTouched || auto.ok ==> autostart == original.autoRun
      ensures !applied.hotkeysTouched || hotkeys.ok ==> shortcut == original.showWindowShortcut
    {
      errors := 0;
      if applied.hotkeysTouched {
        var ok := ApplyHotkeys(original, hotkeys);
        if !ok {
          errors := errors + 1;
        }
      }
      if applied.autostartTouched {
        var ok := ApplyAutostart(original, auto);
        if !ok {
          errors := errors + 1;
        }
      }
    }

    /** Applies what differs; on failure everything touched is put back where possible. */
    method Apply(original: AppConfig, target: AppConfig, auto: Attempt<bool>, hotkeys: Attempt<Option<KeyEvent>>,
                 hotkeysBack: Attempt<Option<KeyEvent>>, autoBack: Attempt<bool>)
      returns (ok: bool, applied: Touched, errors: nat)
      requires Shows(original)
      modifies this
      ensures ok <==> (original.autoRun != target.autoRun ==> auto.ok)
                      && (original.showWindowShortcut != target.showWindowShortcut ==> hotkeys.ok)
      ensures ok ==> Shows(target) && errors == 0
      ensures ok ==> applied == Touched(original.autoRun != target.autoRun,
                                        original.showWindowShortcut != target.showWindowShortcut)
      ensures !ok && errors == 0 ==> Shows(original)
      ensures !ok && autoBack.ok ==> autostart == original.autoRun
      ensures !ok && hotkeysBack.ok ==> shortcut == original.showWindowShortcut
    {
      applied, errors := Touched(false, false), 0;
      if original.autoRun != target.autoRun {
        applied := applied.(autostartTouched := true);
        ok := ApplyAutostart(target, auto);
        if !ok {
          errors := Compensate(original, applied, hotkeysBack, autoBack);
          return;
        }
      }
      if original.showWindowShortcut != target.showWindowShortcut {
        applied := applied.(hotkeysTouched := true);
        ok := ApplyHotkeys(target, hotkeys);
        if !ok {
          errors := Compensate(original, applied, hotkeysBack, autoBack);
          return;
        }
      }
      ok := true;
    }
  }

  /**
   * Saving settings is all or nothing: either memory, store and desktop all show the
   * target, or, unless putting the desktop back failed, all show the original.
   */
  method SaveSettings(guard: ConfigMutationGuard, effects: SideEffects, target: AppConfig,
                      auto: Attempt<bool>, hotkeys: Attempt<Option<KeyEvent>>,
                      hotkeysBack: Attempt<Option<KeyEvent>>, autoBack: Attempt<bool>,
                      saveOk: bool, commitOk: bool)
    returns (saved: bool, errors: nat)
    requires guard.working == guard.coordinator.config && effects.Shows(guard.working)
    modifies guard, guard.coordinator, guard.coordinator.database, effects
    ensures saved <==> (old(guard.working.autoRun) != target.autoRun ==> auto.ok)
                       && (old(guard.working.showWindowShortcut) != target.showWindowShortcut ==> hotkeys.ok)
                       && saveOk && commitOk
    ensures saved ==> errors == 0
    ensures !saved && autoBack.ok ==> effects.autostart == old(guard.working.autoRun)
    ensures !saved && hotkeysBack.ok ==> effects.shortcut == old(guard.working.showWindowShortcut)
    ensures saved ==> effects.Shows(target) && guard.coordinator.config == target
                      && StoreMatches(guard.coordinator.database.committed, Image(target, old(guard.staged.rows)))
    ensures !saved ==> guard.coordinator.config == old(guard.coordinator.config)
                       && guard.coordinator.database.committed == old(guard.coordinator.database.committed)
                       && (errors == 0 ==> effects.Shows(old(guard.coordinator.config)))
  {
    var original := guard.working;
    var applied;
    saved, applied, errors := effects.Apply(original, target, auto, hotkeys, hotkeysBack, autoBack);
    if saved {
      guard.working := target;
      saved := guard.Commit(saveOk, commitOk);
      if !saved {
        errors := effects.Compensate(original, applied, hotkeysBack, autoBack);
      }
    }
  }

  /** The system proxy mode that the desktop was last brought to. */
  class ProxyDesktop {
    var shown: SysProxyType

    method Apply(mode: SysProxyType, attempt: Attempt<SysProxyType>) returns (ok: bool)
      modifies this
      ensures ok == attempt.ok
      ensures shown == if ok then mode else attempt.left
    {
      shown := if attempt.ok then mode else attempt.left;
      return attempt.ok;
    }
  }

  /** A commit that failed, and whether what it compensated with failed too. */
  datatype CommitOutcome = CommitDone | CommitFailed(compensationFailed: bool)

  /** Runs the compensation exactly when the commit fails, and reports both errors. */
  method CommitWithCompensation(guard: ConfigMutationGuard, desktop: ProxyDesktop, original: SysProxyType,
                                back: Attempt<SysProxyType>, saveOk: bool, commitOk: bool)
    returns (outcome: CommitOutcome)
    modifies guard`staged, guard.coordinator, guard.coordinator.database, desktop
    ensures outcome == if saveOk && commitOk then CommitDone else CommitFailed(!back.ok)
    ensures outcome.CommitDone? ==> desktop.shown == old(desktop.shown) && guard.coordinator.config == guard.working
    ensures outcome.CommitDone?
            ==> StoreMatches(guard.coordinator.database.committed, Image(guard.working, old(guard.staged.rows)))
    ensures outcome.CommitFailed?
            ==> guard.coordinator.config == old(guard.coordinator.config)
                && guard.coordinator.database.committed == old(guard.coordinator.database.committed)
                && desktop.shown == if back.ok then original else back.left
  {
    var ok := guard.Commit(saveOk, commitOk);
    if ok {
      return CommitDone;
    }
    ok := desktop.Apply(original, back);
    outcome := CommitFailed(!ok);
  }

  /**
   * Changing the proxy mode: memory, store and desktop agree on the new mode, or memory and
   * store keep the old one; the desktop then shows it too unless applying a mode failed.
   */
  method SetProxyMode(guard: ConfigMutationGuard, desktop: ProxyDesktop, mode: SysProxyType,
                      apply: Attempt<SysProxyType>, back: Attempt<SysProxyType>, saveOk: bool, commitOk: bool)
    returns (done: bool)
    requires guard.working == guard.coordinator.config && desktop.shown == guard.working.sysProxyType
    modifies guard, guard.coordinator, guard.coordinator.database, desktop
    ensures done <==> apply.ok && saveOk && commitOk
    ensures done ==> desktop.shown == mode && guard.coordinator.config == old(guard.working).(sysProxyType := mode)
                     && guard.coordinator.database.committed.settings == SettingsFromConfig(guard.coordinator.config)
    ensures !done ==> guard.coordinator.config == old(guard.coordinator.config)
                      && guard.coordinator.database.committed == old(guard.coordinator.database.committed)
                      && (apply.ok && back.ok ==> desktop.shown == guard.coordinator.config.sysProxyType)
  {
    var original := guard.working;
    guard.working := original.(sysProxyType := mode);
    done := desktop.Apply(mode, apply);
    if done {
      var outcome := CommitWithCompensation(guard, desktop, original.sysProxyType, back, saveOk, commitOk);
      done := outcome == CommitDone;
    }
  }
}
