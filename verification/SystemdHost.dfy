/**
 The `systemd --user` twin of the launchd transaction (internal/autoupdate/systemd.go). Its updater
 is two units, a one-shot service and a timer, so there is one more file to save and restore, and no
 handoff job: starting the timer never stops the process that is committing.
 */
module SystemdHost {
  import opened Basics
  import opened ReleaseDisk

  const BACKUPS: seq<Path> := [BackupBoot, BackupUpdater, BackupTimer]

  method RenderUnit(host: Host, node: Node, candidate: Generation, unit: UnitName) returns (text: Option<string>)
    requires host.Systemd? && node.Valid()
    modifies node`log, node`faults, node`commands, node`granted
    ensures node.Valid() && node.Recorded(text.Some?, [Template])
    ensures text.Some? ==> text == host.unitText(candidate, unit)
    ensures host.unitText(candidate, unit).None? ==> text.None?
  {
    var readable := node.Run(Template);
    if !readable { return None; }
    text := host.unitText(candidate, unit);
    var rendered := node.Render(text, unit);
  }

  /** Asks the daemon, then renders and stages the candidate's unit. */
  method StageBoot(host: Host, node: Node, candidate: Generation, prepared: Path, ghost before: Tuple, ghost start: nat)
    returns (ok: bool)
    requires host.Systemd? && node.Valid() && start == |node.history| && prepared.Prepared?
    requires TupleOf(host, candidate.mode, node.files) == before
    requires Validate in node.granted && Quiescence !in node.granted
    modifies node
    ensures Quiescence !in node.granted ==> node.history == old(node.history)
    ensures ok ==> Quiescence in node.granted
    ensures node.Valid() && start <= |node.history|
    ensures Steady(host, candidate.mode, before, node.history, start) && TupleOf(host, candidate.mode, node.files) == before
    ensures node.Recorded(ok, [Quiescence, Template])
    ensures ok ==> Lookup(node.files, prepared) == Rendered(host.unitText(candidate, ControllerUnit)) != None
  {
    ok := node.Run(Quiescence);
    if !ok { return; }
    var rendered := RenderUnit(host, node, candidate, ControllerUnit);
    if rendered.None? { return false; }
    ok := node.Stage(prepared, Text(rendered.value), host, candidate.mode, before, start);
  }

  method SaveUpdater(host: Host, node: Node, mode: string, ghost before: Tuple, ghost start: nat)
    returns (ok: bool, hadUpdater: bool, hadTimer: bool)
    requires host.Systemd? && node.Valid() && start <= |node.history| && TupleOf(host, mode, node.files) == before
    requires Steady(host, mode, before, node.history, start)
    requires {Validate, Quiescence} <= node.granted
    modifies node
    ensures node.Valid() && start <= |node.history| && node.Quiet(ok)
    ensures Steady(host, mode, before, node.history, start) && TupleOf(host, mode, node.files) == before
    ensures ok ==> Saved(node.files, hadUpdater, BackupUpdater, before.updater) && Saved(node.files, hadTimer, BackupTimer, before.timer)
    ensures ok ==> forall p | p !in {BackupUpdater, BackupTimer} :: Lookup(node.files, p) == Lookup(old(node.files), p)
  {
    hadTimer := false;
    ok, hadUpdater := node.BackupIfPresent(Updater, BackupUpdater, host, mode, before, start);
    if !ok { return; }
    ok, hadTimer := node.BackupIfPresent(Timer, BackupTimer, host, mode, before, start);
  }

  /** Backs up what the candidate will replace and writes the journal. */
  method SaveDefinitions(host: Host, node: Node, prepared: Path, current: Generation, candidate: Generation,
                         ghost before: Tuple, ghost start: nat)
    returns (ok: bool, plan: UpdateJournal)
    requires host.Systemd? && node.Valid() && start <= |node.history| && prepared.Prepared?
    requires TupleOf(host, candidate.mode, node.files) == before
    requires Steady(host, candidate.mode, before, node.history, start)
    requires {Validate, Quiescence} <= node.granted
    modifies node
    ensures node.Valid() && start <= |node.history|
    ensures Steady(host, candidate.mode, before, node.history, start) && TupleOf(host, candidate.mode, node.files) == before
    ensures node.QuietUnless(before.boot.None?, ok)
    ensures plan.current == current && plan.candidate == candidate && plan.prepared == prepared
    ensures ok ==> Recoverable(Transaction(host, before, plan), node.files)
    ensures ok ==> Lookup(node.files, prepared) == old(Lookup(node.files, prepared))
  {
    plan := UpdateJournal(current, candidate, prepared, BackupBoot, BackupUpdater, false, BackupTimer, false);
    var boot := node.Read(Unit(candidate.mode));
    if !boot.Found? { return false, plan; }
    ok := node.Stage(BackupBoot, boot.body, host, candidate.mode, before, start);
    if !ok { return; }
    var hadUpdater, hadTimer;
    assert Lookup(node.files, BackupBoot) == before.boot && Lookup(node.files, prepared) == Lookup(old(node.files), prepared);
    ok, hadUpdater, hadTimer := SaveUpdater(host, node, candidate.mode, before, start);
    if !ok { return; }
    assert Lookup(node.files, BackupBoot) == before.boot && Lookup(node.files, prepared) == Lookup(old(node.files), prepared);
    plan := plan.(hadUpdater := hadUpdater, hadTimer := hadTimer);
    ok := node.Stage(Journal, Plan(plan), host, candidate.mode, before, start);
  }

  method Prepare(host: Host, node: Node, current: Generation, candidate: Generation, ghost start: nat)
    returns (ok: bool, ghost t: Transaction)
    requires host.Systemd? && node.Valid() && start == |node.history|
    requires Validate in node.granted && Quiescence !in node.granted
    modifies node
    ensures ok ==> Quiescence in node.granted
    ensures Quiescence !in node.granted ==> node.history == old(node.history)
    ensures node.RecordedUnless(t.before.boot.None?, ok, [Quiescence, Template])
    ensures node.Valid() && start <= |node.history|
    ensures t.host == host && t.before == TupleOf(host, candidate.mode, old(node.files))
    ensures t.plan.current == current && t.plan.candidate == candidate
    ensures Steady(host, candidate.mode, t.before, node.history, start) && t.TupleIn(node.files) == t.before
    ensures ok ==> Recoverable(t, node.files) && t.plan.prepared.Prepared?
    ensures ok ==> Lookup(node.files, t.plan.prepared) == t.Candidate().boot != None
  {
    var prepared := Prepared(candidate.version, candidate.mode);
    ghost var before := TupleOf(host, candidate.mode, node.files);
    ok := StageBoot(host, node, candidate, prepared, before, start);
    var plan := UpdateJournal(current, candidate, prepared, BackupBoot, BackupUpdater, false, BackupTimer, false);
    if ok { ok, plan := SaveDefinitions(host, node, prepared, current, candidate, before, start); }
    t := Transaction(host, before, plan);
  }

  method ReloadThen(node: Node, next: Command) returns (ok: bool)
    requires node.Valid() && next in {Restart, Enable}
    modifies node`log, node`faults, node`commands, node`granted
    ensures node.Valid() && node.Recorded(ok, [Reload, next])
  {
    ok := node.Run(Reload);
    if !ok { return; }
    ok := node.Run(next);
  }

  method Activate(host: Host, node: Node, candidate: Generation,
                  ghost t: Transaction, ghost start: nat, ghost journalled: nat)
    returns (ok: bool)
    requires host.Systemd? && node.Valid() && t.host == host && t.plan.candidate == candidate
    requires Recoverable(t, node.files) && Running(t, node.history, start, journalled, |node.history|)
    requires t.TupleIn(node.files) == t.before && t.plan.prepared.Prepared?
    requires Lookup(node.files, t.plan.prepared) == t.Candidate().boot != None
    modifies node
    ensures node.Recorded(ok, [Reload, Restart])
    ensures node.Valid() && Recoverable(t, node.files) && Running(t, node.history, start, journalled, |node.history|)
    ensures ok ==> t.TupleIn(node.files) == t.before.(boot := t.Candidate().boot)
  {
    var journal := node.Read(Journal);
    if !journal.Found? || !journal.body.Plan? || journal.body.plan.candidate != candidate { return false; }
    var body := node.Read(journal.body.plan.prepared);
    if !body.Found? { return false; }
    ok := node.Publish(Unit(candidate.mode), body.body, t, start, journalled);
    if !ok { return; }
    ok := ReloadThen(node, Restart);
  }

  /** One of the updater's two units, rendered before it is written. */
  method PublishUnit(host: Host, node: Node, candidate: Generation, unit: UnitName, path: Path,
                     ghost t: Transaction, ghost start: nat, ghost journalled: nat)
    returns (ok: bool)
    requires host.Systemd? && node.Valid() && t.host == host && t.plan.candidate == candidate
    requires Recoverable(t, node.files) && Running(t, node.history, start, journalled, |node.history|)
    requires path in {Updater, Timer}
    modifies node
    ensures node.Recorded(ok, [Template])
    ensures node.Valid() && Recoverable(t, node.files) && Running(t, node.history, start, journalled, |node.history|)
    ensures ok ==> t.TupleIn(node.files) ==
                   Replaced(t.host, t.Mode(), old(t.TupleIn(node.files)), path, Rendered(host.unitText(candidate, unit)))
  {
    var text := RenderUnit(host, node, candidate, unit);
    if text.None? { return false; }
    ok := node.Publish(path, Text(text.value), t, start, journalled);
  }

  /** The updater's two units, each rendered before it is written. */
  method PublishUpdater(host: Host, node: Node, candidate: Generation,
                        ghost t: Transaction, ghost start: nat, ghost journalled: nat)
    returns (ok: bool)
    requires host.Systemd? && node.Valid() && t.host == host && t.plan.candidate == candidate
    requires Recoverable(t, node.files) && Running(t, node.history, start, journalled, |node.history|)
    requires t.TupleIn(node.files) == t.before.(boot := t.Candidate().boot)
    modifies node
    ensures node.Recorded(ok, [Template, Template, Reload, Enable])
    ensures node.Valid() && Recoverable(t, node.files) && Running(t, node.history, start, journalled, |node.history|)
    ensures ok ==> t.TupleIn(node.files) ==
                   t.Candidate().(installed := t.TupleIn(node.files).installed, link := t.TupleIn(node.files).link)
  {
    ok := PublishUnits(host, node, candidate, t, start, journalled);
    if !ok { return; }
    ok := ReloadThen(node, Enable);
  }

  method PublishUnits(host: Host, node: Node, candidate: Generation,
                      ghost t: Transaction, ghost start: nat, ghost journalled: nat)
    returns (ok: bool)
    requires host.Systemd? && node.Valid() && t.host == host && t.plan.candidate == candidate
    requires Recoverable(t, node.files) && Running(t, node.history, start, journalled, |node.history|)
    modifies node
    ensures node.Recorded(ok, [Template, Template])
    ensures node.Valid() && Recoverable(t, node.files) && Running(t, node.history, start, journalled, |node.history|)
    ensures ok ==> t.TupleIn(node.files) == old(t.TupleIn(node.files)).(updater := t.Candidate().updater, timer := t.Candidate().timer)
  {
    ok := PublishUnit(host, node, candidate, UpdaterUnit, Updater, t, start, journalled);
    if !ok { return; }
    ok := PublishUnit(host, node, candidate, TimerUnit, Timer, t, start, journalled);
  }

  method Commit(host: Host, node: Node, candidate: Generation,
                ghost t: Transaction, ghost start: nat, ghost journalled: nat)
    returns (ok: bool)
    requires host.Systemd? && node.Valid() && t.host == host && t.plan.candidate == candidate
    requires Recoverable(t, node.files) && Running(t, node.history, start, journalled, |node.history|)
    requires t.TupleIn(node.files) == t.before.(boot := t.Candidate().boot)
    requires ProveReady in node.granted
    modifies node
    ensures node.Recorded(ok, [Template, Template, Reload, Enable])
    ensures node.Valid()
    ensures ok ==> t.TupleIn(node.files) == t.Candidate() && Journal !in node.files
    ensures ok ==> Running(t, node.history, start, journalled, |node.history| - 1)
    ensures !ok ==> Running(t, node.history, start, journalled, |node.history|) && Interrupted(t, node.files)
  {
    ok := PublishUpdater(host, node, candidate, t, start, journalled);
    if !ok { return; }
    ok := node.Promote(candidate, BACKUPS, t, start, journalled);
  }

  method Rollback(host: Host, node: Node, current: Generation,
                  ghost t: Transaction, ghost start: nat, ghost journalled: nat)
    returns (ok: bool)
    requires host.Systemd? && node.Valid() && t.host == host && t.plan.current == current
    requires Interrupted(t, node.files) && Running(t, node.history, start, journalled, |node.history|)
    modifies node
    ensures node.RecordedUnless(old(BackupBoot !in node.files), ok, if t.plan.hadTimer then [Reload, Restart, Reload, Enable] else [Reload, Restart, Disable, Reload])
    ensures node.Valid()
    ensures ok ==> t.TupleIn(node.files) == t.Restored() && Journal !in node.files
    ensures ok ==> Running(t, node.history, start, journalled, |node.history| - 1)
    ensures !ok ==> Running(t, node.history, start, journalled, |node.history|) && Interrupted(t, node.files)
    ensures old(BackupBoot !in node.files) ==> !ok && node.files == old(node.files)
  {
    var journal := node.Read(Journal);
    if !journal.Found? || !journal.body.Plan? { return false; }
    var backup := node.Read(journal.body.plan.backup);
    if !backup.Found? { return false; }
    assert Recoverable(t, node.files);
    ok := RestoreDefinitions(host, node, journal.body.plan, backup.body, t, start, journalled);
    if !ok { return; }
    ok := node.Reinstate(current, BACKUPS, t, start, journalled);
  }

  method RestoreDefinitions(host: Host, node: Node, plan: UpdateJournal, backup: Body,
                            ghost t: Transaction, ghost start: nat, ghost journalled: nat)
    returns (ok: bool)
    requires host.Systemd? && node.Valid() && t.host == host && t.plan == plan
    requires Recoverable(t, node.files) && Running(t, node.history, start, journalled, |node.history|)
    requires t.before.boot == Some(backup)
    modifies node
    ensures node.Recorded(ok, if plan.hadTimer then [Reload, Restart, Reload, Enable] else [Reload, Restart, Disable, Reload])
    ensures node.Valid() && Recoverable(t, node.files) && Running(t, node.history, start, journalled, |node.history|)
    ensures ok ==> t.TupleIn(node.files) ==
                   t.before.(installed := t.TupleIn(node.files).installed, link := t.TupleIn(node.files).link)
  {
    ok := node.Publish(Unit(plan.candidate.mode), backup, t, start, journalled);
    if !ok { return; }
    ok := ReloadThen(node, Restart);
    if !ok { return; }
    ok := RestoreUpdater(host, node, plan, t, start, journalled);
  }

  method RestoreUpdater(host: Host, node: Node, plan: UpdateJournal, ghost t: Transaction, ghost start: nat, ghost journalled: nat)
    returns (ok: bool)
    requires host.Systemd? && node.Valid() && t.host == host && t.plan == plan
    requires Recoverable(t, node.files) && Running(t, node.history, start, journalled, |node.history|)
    modifies node
    ensures node.Recorded(ok, if plan.hadTimer then [Reload, Enable] else [Disable, Reload])
    ensures node.Valid() && Recoverable(t, node.files) && Running(t, node.history, start, journalled, |node.history|)
    ensures ok ==> t.TupleIn(node.files) == old(t.TupleIn(node.files)).(updater := t.before.updater, timer := t.before.timer)
  {
    if !plan.hadTimer {
      // Disarmed while its unit is still on disk; a timer that was never installed refuses this.
      var disarmed := node.Run(Disable);
    }
    ok := RestoreUnits(host, node, plan, t, start, journalled);
    if !ok { return; }
    if plan.hadTimer { ok := ReloadThen(node, Enable); } else { ok := node.Run(Reload); }
  }

  method RestoreUnits(host: Host, node: Node, plan: UpdateJournal, ghost t: Transaction, ghost start: nat, ghost journalled: nat)
    returns (ok: bool)
    requires host.Systemd? && node.Valid() && t.host == host && t.plan == plan
    requires Recoverable(t, node.files) && Running(t, node.history, start, journalled, |node.history|)
    modifies node
    ensures node.Quiet(ok)
    ensures node.Valid() && Recoverable(t, node.files) && Running(t, node.history, start, journalled, |node.history|)
    ensures ok ==> t.TupleIn(node.files) == old(t.TupleIn(node.files)).(updater := t.before.updater, timer := t.before.timer)
  {
    ok := node.Restore(plan.hadUpdater, plan.backupUpdater, Updater, t.before.updater, t, start, journalled);
    if !ok { return; }
    ok := node.Restore(plan.hadTimer, plan.backupTimer, Timer, t.before.timer, t, start, journalled);
  }
}
