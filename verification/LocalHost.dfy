/**
 The launchd release transaction (internal/autoupdate/host.go): stage and journal, activate,
 commit, roll back.
 */
module LocalHost {
  import opened Basics
  import opened ReleaseDisk

  const BACKUPS: seq<Path> := [BackupBoot, BackupUpdater]

  /** Asks the daemon, renders and stages the candidate's boot definition and checks it. */
  method StageBoot(host: Host, node: Node, candidate: Generation, prepared: Path, ghost before: Tuple, ghost start: nat)
    returns (ok: bool)
    requires host.Launchd? && node.Valid() && start == |node.history| && prepared.Prepared?
    requires TupleOf(host, candidate.mode, node.files) == before
    requires Validate in node.granted && Quiescence !in node.granted
    modifies node
    ensures Quiescence !in node.granted ==> node.history == old(node.history)
    ensures ok ==> Quiescence in node.granted
    ensures node.Valid() && start <= |node.history|
    ensures Steady(host, candidate.mode, before, node.history, start) && TupleOf(host, candidate.mode, node.files) == before
    ensures node.Recorded(ok, [Quiescence, Template, Lint])
    ensures ok ==> Lookup(node.files, prepared) == Rendered(host.controllerText(candidate)) != None
  {
    ok := node.Run(Quiescence);
    if !ok { return; }
    ok := node.Run(Template);
    if !ok { return; }
    var rendered := host.controllerText(candidate);
    ok := node.Render(rendered, ControllerUnit);
    if !ok { return; }
    ok := node.Stage(prepared, Text(rendered.value), host, candidate.mode, before, start);
    if !ok { return; }
    ok := node.Run(Lint);
  }

  /** Backs up what the candidate will replace and writes the journal. */
  method SaveDefinitions(host: Host, node: Node, prepared: Path, current: Generation, candidate: Generation,
                         ghost before: Tuple, ghost start: nat)
    returns (ok: bool, plan: UpdateJournal)
    requires host.Launchd? && node.Valid() && start <= |node.history| && prepared.Prepared?
    requires TupleOf(host, candidate.mode, node.files) == before
    requires Steady(host, candidate.mode, before, node.history, start)
    requires {Validate, Quiescence} <= node.granted
    modifies node
    ensures node.Valid() && start <= |node.history|
    ensures Steady(host, candidate.mode, before, node.history, start) && TupleOf(host, candidate.mode, node.files) == before
    ensures node.QuietUnless(before.boot.None?, ok)
    ensures plan.current == current && plan.candidate == candidate && plan.prepared == prepared
    ensures ok ==> Recoverable(Transaction(host, before, plan), node.files)
    ensures ok ==> Lookup(node.files, prepared) == old(Lookup(node.files, prepared))
  {
    plan := UpdateJournal(current, candidate, prepared, BackupBoot, BackupUpdater, false, BackupTimer, false);
    var boot := node.Read(Plist);
    if !boot.Found? { return false, plan; }
    ok := node.Stage(BackupBoot, boot.body, host, candidate.mode, before, start);
    if !ok { return; }
    var had;
    ok, had := node.BackupIfPresent(Updater, BackupUpdater, host, candidate.mode, before, start);
    if !ok { return; }
    plan := plan.(hadUpdater := had);
    ok := node.Stage(Journal, Plan(plan), host, candidate.mode, before, start);
  }

  /** Stages the candidate's boot definition, backs up what it will replace and writes the journal.
      The tuple is untouched in every state on the way; success means everything a rollback needs
      is on disk; and failure has a fatal entry in the log, or there was no boot definition to replace. */
  method Prepare(host: Host, node: Node, current: Generation, candidate: Generation, ghost start: nat)
    returns (ok: bool, ghost t: Transaction)
    requires host.Launchd? && node.Valid() && start == |node.history|
    requires Validate in node.granted && Quiescence !in node.granted
    modifies node
    ensures ok ==> Quiescence in node.granted
    ensures Quiescence !in node.granted ==> node.history == old(node.history)
    ensures node.RecordedUnless(t.before.boot.None?, ok, [Quiescence, Template, Lint])
    ensures node.Valid() && start <= |node.history|
    ensures t.host == host && t.before == TupleOf(host, candidate.mode, old(node.files))
    ensures t.plan.current == current && t.plan.candidate == candidate
    ensures Steady(host, candidate.mode, t.before, node.history, start) && t.TupleIn(node.files) == t.before
    ensures ok ==> Recoverable(t, node.files) && t.plan.prepared.Prepared?
    ensures ok ==> Lookup(node.files, t.plan.prepared) == t.Candidate().boot != None
  {
    var prepared := Prepared(candidate.version, candidate.mode);
    ghost var before := TupleOf(host, candidate.mode, node.files);
    ok := StageBoot(host, node, candidate, prepared, before, start);
    var plan := UpdateJournal(current, candidate, prepared, BackupBoot, BackupUpdater, false, BackupTimer, false);
    if ok { ok, plan := SaveDefinitions(host, node, prepared, current, candidate, before, start); }
    t := Transaction(host, before, plan);
  }

  /** Replaces a running service: whatever is loaded is unloaded, the definition is loaded and started. */
  method Reboot(node: Node) returns (ok: bool)
    requires node.Valid()
    modifies node`log, node`faults, node`commands, node`granted
    ensures node.Valid() && node.Recorded(ok, [Unload, Bootstrap, Kickstart])
  {
    var unloaded := node.Run(Unload);
    ok := Boot(node);
  }

  method Boot(node: Node) returns (ok: bool)
    requires node.Valid()
    modifies node`log, node`faults, node`commands, node`granted
    ensures node.Valid() && node.Recorded(ok, [Bootstrap, Kickstart])
  {
    ok := node.Run(Bootstrap);
    if !ok { return; }
    ok := node.Run(Kickstart);
  }

  /** Puts the staged boot definition in place and restarts the service on it. */
  method Activate(host: Host, node: Node, candidate: Generation,
                  ghost t: Transaction, ghost start: nat, ghost journalled: nat)
    returns (ok: bool)
    requires host.Launchd? && node.Valid() && t.host == host && t.plan.candidate == candidate
    requires Recoverable(t, node.files) && Running(t, node.history, start, journalled, |node.history|)
    requires t.TupleIn(node.files) == t.before && t.plan.prepared.Prepared?
    requires Lookup(node.files, t.plan.prepared) == t.Candidate().boot != None
    modifies node
    ensures node.Recorded(ok, [Unload, Bootstrap, Kickstart])
    ensures node.Valid() && Recoverable(t, node.files) && Running(t, node.history, start, journalled, |node.history|)
    ensures ok ==> t.TupleIn(node.files) == t.before.(boot := t.Candidate().boot)
  {
    var journal := node.Read(Journal);
    if !journal.Found? || !journal.body.Plan? || journal.body.plan.candidate != candidate { return false; }
    var body := node.Read(journal.body.plan.prepared);
    if !body.Found? { return false; }
    ok := node.Publish(Plist, body.body, t, start, journalled);
    if !ok { return; }
    ok := Reboot(node);
  }

  /** Loads the updater job, or leaves that to a handoff job where it is loaded already: a loaded updater may
      be the caller itself, so a separate job reloads it after the commit. */
  method LoadUpdater(host: Host, node: Node, candidate: Generation,
                     ghost t: Transaction, ghost start: nat, ghost journalled: nat)
    returns (ok: bool, ghost loaded: bool)
    requires host.Launchd? && node.Valid() && t.host == host
    requires Recoverable(t, node.files) && Running(t, node.history, start, journalled, |node.history|)
    modifies node
    ensures node.Recorded(ok, LoadCommands(loaded))
    ensures AskLoaded !in old(node.granted) ==> (loaded <==> AskLoaded in node.granted)
    ensures node.Valid() && Recoverable(t, node.files) && Running(t, node.history, start, journalled, |node.history|)
    ensures ok ==> t.TupleIn(node.files) == old(t.TupleIn(node.files))
    ensures ok && loaded ==> Lookup(node.files, Handoff) == Some(Text(host.handoffText(candidate)))
  {
    var known := node.Run(AskLoaded);
    loaded := known;
    if known {
      ok := node.Publish(Handoff, Text(host.handoffText(candidate)), t, start, journalled);
      if !ok { return; }
    }
    ok := Load(node, known);
  }

  /** Loads the handoff, in place of one that may still be there, or else the updater. */
  method Load(node: Node, handoff: bool) returns (ok: bool)
    requires node.Valid()
    modifies node`log, node`faults, node`commands, node`granted
    ensures node.Valid() && node.Recorded(ok, if handoff then [Unload, Bootstrap] else [Bootstrap])
    ensures node.granted <= old(node.granted) + {Unload, Bootstrap}
  {
    if handoff { var unloaded := node.Run(Unload); }
    ok := node.Run(Bootstrap);
  }

  function LoadCommands(loaded: bool): seq<Command> {
    if loaded then [AskLoaded, Unload, Bootstrap] else [AskLoaded, Bootstrap]
  }

  /** Writes the candidate's updater job and has it loaded. */
  method PublishUpdater(host: Host, node: Node, candidate: Generation,
                        ghost t: Transaction, ghost start: nat, ghost journalled: nat)
    returns (ok: bool, ghost loaded: bool)
    requires host.Launchd? && node.Valid() && t.host == host && t.plan.candidate == candidate
    requires Recoverable(t, node.files) && Running(t, node.history, start, journalled, |node.history|)
    requires t.TupleIn(node.files) == t.before.(boot := t.Candidate().boot)
    modifies node
    ensures ok && AskLoaded !in old(node.granted) ==> (loaded <==> AskLoaded in node.granted)
    ensures node.Recorded(ok, LoadCommands(loaded))
    ensures node.Valid() && Recoverable(t, node.files) && Running(t, node.history, start, journalled, |node.history|)
    ensures ok ==> t.TupleIn(node.files) ==
                   t.Candidate().(installed := t.TupleIn(node.files).installed, link := t.TupleIn(node.files).link)
    ensures ok && loaded ==> Lookup(node.files, Handoff) == Some(Text(host.handoffText(candidate)))
  {
    loaded := false;
    ok := node.Publish(Updater, Text(host.updaterText(candidate)), t, start, journalled);
    if !ok { return; }
    ok, loaded := LoadUpdater(host, node, candidate, t, start, journalled);
  }

  /** Publishes the candidate's updater, link and installed record, then clears the transaction. */
  method Commit(host: Host, node: Node, candidate: Generation,
                ghost t: Transaction, ghost start: nat, ghost journalled: nat)
    returns (ok: bool, ghost loaded: bool)
    requires host.Launchd? && node.Valid() && t.host == host && t.plan.candidate == candidate
    requires Recoverable(t, node.files) && Running(t, node.history, start, journalled, |node.history|)
    requires t.TupleIn(node.files) == t.before.(boot := t.Candidate().boot)
    requires ProveReady in node.granted
    modifies node
    ensures ok && AskLoaded !in old(node.granted) ==> (loaded <==> AskLoaded in node.granted)
    ensures node.Recorded(ok, LoadCommands(loaded))
    ensures node.Valid()
    ensures ok ==> t.TupleIn(node.files) == t.Candidate() && Journal !in node.files
    ensures ok ==> Running(t, node.history, start, journalled, |node.history| - 1)
    ensures !ok ==> Running(t, node.history, start, journalled, |node.history|) && Interrupted(t, node.files)
  {
    ok, loaded := PublishUpdater(host, node, candidate, t, start, journalled);
    if !ok { return; }
    ok := node.Promote(candidate, BACKUPS, t, start, journalled);
  }

  /** Restores the definitions the journal saved and republishes the current generation. A rollback
      that finds the first backup gone stops before it writes anything. */
  method Rollback(host: Host, node: Node, current: Generation,
                  ghost t: Transaction, ghost start: nat, ghost journalled: nat)
    returns (ok: bool)
    requires host.Launchd? && node.Valid() && t.host == host && t.plan.current == current
    requires Interrupted(t, node.files) && Running(t, node.history, start, journalled, |node.history|)
    modifies node
    ensures node.RecordedUnless(old(BackupBoot !in node.files), ok, [Unload, Bootstrap, Kickstart, Unload])
    ensures node.Valid()
    ensures ok ==> t.TupleIn(node.files) == t.Restored() && Journal !in node.files
    ensures ok ==> Running(t, node.history, start, journalled, |node.history| - 1)
    ensures !ok ==> Running(t, node.history, start, journalled, |node.history|) && Interrupted(t, node.files)
    ensures old(BackupBoot !in node.files) ==> !ok && node.files == old(node.files)
  {
    var journal := node.Read(Journal);
    if !journal.Found? || !journal.body.Plan? { return false; }
    var backup := node.Read(journal.body.plan.backup);
    if !backup.Found? { return false; }
    assert Recoverable(t, node.files);
    ok := RestoreDefinitions(host, node, journal.body.plan, backup.body, t, start, journalled);
    if !ok { return; }
    ok := node.Reinstate(current, BACKUPS, t, start, journalled);
  }

  method RestoreDefinitions(host: Host, node: Node, plan: UpdateJournal, backup: Body,
                            ghost t: Transaction, ghost start: nat, ghost journalled: nat)
    returns (ok: bool)
    requires host.Launchd? && node.Valid() && t.host == host && t.plan == plan
    requires Recoverable(t, node.files) && Running(t, node.history, start, journalled, |node.history|)
    requires t.before.boot == Some(backup)
    modifies node
    ensures node.Recorded(ok, [Unload, Bootstrap, Kickstart, Unload])
    ensures node.Valid() && Recoverable(t, node.files) && Running(t, node.history, start, journalled, |node.history|)
    ensures ok ==> t.TupleIn(node.files) ==
                   t.before.(installed := t.TupleIn(node.files).installed, link := t.TupleIn(node.files).link)
  {
    ok := RestoreBoot(host, node, backup, t, start, journalled);
    if !ok { return; }
    ok := RestoreUpdater(host, node, plan, t, start, journalled);
  }

  method RestoreUpdater(host: Host, node: Node, plan: UpdateJournal, ghost t: Transaction, ghost start: nat, ghost journalled: nat)
    returns (ok: bool)
    requires host.Launchd? && node.Valid() && t.host == host && t.plan == plan
    requires Recoverable(t, node.files) && Running(t, node.history, start, journalled, |node.history|)
    modifies node
    ensures node.Recorded(ok, [Unload])
    ensures node.Valid() && Recoverable(t, node.files) && Running(t, node.history, start, journalled, |node.history|)
    ensures ok ==> t.TupleIn(node.files) == old(t.TupleIn(node.files)).(updater := t.before.updater)
  {
    var unloaded := node.Run(Unload);
    ok := node.Retract(Handoff, t, start, journalled);
    if !ok { return; }
    ok := node.Restore(plan.hadUpdater, plan.backupUpdater, Updater, t.before.updater, t, start, journalled);
  }

  method RestoreBoot(host: Host, node: Node, backup: Body, ghost t: Transaction, ghost start: nat, ghost journalled: nat)
    returns (ok: bool)
    requires host.Launchd? && node.Valid() && t.host == host
    requires Recoverable(t, node.files) && Running(t, node.history, start, journalled, |node.history|)
    requires t.before.boot == Some(backup)
    modifies node
    ensures node.Recorded(ok, [Unload, Bootstrap, Kickstart])
    ensures node.Valid() && Recoverable(t, node.files) && Running(t, node.history, start, journalled, |node.history|)
    ensures ok ==> t.TupleIn(node.files) == old(t.TupleIn(node.files)).(boot := t.before.boot)
  {
    var unloaded := node.Run(Unload);
    ok := node.Publish(Plist, backup, t, start, journalled);
    if !ok { return; }
    ok := Boot(node);
  }
}
