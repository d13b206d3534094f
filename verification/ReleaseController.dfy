/**
 One serialized release update (internal/autoupdate/controller.go), on either supervisor, under every
 pattern of failing writes, removals and commands.
 */
module ReleaseController {
  import opened Basics
  import opened Versions
  import opened ReleaseDisk
  import LocalHost
  import SystemdHost

  datatype Outcome =
    | AlreadyInstalled
    | InvalidCandidate
    | CurrentUnreadable
    | ModeChange
    | Downgrade
    | CandidateRejected
    | PrepareFailed
    | Applied
    | RolledBack(cause: Stage)
    | RollbackFailed(cause: Stage)
  {
    /** The transaction was opened, or at least begun. */
    predicate Attempted() { PrepareFailed? || Applied? || RolledBack? || RollbackFailed? }
  }

  /** The generation a node has durably promoted, when its record can be decoded. */
  function InstalledIn(files: Files): Option<Generation> {
    match Lookup(files, Installed)
    case Some(Record(g)) => if g.Valid() then Some(g) else None
    case _ => None
  }

  /** The two generations differ in their configuration path at most. */
  predicate ConfigurationOnly(current: Generation, candidate: Generation) {
    candidate == current.(configPath := candidate.configPath)
  }

  /** What may replace what: the mode stays, and the version moves forward or, when the order calls
      the two versions equal, only the configuration path changes. */
  predicate Admissible(current: Generation, candidate: Generation) {
    && current.mode == candidate.mode
    && NotNewer(current.version, candidate.version)
    && (Compare(current.version, candidate.version) == Some(0) ==> ConfigurationOnly(current, candidate))
  }

  /** The gate of the updater handoff, a separate process that reads the journal first and the
      installed record later. */
  predicate GatePasses(atJournal: Files, atRecord: Files, candidate: Generation) {
    candidate.Valid() && Journal !in atJournal && InstalledIn(atRecord) == Some(candidate)
  }

  /** A state no reader may mistake: the tuple is as it was, the candidate's, or what a rollback
      restores, unless everything a rollback needs is there too. */
  ghost predicate WholeOrRecoverable(t: Transaction, files: Files) {
    t.TupleIn(files) == t.before || Whole(t, files) || (Journal in files && (Recoverable(t, files)))
  }

  method Current(node: Node) returns (current: Option<Generation>)
    requires node.Valid()
    modifies node`log, node`faults, node`commands, node`granted
    ensures node.Valid() && node.QuietUnless(InstalledIn(node.files).None?, current.Some?)
    ensures current.Some? ==> current == InstalledIn(node.files)
  {
    var record := node.Read(Installed);
    if record.Found? && record.body.Record? && record.body.generation.Valid() {
      return Some(record.body.generation);
    }
    return None;
  }

  /** What one opened transaction guarantees, on the states the files went through from `start` on,
      the last of which is where they are left. */
  ghost predicate AllOrNothing(t: Transaction, history: seq<Files>, start: nat, journalled: nat, outcome: Outcome) {
    && start <= journalled <= |history| && |history| > 0
    && var last := history[|history| - 1];
    // The tuple is as it was, the candidate's, or what a rollback restores.
    && (outcome.PrepareFailed? ==> t.TupleIn(last) == t.before)
    && (outcome.Applied? ==> t.TupleIn(last) == t.Candidate() && Journal !in last)
    && (outcome.RolledBack? ==> t.TupleIn(last) == t.Restored() && Journal !in last)
    && (outcome.RollbackFailed? ==> Interrupted(t, last))
    // At no moment can a reader take a mixed tuple for a finished one.
    && (forall i | start <= i < |history| :: WholeOrRecoverable(t, history[i]))
    // A handoff started by this commit passes its gate only if this commit completed.
    && (forall i, j | journalled <= i <= j < |history| ::
          GatePasses(history[i], history[j], t.plan.candidate) ==>
            outcome.Applied? && t.TupleIn(history[i]) == t.Candidate())
  }

  // --- What the supervisor is asked --------------------------------------------------------------

  function PrepareCommands(host: Host): seq<Command> {
    if host.Launchd? then [Quiescence, Template, Lint] else [Quiescence, Template]
  }

  function ActivateCommands(host: Host): seq<Command> {
    if host.Launchd? then [Unload, Bootstrap, Kickstart] else [Reload, Restart]
  }

  function CommitCommands(host: Host, loaded: bool): seq<Command> {
    if host.Launchd? then LocalHost.LoadCommands(loaded) else [Template, Template, Reload, Enable]
  }

  function RollbackCommands(host: Host, hadTimer: bool): seq<Command> {
    if host.Launchd? then [Unload, Bootstrap, Kickstart, Unload]
    else if hadTimer then [Reload, Restart, Reload, Enable] else [Reload, Restart, Disable, Reload]
  }

  /** The commands of a whole update, in order; under launchd the last of them depend on whether the updater
      is loaded. */
  function UpdateCommands(host: Host, loaded: bool): seq<Command> {
    [Validate] + PrepareCommands(host) + ActivateCommands(host) + [ProveReady] + CommitCommands(host, loaded)
  }

  /** How the outcome of an update follows from its log. It is applied only without a fatal entry, after all its
      commands; an update that was begun and not applied has a fatal entry, or there was no boot definition to
      replace; a rollback names the stage of the first fatal entry; and a rollback fails with a fatal entry of
      its own, or for want of the first backup. */
  ghost predicate Explained(host: Host, log: Log, outcome: Outcome, boot: bool) {
    && (outcome.Applied? ==> FaultsIn(log) == [] && exists loaded :: CommandsIn(log) == UpdateCommands(host, loaded))
    && (outcome.CandidateRejected? ==> FaultsIn(log) == [Validating])
    && (outcome.PrepareFailed? ==> FaultsIn(log) == [Preparing] || (!boot && FaultsIn(log) == []))
    && (outcome.RolledBack? ==> FaultsIn(log) == [outcome.cause])
    && (outcome.RollbackFailed? ==>
          FaultsIn(log) == [outcome.cause, RollingBack] || (FaultsIn(log) == [outcome.cause] && outcome.cause == Committing))
    && (outcome.RolledBack? || outcome.RollbackFailed? ==> outcome.cause in {Activating, ProvingReady, Committing})
  }

  method Apply(host: Host, node: Node, candidate: Generation)
    returns (outcome: Outcome, ghost t: Transaction, ghost journalled: nat)
    requires node.Valid()
    modifies node
    ensures node.Valid()
    // An update that is refused touches nothing.
    ensures !outcome.Attempted() ==> node.files == old(node.files) && node.history == old(node.history)
    ensures outcome.InvalidCandidate? <==> !candidate.Valid()
    // Once the installed generation could be read, each refusal has exactly one reason.
    ensures candidate.Valid() && outcome != CurrentUnreadable ==>
              && InstalledIn(old(node.files)).Some?
              && var current := InstalledIn(old(node.files)).value;
              && (outcome.AlreadyInstalled? <==> current == candidate)
              && (outcome.ModeChange? <==> current.mode != candidate.mode)
              && (outcome.Downgrade? <==> current != candidate && current.mode == candidate.mode && !Admissible(current, candidate))
    // An update that is attempted is admissible, and it is all or nothing.
    ensures outcome.Attempted() ==>
              && t.host == host && t.plan.candidate == candidate && t.plan.current != candidate
              && t.before == TupleOf(host, candidate.mode, old(node.files))
              && InstalledIn(old(node.files)) == Some(t.plan.current)
              && Admissible(t.plan.current, candidate)
              && AllOrNothing(t, node.history, |old(node.history)|, journalled, outcome)
    // A rollback leaves the tuple exactly as it was if and only if the link named the installed generation.
    ensures outcome.RolledBack? ==>
              && InstalledIn(old(node.files)).Some?
              && (TupleOf(host, candidate.mode, node.files) == TupleOf(host, candidate.mode, old(node.files))
                  <==> Lookup(old(node.files), CurrentLink) == Some(LinkTo(InstalledIn(old(node.files)).value.releaseDir)))
    // What is installed afterwards is what was, or something it may advance to.
    ensures InstalledIn(old(node.files)).Some? ==>
              InstalledIn(node.files).Some? && Advanced(InstalledIn(old(node.files)).value, InstalledIn(node.files).value)
    // The outcome follows from the log of this update.
    ensures Explained(host, node.log, outcome, BootPath(host, candidate.mode) in old(node.files))
    ensures outcome.CurrentUnreadable? ==> FaultsIn(node.log) == [Judging] || InstalledIn(old(node.files)).None?
    // Nothing but a fatal entry or a missing boot definition keeps an admissible candidate from being applied.
    ensures (&& candidate.Valid() && InstalledIn(old(node.files)).Some? && InstalledIn(old(node.files)).value != candidate
             && Admissible(InstalledIn(old(node.files)).value, candidate)
             && BootPath(host, candidate.mode) in old(node.files) && FaultsIn(node.log) == []) ==> outcome.Applied?
    // Nothing is written before the candidate was found valid and the daemon quiescent.
    ensures node.history != old(node.history) ==> {Validate, Quiescence} <= GrantedIn(node.log)
  {
    node.Begin();
    journalled := |node.history|;
    t := Transaction(host, TupleOf(host, candidate.mode, node.files),
                     UpdateJournal(candidate, candidate, Journal, Journal, Journal, false, Journal, false));
    var refusal, current := Judge(node, candidate);
    if refusal.Some? { return refusal.value, t, journalled; }
    outcome, t, journalled := Attempt(host, node, current, candidate);
  }

  /** An update that is admissible: the candidate is validated, and then it is all or nothing. */
  method Attempt(host: Host, node: Node, current: Generation, candidate: Generation)
    returns (outcome: Outcome, ghost t: Transaction, ghost journalled: nat)
    requires node.Valid() && InstalledIn(node.files) == Some(current) && current != candidate
    requires candidate.Valid()
    requires node.faults == [] && node.commands == [] && node.granted == {}
    modifies node
    ensures node.Valid() && (outcome.Attempted() || outcome.CandidateRejected?)
    ensures InstalledIn(node.files) == Some(current) || InstalledIn(node.files) == Some(candidate)
    ensures outcome.CandidateRejected? ==> node.files == old(node.files) && node.history == old(node.history)
    ensures outcome.Attempted() ==>
              && t.host == host && t.plan.current == current && t.plan.candidate == candidate
              && t.before == TupleOf(host, candidate.mode, old(node.files))
              && AllOrNothing(t, node.history, |old(node.history)|, journalled, outcome)
    ensures outcome.RolledBack? ==>
              (TupleOf(host, candidate.mode, node.files) == TupleOf(host, candidate.mode, old(node.files))
               <==> Lookup(old(node.files), CurrentLink) == Some(LinkTo(current.releaseDir)))
    ensures Explained(host, node.log, outcome, BootPath(host, candidate.mode) in old(node.files))
    ensures node.history != old(node.history) ==> {Validate, Quiescence} <= node.granted
  {
    journalled := |node.history|;
    node.stage := Validating;
    var sound := node.Run(Validate);
    if !sound {
      t := Transaction(host, TupleOf(host, candidate.mode, node.files),
                       UpdateJournal(current, candidate, Journal, Journal, Journal, false, Journal, false));
      return CandidateRejected, t, journalled;
    }
    outcome, t, journalled := Transact(host, node, current, candidate);
    AttemptTells(t, node.history, |old(node.history)|, journalled, outcome, old(node.files));
  }

  /** The decision before anything is touched. Once the installed generation could be read, each refusal has
      exactly one reason. */
  method Judge(node: Node, candidate: Generation) returns (refusal: Option<Outcome>, current: Generation)
    requires node.Valid()
    modifies node`log, node`faults, node`commands, node`granted
    ensures node.Valid() && node.QuietUnless(InstalledIn(node.files).None?, refusal != Some(CurrentUnreadable))
    ensures refusal.Some? ==> !refusal.value.Attempted() && refusal.value != CandidateRejected
    ensures refusal == Some(InvalidCandidate) <==> !candidate.Valid()
    ensures candidate.Valid() && refusal != Some(CurrentUnreadable) ==>
              && InstalledIn(node.files) == Some(current)
              && (refusal == Some(AlreadyInstalled) <==> current == candidate)
              && (refusal == Some(ModeChange) <==> current.mode != candidate.mode)
              && (refusal == Some(Downgrade) <==> current != candidate && current.mode == candidate.mode && !Admissible(current, candidate))
  {
    current := candidate;
    if !candidate.Valid() { return Some(InvalidCandidate), current; }
    var read := Current(node);
    if read.None? { return Some(CurrentUnreadable), current; }
    current := read.value;
    if current == candidate { return Some(AlreadyInstalled), current; }
    if current.mode != candidate.mode { return Some(ModeChange), current; }
    var order := CompareVersions(current.version, candidate.version);
    var configOnly := current.version == candidate.version && current.releaseDir == candidate.releaseDir
                      && current.endpoint == candidate.endpoint;
    if order.None? || order.value > 0 || (order.value == 0 && !configOnly) { return Some(Downgrade), current; }
    refusal := None;
  }

  /** Prepare, activate, prove ready and commit, rolling back from the first of these that fails
      after the journal was written. */
  method Transact(host: Host, node: Node, current: Generation, candidate: Generation)
    returns (outcome: Outcome, ghost t: Transaction, ghost journalled: nat)
    requires node.Valid() && InstalledIn(node.files) == Some(current) && current != candidate
    requires node.faults == [] && node.commands == [Validate] && node.granted == {Validate}
    modifies node
    ensures node.Valid() && outcome.Attempted()
    ensures t.host == host && t.plan.current == current && t.plan.candidate == candidate
    ensures t.before == TupleOf(host, candidate.mode, old(node.files))
    ensures AllOrNothing(t, node.history, |old(node.history)|, journalled, outcome)
    ensures Explained(host, node.log, outcome, t.before.boot.Some?)
    ensures node.history != old(node.history) ==> {Validate, Quiescence} <= node.granted
  {
    ghost var start := |node.history|;
    node.stage := Preparing;
    var ok;
    ok, t := Prepare(host, node, current, candidate, start);
    journalled := |node.history|;
    if !ok { return PrepareFailed, t, journalled; }
    outcome := Complete(host, node, current, candidate, t, start, journalled);
  }

  /** What follows a journalled preparation: the candidate is brought forward, or everything goes back. */
  method Complete(host: Host, node: Node, current: Generation, candidate: Generation,
                  ghost t: Transaction, ghost start: nat, ghost journalled: nat)
    returns (outcome: Outcome)
    requires node.Valid() && t.host == host && t.plan.candidate == candidate && t.plan.current == current && current != candidate
    requires Recoverable(t, node.files) && Running(t, node.history, start, journalled, |node.history|)
    requires t.TupleIn(node.files) == t.before && t.plan.prepared.Prepared?
    requires Lookup(node.files, t.plan.prepared) == t.Candidate().boot != None
    requires node.faults == [] && node.commands == [Validate] + PrepareCommands(host)
    modifies node
    ensures node.Valid() && old(node.granted) <= node.granted
    ensures outcome.Applied? || outcome.RolledBack? || outcome.RollbackFailed?
    ensures AllOrNothing(t, node.history, start, journalled, outcome)
    ensures Explained(host, node.log, outcome, true)
  {
    var ok, stage, loaded := Advance(host, node, candidate, t, start, journalled);
    if ok {
      TransactionStates(t, node.history, start, journalled, Applied);
      assert node.commands == UpdateCommands(host, loaded);
      return Applied;
    }
    outcome := Retreat(host, node, current, stage, t, start, journalled);
  }

  /** Rolls back for a stage that failed. */
  method Retreat(host: Host, node: Node, current: Generation, cause: Stage,
                 ghost t: Transaction, ghost start: nat, ghost journalled: nat)
    returns (outcome: Outcome)
    requires node.Valid() && t.host == host && t.plan.current == current != t.plan.candidate
    requires Interrupted(t, node.files) && Running(t, node.history, start, journalled, |node.history|)
    requires node.faults == [cause] && cause in {Activating, ProvingReady, Committing}
    requires cause != Committing ==> BackupBoot in node.files
    modifies node
    ensures node.Valid() && old(node.granted) <= node.granted
    ensures outcome == RolledBack(cause) || outcome == RollbackFailed(cause)
    ensures AllOrNothing(t, node.history, start, journalled, outcome)
    ensures Explained(host, node.log, outcome, true)
  {
    node.stage := RollingBack;
    var ok := Rollback(host, node, current, t, start, journalled);
    outcome := if ok then RolledBack(cause) else RollbackFailed(cause);
    TransactionStates(t, node.history, start, journalled, outcome);
  }

  /** Activates the journalled candidate, has it prove itself ready and commits it, up to the first of these
      that fails. Only a commit can have begun to clear the evidence. */
  method Advance(host: Host, node: Node, candidate: Generation, ghost t: Transaction, ghost start: nat, ghost journalled: nat)
    returns (ok: bool, stage: Stage, ghost loaded: bool)
    requires node.Valid() && t.host == host && t.plan.candidate == candidate
    requires Recoverable(t, node.files) && Running(t, node.history, start, journalled, |node.history|)
    requires t.TupleIn(node.files) == t.before && t.plan.prepared.Prepared?
    requires Lookup(node.files, t.plan.prepared) == t.Candidate().boot != None
    modifies node
    ensures node.Valid() && old(node.granted) <= node.granted && stage in {Activating, ProvingReady, Committing}
    ensures node.faults == if ok then old(node.faults) else old(node.faults) + [stage]
    ensures ok ==> node.commands == old(node.commands) + ActivateCommands(host) + [ProveReady] + CommitCommands(host, loaded)
    ensures ok ==> t.TupleIn(node.files) == t.Candidate() && Journal !in node.files
    ensures ok ==> Running(t, node.history, start, journalled, |node.history| - 1)
    ensures !ok ==> Running(t, node.history, start, journalled, |node.history|) && Interrupted(t, node.files)
    ensures !ok && stage != Committing ==> BackupBoot in node.files
  {
    loaded := false;
    ok, stage := ActivateAndProve(host, node, candidate, t, start, journalled);
    if !ok { return; }
    stage := Committing;
    node.stage := stage;
    ok, loaded := Commit(host, node, candidate, t, start, journalled);
  }

  /** The candidate must come up and report itself healthy as exactly itself. */
  method ActivateAndProve(host: Host, node: Node, candidate: Generation, ghost t: Transaction, ghost start: nat, ghost journalled: nat)
    returns (ok: bool, stage: Stage)
    requires node.Valid() && t.host == host && t.plan.candidate == candidate
    requires Recoverable(t, node.files) && Running(t, node.history, start, journalled, |node.history|)
    requires t.TupleIn(node.files) == t.before && t.plan.prepared.Prepared?
    requires Lookup(node.files, t.plan.prepared) == t.Candidate().boot != None
    modifies node
    ensures node.Valid() && old(node.granted) <= node.granted && stage in {Activating, ProvingReady}
    ensures node.faults == if ok then old(node.faults) else old(node.faults) + [stage]
    ensures ok ==> node.commands == old(node.commands) + ActivateCommands(host) + [ProveReady] && ProveReady in node.granted
    ensures Recoverable(t, node.files) && Running(t, node.history, start, journalled, |node.history|)
    ensures ok ==> t.TupleIn(node.files) == t.before.(boot := t.Candidate().boot)
  {
    stage := Activating;
    node.stage := stage;
    ok := Activate(host, node, candidate, t, start, journalled);
    if !ok { return; }
    stage := ProvingReady;
    node.stage := stage;
    ok := node.Run(ProveReady);
  }

  /** What a transaction's states tell another process. */
  lemma TransactionStates(t: Transaction, history: seq<Files>, start: nat, journalled: nat, outcome: Outcome)
    requires |history| > 0 && t.plan.current != t.plan.candidate
    requires outcome.Applied? || outcome.RolledBack? || outcome.RollbackFailed?
    requires outcome.RollbackFailed? ==> Running(t, history, start, journalled, |history|)
    requires !outcome.RollbackFailed? ==> Running(t, history, start, journalled, |history| - 1)
    requires outcome.Applied? ==> t.TupleIn(history[|history| - 1]) == t.Candidate() && Journal !in history[|history| - 1]
    requires outcome.RolledBack? ==> t.TupleIn(history[|history| - 1]) == t.Restored() && Journal !in history[|history| - 1]
    requires outcome.RollbackFailed? ==> Interrupted(t, history[|history| - 1])
    ensures AllOrNothing(t, history, start, journalled, outcome)
  {
    var end := if outcome.RollbackFailed? then |history| else |history| - 1;
    forall i | start <= i < |history|
      ensures WholeOrRecoverable(t, history[i])
    {
      if i < end { RunningAt(t, history, start, journalled, end, i); }
    }
    forall i, j | journalled <= i <= j < |history| && GatePasses(history[i], history[j], t.plan.candidate)
      ensures outcome.Applied? && t.TupleIn(history[i]) == t.Candidate()
    {
      if i < end { RunningAt(t, history, start, journalled, end, i); }
    }
  }

  /** What a rollback restores is what was there exactly when the `current` link named the installed
      generation before the update. */
  lemma RestoresExactly(host: Host, mode: string, files: Files, current: Generation)
    requires InstalledIn(files) == Some(current)
    ensures RestoredTuple(TupleOf(host, mode, files), current) == TupleOf(host, mode, files)
            <==> Lookup(files, CurrentLink) == Some(LinkTo(current.releaseDir))
  {
  }

  /** A node on which a commit was interrupted after it had moved the link to the candidate, and whose
      rollback then failed at its first step. */
  function InterruptedFiles(current: Generation, candidate: Generation, boot: string): Files {
    var plan := UpdateJournal(current, candidate, Prepared(candidate.version, candidate.mode), BackupBoot, BackupUpdater, false,
                              BackupTimer, false);
    map[Plist := Text(boot), BackupBoot := Text(boot), Journal := Plan(plan),
        Installed := Record(current), CurrentLink := LinkTo(candidate.releaseDir)]
  }

  /** Such a node is one that a failed rollback may leave, its installed record still names the current
      generation, and a later update of it that is rolled back does not leave the tuple as it was: it moves
      the link back. */
  lemma InterruptedLinkIsNotRestored(host: Host, current: Generation, candidate: Generation, boot: string)
    requires host.Launchd? && current.Valid() && current.releaseDir != candidate.releaseDir
    ensures var files := InterruptedFiles(current, candidate, boot);
            var clean := Tuple(Some(Text(boot)), None, None, Some(Record(current)), Some(LinkTo(current.releaseDir)));
            && Interrupted(Transaction(host, clean, files[Journal].plan), files)
            && InstalledIn(files) == Some(current)
            && RestoredTuple(TupleOf(host, candidate.mode, files), current) == clean != TupleOf(host, candidate.mode, files)
  {
  }

  // --- The host a node names -----------------------------------------------------------------

  method Prepare(host: Host, node: Node, current: Generation, candidate: Generation, ghost start: nat)
    returns (ok: bool, ghost t: Transaction)
    requires node.Valid() && start == |node.history|
    requires Validate in node.granted && Quiescence !in node.granted
    modifies node
    ensures node.RecordedUnless(t.before.boot.None?, ok, PrepareCommands(host))
    ensures Quiescence !in node.granted ==> node.history == old(node.history)
    ensures ok ==> Quiescence in node.granted
    ensures node.Valid() && start <= |node.history|
    ensures t.host == host && t.before == TupleOf(host, candidate.mode, old(node.files))
    ensures t.plan.current == current && t.plan.candidate == candidate
    ensures Steady(host, candidate.mode, t.before, node.history, start) && t.TupleIn(node.files) == t.before
    ensures ok ==> Recoverable(t, node.files) && t.plan.prepared.Prepared?
    ensures ok ==> Lookup(node.files, t.plan.prepared) == t.Candidate().boot != None
  {
    if host.Launchd? {
      ok, t := LocalHost.Prepare(host, node, current, candidate, start);
    } else {
      ok, t := SystemdHost.Prepare(host, node, current, candidate, start);
    }
  }

  method Activate(host: Host, node: Node, candidate: Generation,
                  ghost t: Transaction, ghost start: nat, ghost journalled: nat)
    returns (ok: bool)
    requires node.Valid() && t.host == host && t.plan.candidate == candidate
    requires Recoverable(t, node.files) && Running(t, node.history, start, journalled, |node.history|)
    requires t.TupleIn(node.files) == t.before && t.plan.prepared.Prepared?
    requires Lookup(node.files, t.plan.prepared) == t.Candidate().boot != None
    modifies node
    ensures node.Recorded(ok, ActivateCommands(host))
    ensures node.Valid() && Recoverable(t, node.files) && Running(t, node.history, start, journalled, |node.history|)
    ensures ok ==> t.TupleIn(node.files) == t.before.(boot := t.Candidate().boot)
  {
    if host.Launchd? {
      ok := LocalHost.Activate(host, node, candidate, t, start, journalled);
    } else {
      ok := SystemdHost.Activate(host, node, candidate, t, start, journalled);
    }
  }

  method Commit(host: Host, node: Node, candidate: Generation,
                ghost t: Transaction, ghost start: nat, ghost journalled: nat)
    returns (ok: bool, ghost loaded: bool)
    requires node.Valid() && t.host == host && t.plan.candidate == candidate
    requires Recoverable(t, node.files) && Running(t, node.history, start, journalled, |node.history|)
    requires t.TupleIn(node.files) == t.before.(boot := t.Candidate().boot)
    requires ProveReady in node.granted
    modifies node
    ensures node.Recorded(ok, CommitCommands(host, loaded))
    ensures node.Valid()
    ensures ok ==> t.TupleIn(node.files) == t.Candidate() && Journal !in node.files
    ensures ok ==> Running(t, node.history, start, journalled, |node.history| - 1)
    ensures !ok ==> Running(t, node.history, start, journalled, |node.history|) && Interrupted(t, node.files)
  {
    if host.Launchd? {
      ok, loaded := LocalHost.Commit(host, node, candidate, t, start, journalled);
    } else {
      loaded := false;
      ok := SystemdHost.Commit(host, node, candidate, t, start, journalled);
    }
  }

  method Rollback(host: Host, node: Node, current: Generation,
                  ghost t: Transaction, ghost start: nat, ghost journalled: nat)
    returns (ok: bool)
    requires node.Valid() && t.host == host && t.plan.current == current
    requires Interrupted(t, node.files) && Running(t, node.history, start, journalled, |node.history|)
    modifies node
    ensures node.RecordedUnless(old(BackupBoot !in node.files), ok, RollbackCommands(host, t.plan.hadTimer))
    ensures node.Valid()
    ensures ok ==> t.TupleIn(node.files) == t.Restored() && Journal !in node.files
    ensures ok ==> Running(t, node.history, start, journalled, |node.history| - 1)
    ensures !ok ==> Running(t, node.history, start, journalled, |node.history|) && Interrupted(t, node.files)
  {
    if host.Launchd? {
      ok := LocalHost.Rollback(host, node, current, t, start, journalled);
    } else {
      ok := SystemdHost.Rollback(host, node, current, t, start, journalled);
    }
  }

  // --- Runs of updates -----------------------------------------------------------------------

  /** `later` may have been reached from `earlier` by admissible updates. */
  predicate Advanced(earlier: Generation, later: Generation) {
    earlier == later || Admissible(earlier, later)
  }

  lemma AdvancedTransitive(a: Generation, b: Generation, c: Generation)
    requires Advanced(a, b) && Advanced(b, c)
    ensures Advanced(a, c)
  {
    CompareIsTotalPreorder(a.version, b.version, c.version);
  }

  /** What an attempted update leaves: one of the two generations installed; and, rolled back, the
      tuple as it was exactly when the link named the installed generation. */
  lemma AttemptTells(t: Transaction, history: seq<Files>, start: nat, journalled: nat, outcome: Outcome, files: Files)
    requires AllOrNothing(t, history, start, journalled, outcome) && outcome.Attempted()
    requires InstalledIn(files) == Some(t.plan.current) && t.before == TupleOf(t.host, t.Mode(), files)
    requires t.plan.candidate.Valid()
    ensures var now := InstalledIn(history[|history| - 1]); now == Some(t.plan.current) || now == Some(t.plan.candidate)
    ensures outcome.RolledBack? ==>
              (t.TupleIn(history[|history| - 1]) == t.before <==> Lookup(files, CurrentLink) == Some(LinkTo(t.plan.current.releaseDir)))
  {
    var last := history[|history| - 1];
    LeavesEither(t, last, outcome, history, start, journalled);
    RestoresExactly(t.host, t.Mode(), files, t.plan.current);
  }

  lemma LeavesEither(t: Transaction, last: Files, outcome: Outcome, history: seq<Files>, start: nat, journalled: nat)
    requires AllOrNothing(t, history, start, journalled, outcome) && outcome.Attempted() && last == history[|history| - 1]
    ensures NamesEither(t, Lookup(last, Installed))
  {
    assert t.TupleIn(last).installed == Lookup(last, Installed);
  }

  /** What each outcome means, file by file: every file of the tuple is the candidate's, or every definition is
      what it was and the record and the link are the current generation's, or nothing has changed. */
  lemma OutcomeTells(t: Transaction, history: seq<Files>, start: nat, journalled: nat, outcome: Outcome)
    requires AllOrNothing(t, history, start, journalled, outcome)
    ensures var last, mode, candidate, current := history[|history| - 1], t.plan.candidate.mode, t.plan.candidate, t.plan.current;
            && (outcome.Applied? ==>
                  && Lookup(last, Installed) == Some(Record(candidate)) && Lookup(last, CurrentLink) == Some(LinkTo(candidate.releaseDir))
                  && (t.host.Launchd? ==>
                        && Lookup(last, Plist) == Rendered(t.host.controllerText(candidate))
                        && Lookup(last, Updater) == Some(Text(t.host.updaterText(candidate))))
                  && (t.host.Systemd? ==>
                        && Lookup(last, Unit(mode)) == Rendered(t.host.unitText(candidate, ControllerUnit))
                        && Lookup(last, Updater) == Rendered(t.host.unitText(candidate, UpdaterUnit))
                        && Lookup(last, Timer) == Rendered(t.host.unitText(candidate, TimerUnit))))
            && (outcome.RolledBack? ==>
                  && Lookup(last, Installed) == Some(Record(current)) && Lookup(last, CurrentLink) == Some(LinkTo(current.releaseDir))
                  && Lookup(last, BootPath(t.host, mode)) == t.before.boot
                  && Lookup(last, Updater) == t.before.updater && Lookup(last, Timer) == t.before.timer)
            && (outcome.PrepareFailed? ==>
                  && Lookup(last, Installed) == t.before.installed && Lookup(last, CurrentLink) == t.before.link
                  && Lookup(last, BootPath(t.host, mode)) == t.before.boot
                  && Lookup(last, Updater) == t.before.updater && Lookup(last, Timer) == t.before.timer)
  {
    assert t.TupleIn(history[|history| - 1]).boot == Lookup(history[|history| - 1], BootPath(t.host, t.plan.candidate.mode));
  }

  /** One update seen from the installed record alone. */
  method Update(host: Host, node: Node, candidate: Generation)
    requires node.Valid() && InstalledIn(node.files).Some?
    modifies node
    ensures node.Valid() && InstalledIn(node.files).Some?
    ensures Advanced(InstalledIn(old(node.files)).value, InstalledIn(node.files).value)
  {
    var outcome, t, journalled := Apply(host, node, candidate);
  }

  /** Over any sequence of updates, whatever fails in each of them, the installed version never goes
      back, the mode never changes, and an installed generation whose version still compares equal
      differs from the first one in its configuration path at most. */
  method ApplyAll(host: Host, node: Node, candidates: seq<Generation>)
    requires node.Valid() && InstalledIn(node.files).Some?
    modifies node
    ensures node.Valid() && InstalledIn(node.files).Some?
    ensures var first, last := InstalledIn(old(node.files)).value, InstalledIn(node.files).value;
            && first.mode == last.mode
            && (first != last ==>
                  var order := Compare(first.version, last.version);
                  && order.Some? && order.value <= 0
                  && (order.value == 0 ==>
                        && first.version == last.version && first.releaseDir == last.releaseDir && first.endpoint == last.endpoint
                        && first.configPath != last.configPath))
  {
    for k := 0 to |candidates|
      invariant node.Valid() && InstalledIn(node.files).Some?
      invariant Advanced(InstalledIn(old(node.files)).value, InstalledIn(node.files).value)
    {
      ghost var before := InstalledIn(node.files).value;
      Update(host, node, candidates[k]);
      AdvancedTransitive(InstalledIn(old(node.files)).value, before, InstalledIn(node.files).value);
    }
  }
}
