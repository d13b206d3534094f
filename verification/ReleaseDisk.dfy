/**
 The files a release transaction works on, and the few ways it touches them
 (internal/autoupdate/host.go).

 Every primitive may fail on any call. A write replaces a file by a rename, so it fails either
 before the rename, leaving the file as it was, or after it, leaving the new contents behind an
 error. `history` records every state the files have been in, so that a contract can speak about
 what another process could have seen in the middle of an operation. `log` records every command, read,
 write, removal and inspection with its outcome, so that a contract can say why an operation ended as it
 did.
 */
module ReleaseDisk {
  import opened Basics

  predicate IsSpace(c: char) { c == ' ' || c == '\t' || c == '\n' || c == '\r' }

  predicate Blank(s: string) { s == [] || (IsSpace(s[0]) && Blank(s[1..])) }

  /** The binary, configuration and service tuple that must survive a reboot. */
  datatype Generation = Generation(version: string, mode: string, releaseDir: string,
                                   configPath: string, endpoint: string)
  {
    predicate Valid() {
      && !Blank(version)
      && mode in ["observe", "shadow", "canary", "authority"]
      && "/" <= releaseDir && "/" <= configPath && "unix:///" <= endpoint
    }
  }

  datatype UnitName = ControllerUnit | UpdaterUnit | TimerUnit

  /** The supervisor a node is driven by, with the definitions it renders for a generation. A
      systemd unit is rendered from a template the release carries, which may be missing or not
      renderable; the launchd updater job is written by the program itself. */
  datatype Host =
    | Launchd(controllerText: Generation -> Option<string>, updaterText: Generation -> string,
              handoffText: Generation -> string)
    | Systemd(unitText: (Generation, UnitName) -> Option<string>)

  datatype Path =
    | Prepared(version: string, mode: string)
    | Plist
    | Unit(mode: string)
    | Updater
    | Timer
    | Handoff
    | CurrentLink
    | Installed
    | BackupBoot
    | BackupUpdater
    | BackupTimer
    | Journal

  datatype UpdateJournal = UpdateJournal(current: Generation, candidate: Generation, prepared: Path,
                                         backup: Path, backupUpdater: Path, hadUpdater: bool,
                                         backupTimer: Path, hadTimer: bool)

  datatype Body = Text(text: string) | Record(generation: Generation) | LinkTo(dir: string) | Plan(plan: UpdateJournal)

  type Files = map<Path, Body>

  function Lookup(files: Files, path: Path): Option<Body> {
    if path in files then Some(files[path]) else None
  }

  /** The boot definition of a mode: one fixed plist under launchd, one unit per mode under systemd. */
  function BootPath(host: Host, mode: string): Path {
    if host.Launchd? then Plist else Unit(mode)
  }

  /** What must be promoted or restored as one unit. */
  datatype Tuple = Tuple(boot: Option<Body>, updater: Option<Body>, timer: Option<Body>,
                         installed: Option<Body>, link: Option<Body>)

  function TupleOf(host: Host, mode: string, files: Files): Tuple {
    Tuple(Lookup(files, BootPath(host, mode)), Lookup(files, Updater), Lookup(files, Timer),
          Lookup(files, Installed), Lookup(files, CurrentLink))
  }

  /** A tuple after one file of it was replaced or removed. */
  function Replaced(host: Host, mode: string, tuple: Tuple, path: Path, body: Option<Body>): Tuple {
    if path == BootPath(host, mode) then tuple.(boot := body)
    else match path
      case Updater => tuple.(updater := body)
      case Timer => tuple.(timer := body)
      case Installed => tuple.(installed := body)
      case CurrentLink => tuple.(link := body)
      case _ => tuple
  }

  function Rendered(text: Option<string>): Option<Body> {
    if text.Some? then Some(Text(text.value)) else None
  }

  /** The tuple that is entirely a candidate's. A launchd node has no timer unit, so whatever was
      there stays. */
  function CandidateTuple(host: Host, before: Tuple, candidate: Generation): Tuple {
    match host
    case Launchd(controllerText, updaterText, _) =>
      Tuple(Rendered(controllerText(candidate)), Some(Text(updaterText(candidate))), before.timer,
            Some(Record(candidate)), Some(LinkTo(candidate.releaseDir)))
    case Systemd(unitText) =>
      Tuple(Rendered(unitText(candidate, ControllerUnit)), Rendered(unitText(candidate, UpdaterUnit)),
            Rendered(unitText(candidate, TimerUnit)), Some(Record(candidate)), Some(LinkTo(candidate.releaseDir)))
  }

  /** The tuple a rollback leaves: the three definitions as they were, and the installed record and
      link of the generation that was current. */
  function RestoredTuple(before: Tuple, current: Generation): Tuple {
    before.(installed := Some(Record(current)), link := Some(LinkTo(current.releaseDir)))
  }

  // --- What a state in the middle of a transaction must still carry ---------------------------

  /** One journalled transaction: who drives it, what was there before it, and its journal. */
  datatype Transaction = Transaction(host: Host, before: Tuple, plan: UpdateJournal)
  {
    function Mode(): string { plan.candidate.mode }
    function TupleIn(files: Files): Tuple { TupleOf(host, Mode(), files) }
    function Candidate(): Tuple { CandidateTuple(host, before, plan.candidate) }
    function Restored(): Tuple { RestoredTuple(before, plan.current) }
  }

  /** A definition the journal promises to put back: its old body if there was one, and no file if
      there was none. */
  ghost predicate Saved(files: Files, had: bool, backup: Path, old_: Option<Body>) {
    if had then old_.Some? && Lookup(files, backup) == old_ else old_.None?
  }

  ghost predicate Journalled(t: Transaction, files: Files) {
    && Lookup(files, Journal) == Some(Plan(t.plan))
    && t.plan.backup == BackupBoot && t.plan.backupUpdater == BackupUpdater && t.plan.backupTimer == BackupTimer
  }

  /** The installed record names the generation that was current or the candidate, never a third. */
  ghost predicate NamesEither(t: Transaction, installed: Option<Body>) {
    installed == t.before.installed || installed == Some(Record(t.plan.candidate)) || installed == Some(Record(t.plan.current))
  }

  /** Everything a rollback needs is on disk: the journal and the old body of every definition. */
  ghost predicate Recoverable(t: Transaction, files: Files) {
    && Journalled(t, files)
    && NamesEither(t, Lookup(files, Installed))
    && Saved(files, true, BackupBoot, t.before.boot)
    && Saved(files, t.plan.hadUpdater, BackupUpdater, t.before.updater)
    && (if t.host.Systemd? then Saved(files, t.plan.hadTimer, BackupTimer, t.before.timer)
        else Lookup(files, Timer) == t.before.timer)
  }

  /** The tuple is whole: the candidate's, or what a rollback restores. */
  ghost predicate Whole(t: Transaction, files: Files) {
    t.TupleIn(files) == t.Candidate() || t.TupleIn(files) == t.Restored()
  }

  ghost predicate Guarded(t: Transaction, files: Files) {
    Journalled(t, files) && (Recoverable(t, files) || Whole(t, files))
  }

  /** Where a failed commit or rollback leaves the files: with all the means to go back, or with the
      journal and a whole tuple once cleaning up has begun with the first backup. */
  ghost predicate Interrupted(t: Transaction, files: Files) {
    Recoverable(t, files) || (Journalled(t, files) && Whole(t, files) && BackupBoot !in files)
  }

  /** No state since `start` changed the tuple. */
  ghost predicate Steady(host: Host, mode: string, before: Tuple, history: seq<Files>, start: nat) {
    forall i | start <= i < |history| :: TupleOf(host, mode, history[i]) == before
  }

  /** The states a transaction went through up to `end`: the tuple as it was until the journal was
      written, and from then on the journal with either the means to go back or a whole tuple. */
  ghost predicate Running(t: Transaction, history: seq<Files>, start: nat, journalled: nat, end: nat)
    decreases end
  {
    && start <= journalled <= end <= |history|
    && if end == journalled then forall i | start <= i < journalled :: t.TupleIn(history[i]) == t.before
       else Guarded(t, history[end - 1]) && Running(t, history, start, journalled, end - 1)
  }

  /** A longer history went through the same states. */
  lemma {:induction false} RunningExtends(t: Transaction, before: seq<Files>, after: seq<Files>,
                                          start: nat, journalled: nat, end: nat)
    requires Running(t, before, start, journalled, end) && before <= after
    ensures Running(t, after, start, journalled, end)
    decreases end
  {
    if end > journalled { RunningExtends(t, before, after, start, journalled, end - 1); }
  }

  lemma RunningGrows(t: Transaction, history: seq<Files>, next: Files, start: nat, journalled: nat)
    requires Running(t, history, start, journalled, |history|) && Recoverable(t, next)
    ensures Running(t, history + [next], start, journalled, |history| + 1)
  {
    RunningExtends(t, history, history + [next], start, journalled, |history|);
  }

  lemma {:induction false} RunningAt(t: Transaction, history: seq<Files>, start: nat, journalled: nat, end: nat, i: nat)
    requires Running(t, history, start, journalled, end) && start <= i < end
    ensures i < journalled ==> t.TupleIn(history[i]) == t.before
    ensures journalled <= i ==> Guarded(t, history[i])
    decreases end
  {
    if end > journalled && i != end - 1 { RunningAt(t, history, start, journalled, end - 1, i); }
  }

  /** The states from `from` to `end` are guarded as well. */
  lemma {:induction false} RunningOn(t: Transaction, history: seq<Files>, start: nat, journalled: nat, from: nat, end: nat)
    requires Running(t, history, start, journalled, from) && from <= end <= |history|
    requires forall i | from <= i < end :: Guarded(t, history[i])
    ensures Running(t, history, start, journalled, end)
    decreases end
  {
    if end > from { RunningOn(t, history, start, journalled, from, end - 1); }
  }

  // --- One file changes ----------------------------------------------------------------------

  lemma WriteReplaces(host: Host, mode: string, files: Files, path: Path, body: Body)
    ensures TupleOf(host, mode, files[path := body]) == Replaced(host, mode, TupleOf(host, mode, files), path, Some(body))
  {
  }

  lemma RemovalReplaces(host: Host, mode: string, files: Files, path: Path)
    ensures TupleOf(host, mode, files - {path}) == Replaced(host, mode, TupleOf(host, mode, files), path, None)
  {
  }

  /** The files a rollback reads. */
  predicate Evidence(path: Path) { path in {BackupBoot, BackupUpdater, BackupTimer, Journal} }

  lemma WriteKeepsMeans(t: Transaction, files: Files, path: Path, body: Body)
    requires Recoverable(t, files) && !Evidence(path)
    requires (path == Timer ==> t.host.Systemd?) && (path == Installed ==> NamesEither(t, Some(body)))
    ensures Recoverable(t, files[path := body])
  {
  }

  lemma RemovalKeepsMeans(t: Transaction, files: Files, path: Path)
    requires Recoverable(t, files) && !Evidence(path) && path != Installed
    requires path == Timer ==> t.host.Systemd?
    ensures Recoverable(t, files - {path})
  {
  }

  /** No file but the journal and these backups differs. */
  ghost predicate SameBut(before: Files, after: Files, backups: seq<Path>) {
    forall p | p !in backups && p != Journal :: Lookup(after, p) == Lookup(before, p)
  }

  /** Removing backups leaves a whole tuple whole, and guarded while the journal is there. */
  lemma ClearingKeepsWhole(t: Transaction, before: Files, after: Files, backups: seq<Path>)
    requires Whole(t, before) && forall p | p in backups :: p in {BackupBoot, BackupUpdater, BackupTimer}
    requires SameBut(before, after, backups)
    ensures t.TupleIn(after) == t.TupleIn(before) && Whole(t, after)
    ensures Journalled(t, before) && Lookup(after, Journal) == Lookup(before, Journal) ==> Guarded(t, after)
  {
    var boot := BootPath(t.host, t.Mode());
    assert Lookup(after, boot) == Lookup(before, boot) && Lookup(after, Updater) == Lookup(before, Updater);
    assert Lookup(after, Timer) == Lookup(before, Timer) && Lookup(after, Installed) == Lookup(before, Installed);
    assert Lookup(after, CurrentLink) == Lookup(before, CurrentLink);
  }

  // --- What was done and how it went ---------------------------------------------------------

  datatype Command = Validate | Quiescence | Template | Lint | Unload | Bootstrap | Kickstart | ProveReady | AskLoaded
                   | Reload | Restart | Enable | Disable

  datatype Deed = Ran(command: Command) | FilledIn(unit: UnitName) | Looked(path: Path) | Wrote(path: Path)
                | Removed(path: Path) | Inspected(path: Path)

  /** What an update is about when it does something. */
  datatype Stage = Judging | Validating | Preparing | Activating | ProvingReady | Committing | RollingBack

  datatype Event = Event(stage: Stage, deed: Deed, ok: bool)

  /** A failure nothing may follow. That a job is not loaded, or was not there to unload or disable, is an
      answer and not a failure. */
  predicate Fatal(e: Event) { !e.ok && e.deed !in {Ran(Unload), Ran(AskLoaded), Ran(Disable)} }

  /** The entries of one update, the latest outermost. */
  datatype Log = Opened | Then(earlier: Log, event: Event)

  function Entries(log: Log): seq<Event> {
    if log.Opened? then [] else Entries(log.earlier) + [log.event]
  }

  /** The stages of the fatal entries, in order. */
  function FaultsIn(log: Log): seq<Stage> {
    if log.Opened? then []
    else if Fatal(log.event) then FaultsIn(log.earlier) + [log.event.stage] else FaultsIn(log.earlier)
  }

  function CommandsIn(log: Log): seq<Command> {
    if log.Opened? then []
    else if log.event.deed.Ran? then CommandsIn(log.earlier) + [log.event.deed.command] else CommandsIn(log.earlier)
  }

  /** The commands that have succeeded. */
  function GrantedIn(log: Log): set<Command> {
    if log.Opened? then {}
    else if log.event.deed.Ran? && log.event.ok then GrantedIn(log.earlier) + {log.event.deed.command} else GrantedIn(log.earlier)
  }

  /** No entry is fatal if there are no faults, and otherwise the first of them is the stage of the first fatal
      entry. */
  lemma {:induction false} FirstFaultIsFirst(log: Log)
    ensures FaultsIn(log) == [] <==> forall e | e in Entries(log) :: !Fatal(e)
    ensures FaultsIn(log) != [] ==>
              exists i :: 0 <= i < |Entries(log)| && Fatal(Entries(log)[i]) && Entries(log)[i].stage == FaultsIn(log)[0]
                && forall j | 0 <= j < i :: !Fatal(Entries(log)[j])
  {
    if log.Then? {
      FirstFaultIsFirst(log.earlier);
      var earlier, all := Entries(log.earlier), Entries(log);
      assert forall j | 0 <= j < |earlier| :: all[j] == earlier[j];
      if FaultsIn(log.earlier) == [] && Fatal(log.event) {
        assert all[|earlier|] == log.event;
        assert forall j | 0 <= j < |earlier| :: all[j] in earlier;
      }
    }
  }

  /** A command whose failure is fatal and that was run in a log without fatal entries has succeeded. */
  lemma {:induction false} RunIsGranted(log: Log, command: Command)
    requires FaultsIn(log) == [] && command in CommandsIn(log) && command !in {Unload, AskLoaded, Disable}
    ensures command in GrantedIn(log)
  {
    if command in CommandsIn(log.earlier) { RunIsGranted(log.earlier, command); }
  }

  // --- The primitives ------------------------------------------------------------------------

  datatype ReadResult = Found(body: Body) | Missing | Unreadable

  class Node {
    var files: Files
    ghost var history: seq<Files>
    ghost var log: Log
    ghost var stage: Stage
    ghost var faults: seq<Stage>
    ghost var commands: seq<Command>
    ghost var granted: set<Command>

    ghost predicate Valid()
      reads this
    {
      && |history| > 0 && history[|history| - 1] == files
      && faults == FaultsIn(log) && commands == CommandsIn(log) && granted == GrantedIn(log)
    }

    /** A fatal entry of this stage was logged exactly if not ok. */
    twostate predicate Faulted(ok: bool)
      reads this
    {
      stage == old(stage) && faults == if ok then old(faults) else old(faults) + [stage]
    }

    /** And no command was run. */
    twostate predicate Quiet(ok: bool)
      reads this
    {
      Faulted(ok) && commands == old(commands) && granted == old(granted)
    }

    /** And these commands were run, in order, if ok. */
    twostate predicate Recorded(ok: bool, done: seq<Command>)
      reads this
    {
      Faulted(ok) && old(granted) <= granted && (ok ==> commands == old(commands) + done)
    }

    /** The same two for what may also fail, without a fatal entry, for want of a file. */
    twostate predicate QuietUnless(missing: bool, ok: bool)
      reads this
    {
      (Faulted(ok) || (missing && !ok && Faulted(true))) && commands == old(commands) && granted == old(granted)
    }

    twostate predicate RecordedUnless(missing: bool, ok: bool, done: seq<Command>)
      reads this
    {
      && (Faulted(ok) || (missing && !ok && Faulted(true)))
      && old(granted) <= granted && (ok ==> commands == old(commands) + done)
    }

    constructor (files: Files)
      ensures Valid() && this.files == files && history == [files] && log == Opened
    {
      this.files := files;
      history, log, stage, faults, commands, granted := [files], Opened, Judging, [], [], {};
    }

    /** Opens the log of an update. */
    ghost method Begin()
      requires Valid()
      modifies `log, `stage, `faults, `commands, `granted
      ensures Valid() && log == Opened && stage == Judging
    {
      log, stage, faults, commands, granted := Opened, Judging, [], [], {};
    }

    ghost method Note(deed: Deed, ok: bool)
      requires Valid()
      modifies `log, `faults, `commands, `granted
      ensures Valid() && log == Then(old(log), Event(stage, deed, ok))
      ensures faults == if Fatal(Event(stage, deed, ok)) then old(faults) + [stage] else old(faults)
      ensures commands == if deed.Ran? then old(commands) + [deed.command] else old(commands)
      ensures granted == if deed.Ran? && ok then old(granted) + {deed.command} else old(granted)
    {
      log := Then(log, Event(stage, deed, ok));
      faults, commands, granted := FaultsIn(log), CommandsIn(log), GrantedIn(log);
    }

    /** A command issued to the supervisor, or to a release's own executable. */
    method Run(command: Command) returns (ok: bool)
      requires Valid()
      modifies `log, `faults, `commands, `granted
      ensures Valid() && commands == old(commands) + [command]
      ensures granted == if ok then old(granted) + {command} else old(granted)
      ensures faults == if Fatal(Event(stage, Ran(command), ok)) then old(faults) + [stage] else old(faults)
    {
      ok := *;
      Note(Ran(command), ok);
    }

    /** Rendering a template that has been read, which may not be renderable. */
    method Render(text: Option<string>, unit: UnitName) returns (ok: bool)
      requires Valid()
      modifies `log, `faults, `commands, `granted
      ensures Valid() && Quiet(ok) && ok == text.Some?
    {
      ok := text.Some?;
      Note(FilledIn(unit), ok);
    }

    method Read(path: Path) returns (result: ReadResult)
      requires Valid()
      modifies `log, `faults, `commands, `granted
      ensures Valid() && Quiet(!result.Unreadable?)
      ensures result.Found? ==> Lookup(files, path) == Some(result.body)
      ensures result.Missing? <==> path !in files && !result.Unreadable?
    {
      var readable := *;
      Note(Looked(path), readable);
      if !readable { return Unreadable; }
      result := if path in files then Found(files[path]) else Missing;
    }

    /** Replaces one file by a rename, or the `current` link by another. */
    method AtomicWrite(path: Path, body: Body) returns (ok: bool)
      requires Valid()
      modifies this
      ensures Valid() && history == old(history) + [files]
      ensures Quiet(ok)
      ensures files == old(files) || files == old(files)[path := body]
      ensures ok ==> files == old(files)[path := body]
    {
      ok := *;
      var renamed := *;
      if ok || renamed { files := files[path := body]; }
      history := history + [files];
      Note(Wrote(path), ok);
    }

    /** Removes one file; a file that is not there is not an error. */
    method Remove(path: Path) returns (ok: bool)
      requires Valid()
      modifies this
      ensures Valid() && history == old(history) + [files]
      ensures Quiet(ok)
      ensures ok ==> files == old(files) - {path}
      ensures !ok ==> files == old(files)
    {
      ok := *;
      if ok { files := files - {path}; }
      history := history + [files];
      Note(Removed(path), ok);
    }

    /** Whether a target may be removed: a target that cannot be inspected, or is not a regular file, may
        not. */
    method Inspect(path: Path) returns (ok: bool)
      requires Valid()
      modifies `log, `faults, `commands, `granted
      ensures Valid() && Quiet(ok)
    {
      ok := *;
      Note(Inspected(path), ok);
    }

    /** Removes a finished transaction's evidence: first every target is inspected, then the backups
        go in order, and the journal goes last. */
    method ClearTransaction(backups: seq<Path>) returns (ok: bool)
      requires Valid()
      requires |backups| > 0 && Journal !in backups
      modifies this
      ensures Valid() && Quiet(ok) && old(history) <= history
      ensures forall i | |old(history)| <= i < |history| :: SameBut(old(files), history[i], backups)
      ensures SameBut(old(files), files, backups)
      ensures forall i | |old(history)| <= i < |history| - (if ok then 1 else 0) ::
                Lookup(history[i], Journal) == Lookup(old(files), Journal)
      ensures ok ==> |history| > |old(history)| && Journal !in files && (forall p | p in backups :: p !in files)
      ensures !ok ==> Lookup(files, Journal) == Lookup(old(files), Journal)
      ensures !ok ==> files == old(files) || backups[0] !in files
    {
      // The inspection pass ends the call before anything was removed.
      for k := 0 to |backups| + 1
        invariant Valid() && Quiet(true) && files == old(files) && history == old(history)
      {
        ok := Inspect(if k < |backups| then backups[k] else Journal);
        if !ok { return; }
      }
      for k := 0 to |backups|
        invariant Valid() && Quiet(true) && old(history) <= history
        invariant forall i | |old(history)| <= i < |history| :: SameBut(old(files), history[i], backups)
        invariant forall i | |old(history)| <= i < |history| :: Lookup(history[i], Journal) == Lookup(old(files), Journal)
        invariant forall p | p !in backups :: Lookup(files, p) == Lookup(old(files), p)
        invariant forall m | 0 <= m < k :: backups[m] !in files
        invariant k == 0 ==> files == old(files)
      {
        ok := Remove(backups[k]);
        if !ok { return; }
      }
      ok := Remove(Journal);
    }

    // --- The same primitives inside a transaction ----------------------------------------------

    /** A write that is not part of the tuple, which nothing may ask for before the candidate has been found
        valid and the daemon quiescent. */
    method Stage(path: Path, body: Body, ghost host: Host, ghost mode: string, ghost before: Tuple, ghost start: nat)
      returns (ok: bool)
      requires Valid() && start <= |history| && Steady(host, mode, before, history, start)
      requires TupleOf(host, mode, files) == before
      requires path.Prepared? || path in {BackupBoot, BackupUpdater, BackupTimer, Journal}
      requires {Validate, Quiescence} <= granted
      modifies this
      ensures Quiet(ok)
      ensures Valid() && |history| >= |old(history)| && Steady(host, mode, before, history, start)
      ensures TupleOf(host, mode, files) == before
      ensures ok ==> files == old(files)[path := body]
    {
      ok := AtomicWrite(path, body);
    }

    /** Copies a definition aside and reports whether there was one. */
    method BackupIfPresent(source: Path, destination: Path,
                           ghost host: Host, ghost mode: string, ghost before: Tuple, ghost start: nat)
      returns (ok: bool, had: bool)
      requires Valid() && start <= |history| && Steady(host, mode, before, history, start)
      requires TupleOf(host, mode, files) == before
      requires destination in {BackupBoot, BackupUpdater, BackupTimer}
      requires {Validate, Quiescence} <= granted
      modifies this
      ensures Quiet(ok)
      ensures Valid() && |history| >= |old(history)| && Steady(host, mode, before, history, start)
      ensures TupleOf(host, mode, files) == before
      ensures ok ==> had == (source in old(files))
      ensures ok && had ==> files == old(files)[destination := old(files)[source]]
      ensures ok && !had ==> files == old(files)
    {
      had := false;
      var body := Read(source);
      if body.Missing? { return true, false; }
      if body.Unreadable? { return false, false; }
      ok := Stage(destination, body.body, host, mode, before, start);
      had := true;
    }

    /** A write of the transaction proper: it leaves the means to go back alone. */
    method Publish(path: Path, body: Body, ghost t: Transaction, ghost start: nat, ghost journalled: nat)
      returns (ok: bool)
      requires Valid() && Recoverable(t, files) && Running(t, history, start, journalled, |history|)
      requires !Evidence(path)
      requires path == Timer ==> t.host.Systemd?
      requires path == Installed ==> NamesEither(t, Some(body))
      modifies this
      ensures Quiet(ok)
      ensures Valid() && Recoverable(t, files) && Running(t, history, start, journalled, |history|)
      ensures ok ==> t.TupleIn(files) == Replaced(t.host, t.Mode(), old(t.TupleIn(files)), path, Some(body))
      ensures ok ==> Lookup(files, path) == Some(body)
    {
      ok := AtomicWrite(path, body);
      WriteReplaces(t.host, t.Mode(), old(files), path, body);
      WriteKeepsMeans(t, old(files), path, body);
      RunningGrows(t, old(history), files, start, journalled);
    }

    /** The same for a removal. */
    method Retract(path: Path, ghost t: Transaction, ghost start: nat, ghost journalled: nat) returns (ok: bool)
      requires Valid() && Recoverable(t, files) && Running(t, history, start, journalled, |history|)
      requires !Evidence(path)
      requires path == Timer ==> t.host.Systemd?
      requires path != Installed
      modifies this
      ensures Quiet(ok)
      ensures Valid() && Recoverable(t, files) && Running(t, history, start, journalled, |history|)
      ensures ok ==> t.TupleIn(files) == Replaced(t.host, t.Mode(), old(t.TupleIn(files)), path, None)
    {
      ok := Remove(path);
      RemovalReplaces(t.host, t.Mode(), old(files), path);
      RemovalKeepsMeans(t, old(files), path);
      RunningGrows(t, old(history), files, start, journalled);
    }

    /** Puts one definition back the way the transaction found it: the saved body if there was one,
        and no file if there was none. */
    method Restore(had: bool, backup: Path, path: Path, ghost was: Option<Body>,
                   ghost t: Transaction, ghost start: nat, ghost journalled: nat)
      returns (ok: bool)
      requires Valid() && Recoverable(t, files) && Running(t, history, start, journalled, |history|)
      requires Saved(files, had, backup, was)
      requires !Evidence(path)
      requires path == Timer ==> t.host.Systemd?
      requires path != Installed
      modifies this
      ensures Quiet(ok)
      ensures Valid() && Recoverable(t, files) && Running(t, history, start, journalled, |history|)
      ensures ok ==> t.TupleIn(files) == Replaced(t.host, t.Mode(), old(t.TupleIn(files)), path, was)
    {
      if !had {
        ok := Retract(path, t, start, journalled);
        return;
      }
      var body := Read(backup);
      if !body.Found? { return false; }
      ok := Publish(path, body.body, t, start, journalled);
    }

    /** Clearing a transaction whose tuple is whole: it stays whole, and the journal is there until
        the very last state. */
    method Finish(backups: seq<Path>, ghost t: Transaction, ghost start: nat, ghost journalled: nat)
      returns (ok: bool)
      requires Valid() && Recoverable(t, files) && Whole(t, files) && Running(t, history, start, journalled, |history|)
      requires |backups| > 0 && backups[0] == BackupBoot
      requires forall p | p in backups :: p in {BackupBoot, BackupUpdater, BackupTimer}
      modifies this
      ensures Quiet(ok)
      ensures Valid()
      ensures t.TupleIn(files) == old(t.TupleIn(files))
      ensures ok ==> |history| > 0 && Running(t, history, start, journalled, |history| - 1) && Journal !in files
      ensures !ok ==> Running(t, history, start, journalled, |history|) && Interrupted(t, files)
    {
      ok := ClearTransaction(backups);
      ClearingKeepsWhole(t, old(files), files, backups);
      RunningExtends(t, old(history), history, start, journalled, |old(history)|);
      forall i | |old(history)| <= i < |history| - (if ok then 1 else 0)
        ensures Guarded(t, history[i])
      {
        ClearingKeepsWhole(t, old(files), history[i], backups);
      }
      RunningOn(t, history, start, journalled, |old(history)|, |history| - (if ok then 1 else 0));
    }

    /** The tail of a commit, for a candidate that has been proved ready: the link, then the installed record,
        then the clean-up. */
    method Promote(candidate: Generation, backups: seq<Path>, ghost t: Transaction, ghost start: nat, ghost journalled: nat)
      returns (ok: bool)
      requires Valid() && Recoverable(t, files) && Running(t, history, start, journalled, |history|)
      requires ProveReady in granted
      requires t.plan.candidate == candidate
      requires t.TupleIn(files) == t.Candidate().(installed := t.TupleIn(files).installed, link := t.TupleIn(files).link)
      requires |backups| > 0 && backups[0] == BackupBoot
      requires forall p | p in backups :: p in {BackupBoot, BackupUpdater, BackupTimer}
      modifies this
      ensures Quiet(ok)
      ensures Valid()
      ensures ok ==> t.TupleIn(files) == t.Candidate() && Journal !in files
      ensures ok ==> Running(t, history, start, journalled, |history| - 1)
      ensures !ok ==> Running(t, history, start, journalled, |history|) && Interrupted(t, files)
    {
      ok := Publish(CurrentLink, LinkTo(candidate.releaseDir), t, start, journalled);
      if !ok { return; }
      ok := Publish(Installed, Record(candidate), t, start, journalled);
      if !ok { return; }
      ok := Finish(backups, t, start, journalled);
    }

    /** The tail of a rollback: the installed record, then the link, then the clean-up. */
    method Reinstate(current: Generation, backups: seq<Path>, ghost t: Transaction, ghost start: nat, ghost journalled: nat)
      returns (ok: bool)
      requires Valid() && Recoverable(t, files) && Running(t, history, start, journalled, |history|)
      requires t.plan.current == current
      requires t.TupleIn(files) == t.before.(installed := t.TupleIn(files).installed, link := t.TupleIn(files).link)
      requires |backups| > 0 && backups[0] == BackupBoot
      requires forall p | p in backups :: p in {BackupBoot, BackupUpdater, BackupTimer}
      modifies this
      ensures Quiet(ok)
      ensures Valid()
      ensures ok ==> t.TupleIn(files) == t.Restored() && Journal !in files
      ensures ok ==> Running(t, history, start, journalled, |history| - 1)
      ensures !ok ==> Running(t, history, start, journalled, |history|) && Interrupted(t, files)
    {
      ok := Publish(Installed, Record(current), t, start, journalled);
      if !ok { return; }
      ok := Publish(CurrentLink, LinkTo(current.releaseDir), t, start, journalled);
      if !ok { return; }
      ok := Finish(backups, t, start, journalled);
    }
  }
}
