# A verified model of the runner fleet's decision logic

Tart Runner Fleet runs short-lived CI runners on macOS and Linux hosts. Most of what can go wrong on
a node is decided by a handful of small state machines and selection rules. This project models those
in Dafny and proves what they promise, over every failure pattern, every run, every interleaving or
every input.

| file | what it models |
|---|---|
| `Basics.dfy` | optional values, minimum, maximum, powers of two, splitting a string, decimal digits |
| `Versions.dfy` | the release version order |
| `ReleaseDisk.dfy`, `LocalHost.dfy`, `SystemdHost.dfy`, `ReleaseController.dfy` | the journalled release transaction on launchd and systemd, with failing writes, removals and commands |
| `UpdateDrain.dfy` | the pending, drain and cooldown machine, its resumption after a restart, and the daemon controller that feeds it |
| `ReleaseListing.dfy`, `ReleasePruning.dfy` | which generations wait, since when, and which may be deleted |
| `ServiceLoops.dfy` | one scheduler and any number of ingesters around a one-slot wake channel |
| `SingleFlight.dfy` | one upstream fetch per key, however many requests |
| `DemandQueue.dfy`, `OwnShare.dfy`, `EmptyExit.dfy`, `TickPlanning.dfy`, `TickFromStore.dfy` | from stored demand records to what one tick plans |
| `PriorityTiers.dfy` | the wildcard matcher and the tier classification |
| `SessionYield.dfy`, `Corroboration.dfy` | hysteresis and corroboration over observation histories |
| `Durations.dfy`, `ConfigCodec.dfy` | the configuration file and its round trip |
| `Sorting.dfy` | stable insertion used in place of the library sort, and why the sorted result is unique |

`dafny verify dfyconfig.toml` checks the whole project.

Conventions: instants and durations are integers and the unset instant is `None`. Every file operation
and every command may fail at every call (`ok := *`). A ghost `history` holds every state the files have
been in, which is how a contract speaks about the middle of a run, and a ghost `log` holds every command,
read, write, removal and inspection with its outcome, which is how a contract says why a run ended as it
did. Concurrent code is a set of program
counters whose steps interleave freely.

## Where the code and its description differ

The model follows the code. For each difference there is an input that shows it and the exact condition
under which the description holds.

- A durable change can be left to the interval timer. An ingester that does not report its changes is
  taken to have made one exactly when its call succeeds, so a call that commits and then fails wakes nobody
  (`ServiceLoops.PlainIngesterLosesWake`). No run loses a wake-up if and only if every ingester reports its
  changes (`ServiceLoops.ReportingIsExact`).
- An accepted configuration cannot always be written back. Seconds are multiplied in 64-bit arithmetic,
  which wraps, and a wrapped duration may be accepted and yet not be whole seconds
  (`ConfigCodec.OverflowIsNotWritten`). It can be written exactly when every stated seconds value wraps a
  multiple of 5^9 times, which is zero for anything up to nine billion (`ConfigCodec.FileReturns`).
- A restarted process may date a drain or a cooldown later than the live one did, and so run a drain past
  MaxWait from its original start (`UpdateDrain.RestartMayLengthenDrain`,
  `UpdateDrain.RestartMayLengthenCooldown`). It does exactly when the schedule begins a drain or a cooldown
  between the live date and the restart (`UpdateDrain.RestartAgainstLive`).
- A newer release does restart the wait of a restarted daemon when the release that dated the wait has
  been pruned (`ReleasePruning.PruningMovesDate`). The date survives exactly when some remaining newer
  release has it (`ReleasePruning.PruningKeepsDate`).
- The comparison that release names are sorted by is no order when only some of them parse
  (`ReleasePruning.MixedNamesHaveNoOrder`); the sort keeps its promise when all of them do or none does
  (`ReleasePruning.SortVersionsNewestFirst`), and every caller passes names that parse.
- The contention delay never reaches an error backoff of 65 seconds (`ServiceLoops.DelayStopsShort`). It
  saturates at the error backoff exactly when that is at most 64 seconds (`ServiceLoops.DelayReachesBackoff`).
- The guest-liveness tracker does not forget anybody on a tick that names no instance, so two refusals on
  either side of such a tick are counted as consecutive (`Corroboration.GapIsBridged`). It counts exactly the
  unbroken run unless an earlier refusal is separated from that run by nothing but such ticks
  (`Corroboration.TrackerForgetsExactly`).
- A hold found by a later binding does not stop an earlier one from planning the same demand under another
  platform's image (`TickPlanning.OrderOfBindingsMatters`, `TickPlanning.LateHoldIsMissed`).
- A rollback rewrites the installed record and the `current` link rather than restoring them, so the tuple
  is exactly what it was if and only if the link named the installed generation (`ReleaseController.Apply`).
  After an interrupted commit whose rollback failed it need not (`ReleaseController.InterruptedLinkIsNotRestored`).

## Model

| member | source | states |
|---|---|---|
| Versions.CompareVersions | internal/autoupdate/controller.go:98-140 | the index loop computes the zero-extended comparison, or refuses exactly what cannot be parsed |
| Versions.ParseExactly | internal/autoupdate/controller.go:99-112 | a version is refused if and only if some dotted component is empty, has a non-digit or is too large, and otherwise every component is the number at its own place |
| Versions.WrittenVersionParses | internal/autoupdate/controller.go:99-112 | numbers written in decimal with dots between them, with or without the leading v and with any pre-release or build tail, are read back as exactly those numbers in that order |
| Versions.CompareDecides | internal/autoupdate/controller.go:122-139 | the comparison is decided by the first differing component, whatever the lengths |
| Versions.CompareIsTotalPreorder | internal/autoupdate/controller.go:98-140 | on parseable versions the order is reflexive, antisymmetric in sign, total and transitive across lengths |
| ReleaseDisk.Node.AtomicWrite | internal/autoupdate/host.go:917-961 | a write fails before its rename or after it, and no other file changes |
| ReleaseDisk.FirstFaultIsFirst | internal/autoupdate/controller.go:80-96 | a log has no fault if and only if no entry of it is fatal, and otherwise its first fault is the stage of its first fatal entry |
| ReleaseDisk.RunIsGranted | internal/autoupdate/controller.go:80-96 | every command of a log without faults whose failure would be fatal has succeeded |
| ReleaseDisk.Node.ClearTransaction | internal/autoupdate/host.go:735-759 | the journal is there until every backup is gone, nothing else is touched, and a failed clearing either changed nothing or removed the first backup |
| ReleaseDisk.Node.BackupIfPresent | internal/autoupdate/host.go:673-682 | reports exactly whether there was a file, and then has copied it; the tuple is untouched throughout |
| ReleaseDisk.Node.Restore | internal/autoupdate/systemd.go:285-298 | puts one definition back as it was, body or absence, keeping everything a rollback needs |
| ReleaseDisk.Node.Finish | internal/autoupdate/host.go:735-759 | clearing keeps a whole tuple whole, and the journal present until the last state |
| ReleaseDisk.Node.Promote | internal/autoupdate/host.go:413-445 | link, then installed record, then clean-up: success is the candidate's whole tuple with no journal, failure leaves the means to go back or a whole tuple behind a journal |
| ReleaseDisk.Node.Reinstate | internal/autoupdate/host.go:623-668 | the same for the tail of a rollback |
| LocalHost.Prepare | internal/autoupdate/host.go:282-331 | no state on the way changes the tuple, and success leaves the journal and every backup a rollback needs |
| LocalHost.Activate | internal/autoupdate/host.go:333-353 | success changes the boot definition alone, and every state is recoverable |
| LocalHost.Commit | internal/autoupdate/host.go:413-445 | all of the candidate's tuple and no journal, or a journalled state a rollback can start from |
| LocalHost.Rollback | internal/autoupdate/host.go:623-668 | from any interrupted state: the restored tuple and no journal, or still an interrupted state, also when a removed first backup stops it before it writes |
| SystemdHost.Prepare | internal/autoupdate/systemd.go:82-118 | as for launchd, with the timer unit among what is backed up |
| SystemdHost.Activate | internal/autoupdate/systemd.go:120-144 | as for launchd |
| SystemdHost.Commit | internal/autoupdate/systemd.go:150-179 | as for launchd, with the timer unit among what is promoted |
| SystemdHost.Rollback | internal/autoupdate/systemd.go:181-231 | as for launchd, with the timer unit restored or removed |
| ReleaseController.Apply | internal/autoupdate/controller.go:53-96 | each refusal has exactly one reason and touches nothing; an attempted update is admissible and all or nothing in every state it passes through; applied only if every command, readiness between activation and commit among them, was run in order and nothing failed, and applied whenever nothing failed and there is a boot definition; a rollback names the stage of the first failure and leaves the tuple as it was if and only if the link named the installed generation; nothing is written before the candidate was validated and the daemon found quiescent |
| ReleaseController.Judge | internal/autoupdate/controller.go:53-79 | once the installed generation could be read, each refusal is given for exactly one reason |
| ReleaseController.Transact | internal/autoupdate/controller.go:80-96 | prepare, activate, prove ready, commit or roll back, the outcome explained by the log: the tuple ends as the candidate's, as it was, or recoverable, and no mixed tuple is ever without its journal |
| ReleaseController.Complete | internal/autoupdate/controller.go:86-96 | from the journalled preparation on: applied with the full list of commands and no fault, or rolled back for the one stage that failed |
| ReleaseController.OutcomeTells | internal/autoupdate/controller.go:80-96 | file by file: applied means the candidate's record, link and rendered definitions; rolled back means the old definitions with the current generation's record and link; a failed preparation means no file of the tuple has changed |
| ReleaseController.TransactionStates | internal/autoupdate/host.go:451-494 | no handoff that reads the journal and then the installed record at any two moments passes its gate unless this commit completed |
| ReleaseController.InterruptedLinkIsNotRestored | internal/autoupdate/host.go:623-668 | a node an interrupted commit and a failed rollback may leave, whose tuple a later rollback does not restore |
| ReleaseController.AdvancedTransitive | internal/autoupdate/controller.go:60-79 | admissible updates compose: forward in version, or equal in version and different in configuration path only |
| ReleaseController.ApplyAll | internal/autoupdate/controller.go:53-96 | over any sequence of updates, whatever fails, the version never goes back, the mode never changes, and an equal version means at most another configuration path |
| UpdateDrain.DrainState.Observe | internal/autoupdate/drain.go:111-164 | the fields and the action follow the pure step function the run lemmas are about |
| UpdateDrain.DrainState.ResumeWait | internal/autoupdate/drain.go:178-198 | the modular phase and start, and a drain exactly in the first MaxWait of a cycle |
| UpdateDrain.ResumeFollowsSchedule | internal/autoupdate/drain.go:167-198 | a restarted process is in exactly the phase, with the start, of the schedule whose k-th drain begins at P + PendingFor + k(MaxWait + Cooldown) |
| UpdateDrain.ScheduleIsUnique | internal/autoupdate/drain.go:167-198 | no other phase or start fits that schedule at that instant |
| UpdateDrain.RunIsSafe | internal/autoupdate/drain.go:111-204 | on every forward clock: never draining and cooling at once; both imply a pending candidate and an enabled policy; draining implies less than MaxWait since the start, and cooling less than Cooldown unless it begins on this tick |
| UpdateDrain.DueDrainStarts | internal/autoupdate/drain.go:134-204 | on every forward run, a tick with a candidate that finds the process neither draining nor cooling starts a drain dated at that tick exactly when PendingFor has passed since the pending date, and a process new to the wait is put in the scheduled drain dated at its start |
| UpdateDrain.ActionIsEdge | internal/autoupdate/drain.go:111-164 | start and stop are reported exactly on the edges of the drain |
| UpdateDrain.ActionsAlternate | internal/autoupdate/drain.go:111-164 | between two equal actions of a run lies the opposite one |
| UpdateDrain.FirstActionIsStart | internal/autoupdate/drain.go:111-164 | the first action of a run is never a stop |
| UpdateDrain.LiveNeverAhead | internal/autoupdate/drain.go:139-164 | at arbitrary tick times the k-th drain of a process that never restarts is never dated before the schedule's k-th |
| UpdateDrain.StartsInPace | internal/autoupdate/drain.go:139-164 | nor far behind it: with ticks at most g apart the k-th drain of an attended wait is dated between the schedule's k-th and 3k + 1 gaps later, so cooldowns do end and due drains do start |
| UpdateDrain.RunNeverAhead | internal/autoupdate/drain.go:111-164 | the same for every run from a fresh process, whatever candidates came and went before the one that waits |
| UpdateDrain.RestartDatesExactly | internal/autoupdate/drain.go:167-198 | a process that starts now dates its phase after any given instant exactly when the schedule begins a drain or a cooldown after that instant and not after now, and the same for drains alone |
| UpdateDrain.RestartAgainstLive | internal/autoupdate/drain.go:167-198 | beside any live run and in any phase, the restarted process dates later exactly when the schedule begins a phase between the live date and the restart; a drain resumed so ends before twice MaxWait from its live start |
| UpdateDrain.RestartMayLengthenDrain | internal/autoupdate/drain.go:175-177 | a drain begun at 4 is dated 5 by a process restarted at 5 |
| UpdateDrain.RestartMayLengthenCooldown | internal/autoupdate/drain.go:175-177 | a live process cooling since 6 is dated 7 by one restarted at 7 |
| UpdateDrain.UpdateDrainController.Observe | internal/daemon/updatedrain.go:64-85 | the published pending date always equals the machine's and is kept while the candidate waits; a new wait is dated by its materialisation unless that is unknown or ahead of the clock, and then by the tick |
| ReleaseListing.NewerReleases | internal/autoupdate/drain.go:254-275 | exactly the names newer than the running one, in order, and none from a directory that cannot be listed |
| ReleaseListing.PendingCandidate | internal/autoupdate/drain.go:217-229 | pending if and only if the directory can be listed and some name is newer, and the name given is newer than running and older than no readable name |
| ReleaseListing.FirstNewestWins | internal/autoupdate/drain.go:217-229 | the running maximum of the loop is the first of the newest names |
| ReleaseListing.PendingSince | internal/autoupdate/drain.go:236-249 | the earliest date that can be read among the newer names of a directory that can be listed |
| ReleaseListing.EarliestIsLeast | internal/autoupdate/drain.go:236-249 | that date is one of theirs and not later than any of them, and unknown exactly when all are |
| ReleasePruning.SortVersionsNewestFirst | internal/autoupdate/prune.go:127-135 | a permutation, and nothing comes before what precedes it whenever all the names parse or none does |
| ReleasePruning.MixedNamesHaveNoOrder | internal/autoupdate/prune.go:127-135 | three names, one of which does not parse, each of which the comparison puts before the next in a circle |
| ReleasePruning.Retained | internal/autoupdate/prune.go:59-125 | exactly min(retain, n) of the older names, none of them older than one left out |
| ReleasePruning.PrunableReleases | internal/autoupdate/prune.go:59-125 | exactly the readable names that are not running, current, newest, referenced or headroom, oldest first |
| ReleasePruning.KeptExactly | internal/autoupdate/prune.go:59-125 | what is kept is the running release, the linked one, the referenced ones, the headroom and the newest readable one, and nothing else |
| ReleasePruning.PruningKeepsCandidate | internal/autoupdate/prune.go:59-125 | deleting names other than the newest leaves the pending candidate what it was |
| ReleasePruning.PruningKeepsDate | internal/autoupdate/drain.go:231-249 | deleting names keeps the pending date if and only if none was known or a remaining newer name has it |
| ReleasePruning.PruningMovesDate | internal/autoupdate/drain.go:231-249 | a superseded release is prunable, and deleting it moves the pending date forward |
| ServiceLoops.StepKeepsWake | internal/app/service.go:125-218 | every step of every loop, with ingesters of either kind, keeps every reported change accounted for |
| ServiceLoops.ReportedWakeIsKept | internal/app/service.go:125-218 | in every reachable state a change that was or may still be reported is seen, or has its call under way, a token, an ingester about to signal, or a scheduler that ticks without waiting |
| ServiceLoops.UnreportedExactly | internal/app/service.go:212-218 | that covers every durable change if and only if no plain ingester has failed after committing |
| ServiceLoops.NoWakeIsLost | internal/app/service.go:125-218 | a run in which no plain ingester fails after committing keeps every durable change accounted for: seen, in its call, or with a wake coming |
| ServiceLoops.ReportingIsExact | internal/app/service.go:182-218 | no run of a service loses a wake-up if and only if all its ingesters report their changes |
| ServiceLoops.PlainIngesterLosesWake | internal/app/service.go:212-218 | the run in which one does not: commit and fail during a tick |
| ServiceLoops.WakesAreSignalled | internal/app/service.go:125-210 | in every run the scheduler is woken at most as often as it was signalled, the token still in the channel included |
| ServiceLoops.ConflictsAreCounted | internal/app/service.go:125-159 | in every reachable state the contention counter is the number of conflicts in a row |
| ServiceLoops.UnseenChangeIsNotBlocked | internal/app/service.go:125-159 | with its signal not still on its way, a scheduler with an unseen reported change has a step other than the interval timer |
| ServiceLoops.ChangeSeenWithinFourSteps | internal/app/service.go:125-159 | any change is seen by the tick that starts by the scheduler's fourth step from then |
| ServiceLoops.DelayDoublesUpToBackoff | internal/app/service.go:176-180 | the delay doubles per conflict, never shrinks and never exceeds the error backoff |
| ServiceLoops.DelayReachesBackoff | internal/app/service.go:170-180 | it reaches the error backoff if and only if that is at most 64 seconds |
| ServiceLoops.DelayStopsShort | internal/app/service.go:170-180 | an error backoff of 65 seconds is never reached |
| SingleFlight.Reachable | internal/cachegate/npmcache.go:239-261 | the invariant tying requests, flights and the map holds after every interleaving |
| SingleFlight.OneFetchPerKey | internal/cachegate/npmcache.go:239-261 | at most one upstream fetch per key is active |
| SingleFlight.KeyHeldByLeader | internal/cachegate/npmcache.go:239-261 | a key is in the map if and only if a leader has not released it, and that leader is unique |
| SingleFlight.SettledForGood | internal/cachegate/npmcache.go:239-261 | once the leader has stopped fetching, no step changes the flight's result |
| SingleFlight.AnswersComeFromTheFlight | internal/cachegate/npmcache.go:239-261 | a waiter answers its own context error or the settled result of the flight it joined; a panicking leader closes its flight with the registry error |
| SingleFlight.AnswersComeFromTheFetch | internal/cachegate/npmcache.go:239-261 | in every run a returned answer is what the one fetch of its flight's leader returned, or the registry error to a waiter whose leader panicked; only the leader of a panicking fetch panics |
| SingleFlight.WaiterIsNotStranded | internal/cachegate/npmcache.go:239-261 | a waiter can wake, or its leader has a step left towards the close |
| SingleFlight.LeaderClosesWithinThree | internal/cachegate/npmcache.go:239-261 | whatever other requests do, a leader's own steps count down to the close of its flight, from any moment at most three |
| DemandQueue.QueuedDemands | internal/app/demand.go:995-1086 | an invalid binding, a missing or failing store and an incomplete eligible record each have their answer; otherwise it is built from the age-sorted list of the newest record of each job; a nonempty complete queue comes back whole and unbounded if and only if the statistics are not found, invalid, undated, ahead of the clock or too old |
| DemandQueue.UnboundedExactly | internal/app/demand.go:1046-1064 | the same of every answer that fits the store, the binding, the statistics and the clock; uncertain exactly without a statistics store and unreadable exactly when it fails |
| DemandQueue.OneRecordPerJob | internal/app/demand.go:1005-1028 | every eligible job is represented once, by its record of the latest update, the higher request deciding a tie |
| DemandQueue.SameJobExactly | internal/app/demand.go:1020-1023 | two complete records are of one job if and only if they carry the same logical key, or, carrying none, are the same request |
| DemandQueue.ListedInOrder | internal/app/demand.go:1005-1045 | every listed record is available, of a targeted repository and carries every required label, and the list is in order of first queue time, or queue time where there is none, and then of request |
| DemandQueue.ListIsUnique | internal/app/demand.go:1029-1045 | the age-sorted list of a set of records is unique |
| DemandQueue.OrderDoesNotMatter | internal/app/demand.go:995-1086 | the queue is the same for every permutation of the stored records, whatever the statistics |
| DemandQueue.TakeWithin | internal/app/demand.go:1065-1085 | the loop over two budgets computes the bounded list |
| DemandQueue.WithinIsSubsequence | internal/app/demand.go:1065-1085 | the bounded list is a subsequence of the unbounded one |
| DemandQueue.WithinStaysSorted | internal/app/demand.go:1065-1085 | and in order of age |
| DemandQueue.OldestWithinBudget | internal/app/demand.go:1065-1085 | of each class exactly the oldest min(budget, n) are kept |
| OwnShare.BoundToOwnShare | internal/app/demand.go:702-754 | every store outcome, and otherwise a claim within the share of available plus assigned less running jobs, which is none without fresh statistics |
| OwnShare.KeepShare | internal/app/demand.go:725-754 | a sub-multiset with every vouched job, of size min(n, max(v, share)), and no dropped contested job older than a kept one |
| OwnShare.VouchedJobs | internal/app/demand.go:772-791 | the set of identities built from the demands singles out exactly the jobs that some demand names by repository, run and display name, or by number |
| OwnShare.ShareIsUnique | internal/app/demand.go:702-754 | for distinct jobs those conditions determine the claim |
| TickPlanning.PlanTick | internal/app/tick.go:223-290 | the tick fails if and only if a queue or a queue summary cannot be read; otherwise every binding plans its queue less what is withheld so far |
| TickPlanning.HeldNow | internal/app/demand.go:895-907 | the keys whose empty exits hold them now, an exit ahead of the clock not judged |
| TickPlanning.PlannedIsFree | internal/app/tick.go:223-282 | no planned demand is incarnated by a live instance or held by its own or an earlier binding |
| TickPlanning.PlannedExactly | internal/app/tick.go:141-282 | a binding plans exactly its queued demands that no live instance incarnates and no queue so far holds, and only the first of them without statistics |
| TickPlanning.PlannedInOrder | internal/app/tick.go:141-282 | with statistics the plan is the queue at exactly the places of its free demands: each once per place, and in the queue's order |
| TickPlanning.WithheldForAReason | internal/app/tick.go:141-150 | whatever is withheld is incarnated or held, so a binding with statistics plans everything else |
| TickPlanning.OldestTricklesThrough | internal/app/tick.go:157-162 | a binding without statistics plans exactly the oldest demand it could plan, if any |
| TickPlanning.OneImageIsEnough | internal/app/tick.go:250-282 | when each demand is queued for one platform, no binding at all holds a planned demand |
| TickPlanning.LateHoldIsMissed | internal/app/tick.go:250-282 | a demand is planned while held if and only if it is free in an earlier binding, with nothing free before it if that lost its statistics, and a later binding holds it |
| TickPlanning.OrderOfBindingsMatters | internal/app/tick.go:250-282 | one job on both platforms, on hold on one: planned or withheld depending on the order of the bindings |
| TickFromStore.Tick | internal/app/tick.go:250-290 | from stored records and statistics to plans: the tick fails exactly on a queue or summary it cannot read, and plans what the queues of the records answer |
| TickFromStore.AnswerIsUnique | internal/app/demand.go:995-1110 | one store, one set of statistics and one clock give one queue, whatever order the map was walked in |
| TickFromStore.AnswerIsOldestFirst | internal/app/demand.go:1029-1110 | every queue answered from stored records is oldest first |
| TickFromStore.LackingIsDegraded | internal/app/demand.go:1046-1064 | such a binding is given its whole queue, marked as lacking statistics |
| TickFromStore.OldestStoredTricklesThrough | internal/app/tick.go:260-282 | a binding whose statistics are not found, invalid, undated, ahead of the clock or too old plans, of the newest records of its jobs, the oldest that is free, and nothing only if none is |
| TickFromStore.FreshPlansItsBudget | internal/app/demand.go:1061-1110 | a binding with statistics that are none of these plans exactly the free ones among the oldest records its two budgets allow |
| TickFromStore.NoDemandTwice | internal/app/tick.go:250-282 | what a binding plans from stored records has no demand key twice |
| EmptyExit.RetryAt | internal/domain/emptyexit.go:86-98 | the doubling loop gives last + min(base * 2^n, cap), with no value on the way above max(base, 2 * cap) |
| EmptyExit.HoldGrowsUpToCap | internal/domain/emptyexit.go:86-98 | the hold is monotone in the count and never above the cap |
| EmptyExit.HoldsOnlyWithinCap | internal/domain/emptyexit.go:74-84 | nothing at or under the tolerance is held and nothing at or past last + cap; the first hold lasts at least min(base, cap) |
| EmptyExit.ShippedHolds | internal/domain/emptyexit.go:56-98 | under the fleet's policy two exits hold nothing, the third holds for five minutes, the fourth for ten and any later one for fifteen |
| PriorityTiers.MatchSegments | internal/domain/priority.go:131-148 | the loop that cuts off what is matched computes the greedy leftmost walk over the whole value |
| PriorityTiers.WalkIsAlignment | internal/domain/priority.go:131-148 | leftmost placement succeeds if and only if some placement of the segments with gaps does |
| PriorityTiers.AlignmentIsLanguage | internal/domain/priority.go:123-148 | the segments can be placed if and only if some fills of the stars make the pattern the value |
| PriorityTiers.PatternMatchesItsLanguage | internal/domain/priority.go:123-129 | the matcher accepts exactly the language of the folded pattern |
| PriorityTiers.Matches | internal/domain/priority.go:103-116 | the loop over the facets decides whether every declared one is met and some is declared |
| PriorityTiers.RuleMatchesExactly | internal/domain/priority.go:103-129 | a rule matches if and only if it declares something, and what it declares is met: the scope by the repository, the workflow reference by the workflow's, the job name by the job's, each in the language of its pattern |
| PriorityTiers.Classify | internal/domain/priority.go:92-121 | the first tier with a matching rule, ranked from the end of the list; the default exactly when none matches |
| SessionYield.YieldState.Observe | internal/daemon/sessionyield.go:96-141 | the fields and the action follow the pure step function the run lemmas are about |
| SessionYield.StreakIsEarliest | internal/daemon/sessionyield.go:96-141 | the one kept instant is the earliest clock reading of the whole unbroken run, on any clock |
| SessionYield.WithdrawsExactly | internal/daemon/sessionyield.go:96-141 | withdrawal if and only if serving, blocked, idle, and at the end of an idle blocked run of at least BlockedFor |
| SessionYield.RejoinsExactly | internal/daemon/sessionyield.go:118-125 | rejoin if and only if withdrawn and at the end of an unbroken allowed run of at least HealthyFor |
| SessionYield.RejoinIsEarned | internal/daemon/sessionyield.go:45-54 | no flapping: a rejoin is at least HealthyFor after any withdrawal |
| SessionYield.WithdrawalIsEarned | internal/daemon/sessionyield.go:45-54 | and a withdrawal at least BlockedFor after any rejoin |
| SessionYield.ActionsAlternate | internal/daemon/sessionyield.go:96-141 | withdrawals and rejoins alternate, withdrawal first, under every policy |
| SessionYield.Source.Suspend | internal/daemon/runtime.go:406-423 | a withdrawn source holds no session, and a refused close changes nothing |
| SessionYield.Source.Resume | internal/daemon/runtime.go:428-444 | a resumed source holds a session, and a failed open changes nothing |
| SessionYield.YieldController.Apply | internal/daemon/sessionyield.go:174-203 | after a tick that leaves the node withdrawn every open source whose call was not refused is suspended and holds no session; after any other, such a source is suspended if and only if its binding is excluded |
| Corroboration.AccumulatorIsTheRun | internal/domain/guestliveness.go:88-103 | the accumulator is the length and start of the trailing run of refusals since the instance was last missing, whatever other instances did |
| Corroboration.LastAliveIsRemembered | internal/domain/guestliveness.go:88-103 | the last-alive instant is that of the last living reading since the instance was last missing |
| Corroboration.VerdictExactly | internal/domain/guestliveness.go:109-129 | a verdict if and only if one run has enough refusals and lasted long enough |
| Corroboration.PowerCorroborator.Observe | internal/app/inventory.go:153-169 | the map holds every instance's run of the whole history, and the slice is rewritten in place with the corroborated readings |
| Corroboration.ReadingIsThePower | internal/domain/corroboration.go:56-68 | a tick counts against an instance if and only if its backend said stopped, and for it if and only if it said running |
| Corroboration.StoppedExactly | internal/domain/corroboration.go:56-144 | any reading but stopped, and any reading of an instance being torn down, is reported as read; otherwise stopped is reported if and only if at least three ticks running said so, the first 45 seconds ago, or 360 once retracted, and unknown until then |
| Corroboration.GuestLivenessTracker.Observe | internal/app/inventory.go:81-104 | the state holds every instance's run over the ticks that named somebody; disabled or unnamed ticks change nothing |
| Corroboration.TrackerForgetsExactly | internal/app/inventory.go:72-104 | the count is the unbroken run if and only if no earlier refusal is separated from that run by nothing but ticks that named nobody |
| Corroboration.GapIsBridged | internal/app/inventory.go:72-104 | two refusals around such a tick are counted as two in a row |
| Durations.SecondsReturn | internal/config/config.go:1026-1031 | a duration that is written reads back as itself |
| Durations.WrapExactly | internal/config/config.go:1058-1063 | a product in 64-bit arithmetic is the one 64-bit number that differs from the true product by a multiple of 2^64 |
| Durations.LosslessExactly | internal/config/config.go:1058-1063 | a seconds value comes out as whole seconds if and only if its product wraps a multiple of 5^9 times |
| ConfigCodec.LivenessReturns | internal/config/config.go:999-1024 | probes that are off stay off, and bounds in range never look like the sentinel |
| ConfigCodec.BoundsReturn | internal/config/config.go:1104-1144 | the omitted-when-default bounds are written exactly when whole, and read back as themselves |
| ConfigCodec.MacOSReturns | internal/config/config.go:758-768 | the block reads back as itself under the older profile spelling |
| ConfigCodec.PriorityReturns | internal/config/priority.go:132-165 | an absent, empty or stated block reads back as itself |
| ConfigCodec.FileMeansWhatItStates | internal/config/config.go:788-820 | every duration of a file that does not wrap is the stated one, or the shipped default where none is stated |
| ConfigCodec.LimitsMeanWhatTheyState | internal/config/config.go:1065-1175 | every capacity, guard, count and switch is the stated one, or its shipped default where the file states none |
| ConfigCodec.NamesMeanWhatTheyState | internal/config/config.go:758-825 | every name, image, prefix, path, profile, target, tier and mode of an accepted file is the stated one, in its own field and in order |
| ConfigCodec.AcceptedExactly | internal/config/config.go:1300-1489 | a file of which no seconds value wraps is accepted if and only if every bound it states is in range or turns the probes off, its mode and policy are known, its compact profile is named once and the remaining checks pass; no default is out of range |
| ConfigCodec.DecodedIsNormal | internal/config/config.go:770-825 | decoding leaves no field that writing would turn into a default, and no state directory |
| ConfigCodec.EncodedReturns | internal/config/config.go:830-988 | a decoded configuration with any GitHub block is written if and only if its durations are whole seconds, and then reads back as itself |
| ConfigCodec.FileReturns | internal/config/config.go:770-988 | an accepted file is written again if and only if no stated seconds value wrapped into a part of a second, and what is written decodes to the same configuration |
| ConfigCodec.WrittenFileIsStable | internal/config/config.go:770-988 | reading and writing a written file changes nothing |
| ConfigCodec.OverflowIsNotWritten | internal/config/config.go:788-843 | a file stating 18446744074 poll seconds is accepted and cannot be written |

## Left out

- The scheduler, reconcile, operations, membership and lifecycle packages; their results are parameters where they are needed.
- `Adopt`, which commits without a journal by design, and recovery after the updater process itself is killed, for which there is no automatic path.
- Backward clock jumps in the drain machine: its run lemmas assume a clock that never goes back. The session-yield lemmas do not.
- The launchd handoff definition is not part of the restored tuple, because a rollback always removes it.
- ReleaseDisk.Node.Remove: a removal that reports an error is taken to have had no effect.
- Retry loops, delays and timeouts around commands; a command succeeds or fails.
- Checksums, signatures, template contents, JSON bytes, HTTP and the file system below rename.
- ReleasePruning.SortVersionsNewestFirst: sorts a sequence rather than a slice in place, and leaves open, as the library sort does, which of two equally new names comes first.
- ReleaseListing.PendingSince: the directory listing and the file dates are given as their outcomes.
- PriorityTiers.PatternMatchesItsLanguage: case folding is a parameter.
- OwnShare.BoundToOwnShare: case folding is a parameter; the two store reads are given as their outcomes, and an identity is a tuple rather than the joined string.
- DemandQueue.QueuedDemands: request identifiers are taken to be unique within one read.
- TickPlanning.PlanTick: overdue demand, the contents of queue summaries and the advertised counts of the same loop are not modelled.
- TickFromStore.Tick: reads every binding's queue before it plans the first, where the program does both binding by binding; event names and priorities of converted records are not modelled.
- ServiceLoops.ReportedWakeIsKept: a reporting ingester is taken to report truthfully; the operations worker, which never signals, and cancellation are not modelled.
- Corroboration.GuestLivenessTracker.Observe: the concurrent probes are given as their outcomes.
- ConfigCodec.FileReturns: the checks of names, capacities, labels, scopes and URLs are one arbitrary predicate, floating-point guards are reals, and nil and empty lists are not told apart.
- The zero instant as a clock reading: an unset instant is a value no clock shows.
- Error texts, reports, metrics and log lines.
- Host guardrails, traffic parsers, rendering, the admin API and the command line, which would only add one-branch members.
