/**
 The scheduler loop and the ingest loops (internal/app/service.go), which share a wake channel of
 capacity one. Every loop is a program counter and every step below is one action of one loop, so a
 run is any interleaving of them.
 */
module ServiceLoops {
  import opened Basics

  datatype SchedulerPc =
    | TickDue      // at the top of the loop
    | Ticking      // inside the tick
    | BackingOff   // waiting out a failed tick
    | Discarding   // about to drop the coalesced edge, then back to the top
    | Waiting      // in the select: the channel, or the interval timer

  datatype IngesterPc =
    | Polling        // inside the ingest call, nothing durable yet
    | Committed      // inside the ingest call, having made a durable change
    | AboutToSignal  // returned with a change, before the channel send
    | Resting        // spacing or backing off

  /** A reporting ingester says whether its call made a durable change, whether or not it failed. A plain
      one says nothing, and the loop takes a call that succeeded for a change and one that failed for none. */
  datatype Kind = Reporting | Plain

  /** `made` holds the numbers of the durable changes of the call under way. */
  datatype Ingester = Ingester(kind: Kind, pc: IngesterPc, made: set<nat>)

  datatype TickOutcome = Succeeded | Contended | Failed

  /** Durable changes are numbered from one; `durable` is the latest number, and the latest tick started
      after the first `seen` of them. `unreported` holds those whose call ended without a word of them.
      `outcomes` is the record of finished ticks, which the loop itself keeps only as a counter. */
  datatype State = State(durable: nat, seen: nat, unreported: set<nat>, token: bool, scheduler: SchedulerPc, contended: nat,
                         ingesters: map<nat, Ingester>, outcomes: seq<TickOutcome>)

  datatype Step =
    | StartTick
    | FinishTick(outcome: TickOutcome)
    | BackoffOver
    | Discard
    | TakeWake
    | TimerFires
    | Commit(i: nat)
    | Return(i: nat, ok: bool)
    | Signal(i: nat)
    | Rest(i: nat)
  {
    predicate OfScheduler() { StartTick? || FinishTick? || BackoffOver? || Discard? || TakeWake? || TimerFires? }
  }

  /** Whether a loop can take this step now. */
  predicate Enabled(s: State, step: Step) {
    match step
    case StartTick => s.scheduler == TickDue
    case FinishTick(_) => s.scheduler == Ticking
    case BackoffOver => s.scheduler == BackingOff
    case Discard => s.scheduler == Discarding
    case TakeWake => s.scheduler == Waiting && s.token
    case TimerFires => s.scheduler == Waiting
    case Commit(i) => i in s.ingesters && s.ingesters[i].pc in {Polling, Committed}
    case Return(i, _) => i in s.ingesters && s.ingesters[i].pc in {Polling, Committed}
    case Signal(i) => i in s.ingesters && s.ingesters[i].pc == AboutToSignal
    case Rest(i) => i in s.ingesters && s.ingesters[i].pc == Resting
  }

  /** Whether a call that ends now is taken for a change. */
  predicate Reports(g: Ingester, ok: bool) {
    if g.kind == Reporting then g.pc == Committed else ok
  }

  function Next(s: State, step: Step): State
    requires Enabled(s, step)
  {
    match step
    case StartTick => s.(scheduler := Ticking, seen := s.durable)
    case FinishTick(outcome) =>
      s.(scheduler := if outcome == Succeeded then Waiting else BackingOff,
         contended := if outcome == Contended then s.contended + 1 else 0,
         outcomes := s.outcomes + [outcome])
    case BackoffOver => s.(scheduler := Discarding)
    case Discard => s.(scheduler := TickDue, token := false)
    case TakeWake => s.(scheduler := TickDue, token := false)
    case TimerFires => s.(scheduler := TickDue)
    case Commit(i) =>
      var g := s.ingesters[i];
      s.(durable := s.durable + 1, ingesters := s.ingesters[i := g.(pc := Committed, made := g.made + {s.durable + 1})])
    case Return(i, ok) =>
      var g := s.ingesters[i];
      if Reports(g, ok) then s.(ingesters := s.ingesters[i := Ingester(g.kind, AboutToSignal, {})])
      else s.(unreported := s.unreported + g.made, ingesters := s.ingesters[i := Ingester(g.kind, Resting, {})])
    case Signal(i) => s.(token := true, ingesters := s.ingesters[i := s.ingesters[i].(pc := Resting)])
    case Rest(i) => s.(ingesters := s.ingesters[i := s.ingesters[i].(pc := Polling)])
  }

  /** The service as it starts: the scheduler about to tick, every ingester about to poll. */
  predicate Initial(s: State) {
    && s.durable == s.seen == 0 && s.unreported == {} && !s.token && s.scheduler == TickDue && s.contended == 0 && s.outcomes == []
    && forall i | i in s.ingesters :: s.ingesters[i].pc == Polling && s.ingesters[i].made == {}
  }

  /** The states a run of steps goes through, if each step can be taken where it stands. */
  ghost predicate Runs(s: State, steps: seq<Step>)
    decreases |steps|, 0
  {
    steps == [] || (Runs(s, steps[..|steps| - 1]) && Enabled(After(s, steps[..|steps| - 1]), steps[|steps| - 1]))
  }

  ghost function After(s: State, steps: seq<Step>): State
    requires Runs(s, steps)
    decreases |steps|, 1
  {
    if steps == [] then s else Next(After(s, steps[..|steps| - 1]), steps[|steps| - 1])
  }

  // --- No lost wake-up -----------------------------------------------------------------------

  /** The call that made change n is still under way. */
  ghost predicate InCall(s: State, n: nat) {
    exists i :: i in s.ingesters && n in s.ingesters[i].made
  }

  /** Some ingester has returned with a change and has still to signal it. */
  ghost predicate Signalling(s: State) {
    exists i :: i in s.ingesters && s.ingesters[i].pc == AboutToSignal
  }

  /** The scheduler will start a tick whatever happens on the channel. */
  predicate WillTick(s: State) { s.scheduler in {TickDue, BackingOff, Discarding} }

  ghost predicate WakeComing(s: State) { s.token || Signalling(s) || WillTick(s) }

  /** Change n is accounted for: a tick has started after it, its call is still under way, or a wake is
      coming. */
  ghost predicate Accounted(s: State, n: nat) { n <= s.seen || InCall(s, n) || WakeComing(s) }

  /** Every change that has been reported, or may still be, is accounted for. */
  ghost predicate ReportedWake(s: State) {
    forall n: nat | n <= s.durable && n !in s.unreported :: Accounted(s, n)
  }

  /** Every durable change is. */
  ghost predicate NoLostWake(s: State) {
    forall n: nat | n <= s.durable :: Accounted(s, n)
  }

  /** Only a call that has committed has changes, and only past changes have numbers. */
  ghost predicate WellNumbered(s: State) {
    && s.seen <= s.durable
    && (forall i | i in s.ingesters :: (s.ingesters[i].made != {} <==> s.ingesters[i].pc == Committed))
    && (forall i, n | i in s.ingesters && n in s.ingesters[i].made :: n <= s.durable)
    && (forall n | n in s.unreported :: n <= s.durable)
  }

  /** The number of commit conflicts since the last tick that was not one. */
  function TrailingConflicts(outcomes: seq<TickOutcome>): nat {
    if outcomes == [] || outcomes[|outcomes| - 1] != Contended then 0
    else 1 + TrailingConflicts(outcomes[..|outcomes| - 1])
  }

  lemma StepKeepsNumbers(s: State, step: Step)
    requires WellNumbered(s) && Enabled(s, step)
    ensures WellNumbered(Next(s, step))
  {
    if step.Commit? { assert s.durable + 1 in Next(s, step).ingesters[step.i].made; }
  }

  lemma StepKeepsWake(s: State, step: Step)
    requires WellNumbered(s) && ReportedWake(s) && Enabled(s, step)
    ensures ReportedWake(Next(s, step))
  {
    var t := Next(s, step);
    forall n: nat | n <= t.durable && n !in t.unreported
      ensures Accounted(t, n)
    {
      ChangeStaysAccounted(s, step, n);
    }
  }

  lemma ChangeStaysAccounted(s: State, step: Step, n: nat)
    requires WellNumbered(s) && Enabled(s, step) && n <= Next(s, step).durable && n !in Next(s, step).unreported
    requires n <= s.durable ==> Accounted(s, n)
    ensures Accounted(Next(s, step), n)
  {
    var t := Next(s, step);
    if step.OfScheduler() {
      assert t.ingesters == s.ingesters;
    } else if step.Commit? && n == t.durable {
      assert n in t.ingesters[step.i].made;
    } else if InCall(s, n) {
      var i :| i in s.ingesters && n in s.ingesters[i].made;
      assert i in t.ingesters;
      if step.Return? && i == step.i { assert t.ingesters[i].pc == AboutToSignal; }
    } else if Signalling(s) {
      var i :| i in s.ingesters && s.ingesters[i].pc == AboutToSignal;
      assert i in t.ingesters;
    }
  }

  /** In every reachable state of one scheduler and any number of ingesters of either kind, a change that
      has been reported, or whose call may still report it, and that no tick has started after, has its call
      under way, a token in the channel, an ingester about to put one there, or a scheduler that ticks again
      without looking at the channel. */
  lemma {:induction false} ReportedWakeIsKept(s: State, steps: seq<Step>)
    requires Initial(s) && Runs(s, steps)
    ensures WellNumbered(After(s, steps)) && ReportedWake(After(s, steps))
  {
    if steps != [] {
      ReportedWakeIsKept(s, steps[..|steps| - 1]);
      var before, last := After(s, steps[..|steps| - 1]), steps[|steps| - 1];
      StepKeepsNumbers(before, last);
      StepKeepsWake(before, last);
    }
  }

  /** A plain ingester's call fails after it has made a durable change. */
  ghost predicate FailsSilently(s: State, step: Step) {
    step.Return? && !step.ok && step.i in s.ingesters && s.ingesters[step.i].kind == Plain && s.ingesters[step.i].pc == Committed
  }

  ghost predicate SilentAt(s: State, steps: seq<Step>, k: int)
    requires Runs(s, steps)
  {
    0 <= k < |steps| && Runs(s, steps[..k]) && FailsSilently(After(s, steps[..k]), steps[k])
  }

  lemma StepReports(s: State, step: Step)
    requires WellNumbered(s) && Enabled(s, step)
    ensures Next(s, step).unreported == {} <==> s.unreported == {} && !FailsSilently(s, step)
  {
    if FailsSilently(s, step) {
      var n :| n in s.ingesters[step.i].made;
      assert n in Next(s, step).unreported;
    }
  }

  /** Every change is reported exactly as long as no plain ingester's call fails after committing. */
  lemma {:induction false} UnreportedExactly(s: State, steps: seq<Step>)
    requires Initial(s) && Runs(s, steps)
    ensures After(s, steps).unreported == {} <==> forall k :: !SilentAt(s, steps, k)
  {
    if steps != [] {
      var n := |steps| - 1;
      var rest := steps[..n];
      UnreportedExactly(s, rest);
      ReportedWakeIsKept(s, rest);
      StepReports(After(s, rest), steps[n]);
      forall k | 0 <= k < n
        ensures SilentAt(s, rest, k) <==> SilentAt(s, steps, k)
      {
        assert rest[..k] == steps[..k];
      }
      assert FailsSilently(After(s, rest), steps[n]) <==> SilentAt(s, steps, n);
    }
  }

  /** No wake-up is lost in a run in which no plain ingester's call fails after committing. */
  lemma NoWakeIsLost(s: State, steps: seq<Step>)
    requires Initial(s) && Runs(s, steps) && forall k :: !SilentAt(s, steps, k)
    ensures NoLostWake(After(s, steps))
  {
    ReportedWakeIsKept(s, steps);
    UnreportedExactly(s, steps);
  }

  lemma {:induction false} KindsStay(s: State, steps: seq<Step>)
    requires Runs(s, steps)
    ensures After(s, steps).ingesters.Keys == s.ingesters.Keys
    ensures forall i | i in s.ingesters :: After(s, steps).ingesters[i].kind == s.ingesters[i].kind
  {
    if steps != [] { KindsStay(s, steps[..|steps| - 1]); }
  }

  ghost predicate NeverLosesWake(s: State) {
    forall steps | Runs(s, steps) :: NoLostWake(After(s, steps))
  }

  /** No run of a service loses a wake-up if and only if all its ingesters report their changes. */
  lemma ReportingIsExact(s: State)
    requires Initial(s)
    ensures NeverLosesWake(s) <==> forall i | i in s.ingesters :: s.ingesters[i].kind == Reporting
  {
    if forall i | i in s.ingesters :: s.ingesters[i].kind == Reporting {
      forall steps | Runs(s, steps)
        ensures NoLostWake(After(s, steps))
      {
        forall k
          ensures !SilentAt(s, steps, k)
        {
          if 0 <= k < |steps| && Runs(s, steps[..k]) { KindsStay(s, steps[..k]); }
        }
        NoWakeIsLost(s, steps);
      }
    } else {
      var i :| i in s.ingesters && s.ingesters[i].kind == Plain;
      PlainIngesterLosesWake(s, i);
    }
  }

  /** The failing run: during a tick a plain ingester commits and then fails, and the scheduler goes to wait
      for its interval with the change unseen and nothing on its way. */
  lemma PlainIngesterLosesWake(s: State, i: nat)
    requires Initial(s) && i in s.ingesters && s.ingesters[i].kind == Plain
    ensures var steps := [StartTick, Commit(i), Return(i, false), FinishTick(Succeeded)];
            Runs(s, steps) && !NoLostWake(After(s, steps))
  {
    var steps := [StartTick, Commit(i), Return(i, false), FinishTick(Succeeded)];
    var a := Next(s, StartTick);
    var b := Next(a, Commit(i));
    var c := Next(b, Return(i, false));
    var d := Next(c, FinishTick(Succeeded));
    assert steps[..3] == [StartTick, Commit(i), Return(i, false)] && steps[..3][..2] == [StartTick, Commit(i)];
    assert [StartTick, Commit(i)][..1] == [StartTick] && [StartTick][..0] == [];
    assert Runs(s, [StartTick]) && After(s, [StartTick]) == a;
    assert Runs(s, [StartTick, Commit(i)]) && After(s, [StartTick, Commit(i)]) == b;
    assert Runs(s, steps[..3]) && After(s, steps[..3]) == c;
    assert After(s, steps) == d;
    assert !Accounted(d, 1);
  }

  function Signals(steps: seq<Step>): nat {
    if steps == [] then 0 else Signals(steps[..|steps| - 1]) + if steps[|steps| - 1].Signal? then 1 else 0
  }

  function Wakes(steps: seq<Step>): nat {
    if steps == [] then 0 else Wakes(steps[..|steps| - 1]) + if steps[|steps| - 1].TakeWake? then 1 else 0
  }

  /** The channel coalesces signals and invents none: the scheduler is never woken more often than it was
      signalled, the token still in the channel included. */
  lemma {:induction false} WakesAreSignalled(s: State, steps: seq<Step>)
    requires Initial(s) && Runs(s, steps)
    ensures Wakes(steps) + (if After(s, steps).token then 1 else 0) <= Signals(steps)
  {
    if steps != [] { WakesAreSignalled(s, steps[..|steps| - 1]); }
  }

  lemma StepCountsConflicts(s: State, step: Step)
    requires Enabled(s, step) && s.contended == TrailingConflicts(s.outcomes)
    ensures Next(s, step).contended == TrailingConflicts(Next(s, step).outcomes)
  {
    if step.FinishTick? { assert (s.outcomes + [step.outcome])[..|s.outcomes|] == s.outcomes; }
  }

  /** The contention counter is always the number of conflicts in a row. */
  lemma {:induction false} ConflictsAreCounted(s: State, steps: seq<Step>)
    requires Initial(s) && Runs(s, steps)
    ensures After(s, steps).contended == TrailingConflicts(After(s, steps).outcomes)
  {
    if steps != [] {
      ConflictsAreCounted(s, steps[..|steps| - 1]);
      StepCountsConflicts(After(s, steps[..|steps| - 1]), steps[|steps| - 1]);
    }
  }

  /** A scheduler with an unseen reported change whose signal is not still on its way is not waiting for the
      interval timer: it has another step it can take. */
  lemma UnseenChangeIsNotBlocked(s: State, steps: seq<Step>, n: nat)
    requires Initial(s) && Runs(s, steps)
    requires var t := After(s, steps);
             t.seen < n <= t.durable && n !in t.unreported && !InCall(t, n) && !Signalling(t)
    ensures exists step: Step :: step.OfScheduler() && step != TimerFires && Enabled(After(s, steps), step)
  {
    ReportedWakeIsKept(s, steps);
    var t := After(s, steps);
    assert Accounted(t, n);
    var step := match t.scheduler
      case TickDue => StartTick
      case Ticking => FinishTick(Succeeded)
      case BackingOff => BackoffOver
      case Discarding => Discard
      case Waiting => TakeWake;
    assert Enabled(t, step);
  }

  /** How many steps of its own the scheduler can take before it has to start a tick. */
  function StepsToTick(pc: SchedulerPc): nat {
    match pc
    case TickDue => 0
    case Discarding => 1
    case Waiting => 1
    case BackingOff => 2
    case Ticking => 3
  }

  function SchedulerSteps(steps: seq<Step>): nat {
    if steps == [] then 0
    else SchedulerSteps(steps[..|steps| - 1]) + if steps[|steps| - 1].OfScheduler() then 1 else 0
  }

  /** Between two tick starts the scheduler takes at most three steps, so a change made at any moment
      is seen by the tick that starts by its fourth step from then. */
  lemma {:induction false} ChangeSeenWithinFourSteps(s: State, steps: seq<Step>)
    requires Runs(s, steps) && s.seen <= s.durable
    ensures After(s, steps).seen <= After(s, steps).durable
    ensures s.durable <= After(s, steps).durable && s.seen <= After(s, steps).seen
    ensures s.durable <= After(s, steps).seen
            || SchedulerSteps(steps) + StepsToTick(After(s, steps).scheduler) <= StepsToTick(s.scheduler) <= 3
  {
    if steps != [] { ChangeSeenWithinFourSteps(s, steps[..|steps| - 1]); }
  }

  // --- Pacing of contended ticks -------------------------------------------------------------

  const RETRY_BASE := 250        // milliseconds
  const RETRY_SHIFT_LIMIT := 8

  function ContentionDelay(attempt: int, backoff: int): int {
    Min(RETRY_BASE * Pow2(Min(Max(attempt, 1) - 1, RETRY_SHIFT_LIMIT)), backoff)
  }

  /** The delay doubles with every conflict in a row, never shrinks, and never exceeds the error
      backoff. */
  lemma DelayDoublesUpToBackoff(attempt: nat, later: nat, backoff: int)
    requires 1 <= attempt <= later && backoff > 0
    ensures Min(RETRY_BASE, backoff) <= ContentionDelay(attempt, backoff) <= ContentionDelay(later, backoff) <= backoff
    ensures attempt <= RETRY_SHIFT_LIMIT ==>
              ContentionDelay(attempt + 1, backoff) == Min(2 * RETRY_BASE * Pow2(attempt - 1), backoff)
  {
    Pow2Grows(0, Min(attempt - 1, RETRY_SHIFT_LIMIT));
    Pow2Grows(Min(attempt - 1, RETRY_SHIFT_LIMIT), Min(later - 1, RETRY_SHIFT_LIMIT));
  }

  /** The delay reaches the error backoff, as its description says it does, exactly when the backoff is
      at most 64 seconds; above that it stays at 64 seconds for good. */
  lemma DelayReachesBackoff(backoff: int)
    requires backoff > 0
    ensures (exists attempt: nat :: ContentionDelay(attempt, backoff) == backoff) <==> backoff <= 64_000
    ensures backoff > 64_000 ==> forall attempt: nat | attempt > RETRY_SHIFT_LIMIT :: ContentionDelay(attempt, backoff) == 64_000
  {
    Pow2At8();
    if backoff <= 64_000 {
      assert ContentionDelay(9, backoff) == backoff;
    } else {
      forall attempt: nat
        ensures ContentionDelay(attempt, backoff) <= 64_000
      {
        Pow2Grows(Min(Max(attempt, 1) - 1, RETRY_SHIFT_LIMIT), RETRY_SHIFT_LIMIT);
      }
    }
  }

  /** The failing case: an error backoff of 65 seconds is never reached. */
  lemma DelayStopsShort(attempt: nat)
    ensures ContentionDelay(attempt, 65_000) <= 64_000
  {
    Pow2At8();
    Pow2Grows(Min(Max(attempt, 1) - 1, RETRY_SHIFT_LIMIT), RETRY_SHIFT_LIMIT);
  }

  lemma Pow2At8()
    ensures Pow2(8) == 256
  {
    assert Pow2(4) == 16;
  }
}
