/**
 The update-drain machine (internal/autoupdate/drain.go) and the daemon controller that feeds it
 (internal/daemon/updatedrain.go).

 A node with a newer generation waiting on disk waits `pendingFor`, then refuses admission for at
 most `maxWait`, then serves for `cooldown`, and repeats. Instants are integers; `None` is the unset
 instant.
 */
module UpdateDrain {
  import opened Basics

  datatype Policy = Policy(enabled: bool, pendingFor: int, maxWait: int, cooldown: int)
  {
    /** What the configuration guarantees of the two bounds that repeat. */
    predicate Bounded() { maxWait > 0 && cooldown >= 0 }
    function Cycle(): int { maxWait + cooldown }
  }

  datatype Facts = Facts(at: int, candidatePending: bool, pendingSince: Option<int>)

  datatype Action = NoAction | Start | Stop

  datatype Phase = Phase(draining: bool, cooling: bool, since: Option<int>, observed: bool, pendingAt: Option<int>)

  const FRESH := Phase(false, false, None, false, None)

  function Elapsed(at: int, since: Option<int>): int {
    if since.Some? then at - since.value else 0
  }

  // --- One tick ------------------------------------------------------------------------------

  /** The date a wait is given when it is first seen: when the candidate reached disk, or this tick. */
  function PendingDate(facts: Facts): int {
    if facts.pendingSince.Some? && facts.pendingSince.value <= facts.at then facts.pendingSince.value else facts.at
  }

  /** Places a state in the phase its wait has reached. */
  function Resume(policy: Policy, s: Phase, facts: Facts): Phase {
    var p := PendingDate(facts);
    var s' := s.(observed := true, pendingAt := Some(p), since := Some(p));
    var elapsed := facts.at - p - policy.pendingFor;
    var cycle := policy.Cycle();
    if elapsed < 0 || cycle <= 0 then s'
    else
      var offset := elapsed % cycle;
      if offset < policy.maxWait then s'.(draining := true, since := Some(facts.at - offset))
      else s'.(cooling := true, since := Some(facts.at + policy.maxWait - offset))
  }

  predicate MustResume(s: Phase, facts: Facts) {
    !s.observed || s.pendingAt.None? || facts.at < s.pendingAt.value
  }

  /** The machine's next phase and the action it owes. */
  function Step(policy: Policy, s: Phase, facts: Facts): (Phase, Action) {
    if !policy.enabled then
      if s.draining then (s.(draining := false, cooling := false, since := Some(facts.at)), Stop) else (s, NoAction)
    else if !facts.candidatePending then
      if s.draining then
        (s.(draining := false, cooling := false, since := Some(facts.at), pendingAt := None), Stop)
      else
        (s.(cooling := false, pendingAt := None), NoAction)
    else if MustResume(s, facts) && policy.Cycle() > 0 && facts.at - PendingDate(facts) >= policy.pendingFor
            && (facts.at - PendingDate(facts) - policy.pendingFor) % policy.Cycle() < policy.maxWait then
      (Resume(policy, s, facts), Start)
    else
      var s' := if MustResume(s, facts) then Resume(policy, s, facts) else s;
      if s'.draining then
        if Elapsed(facts.at, s'.since) >= policy.maxWait then
          (s'.(draining := false, cooling := true, since := Some(facts.at)), Stop)
        else (s', NoAction)
      else if s'.cooling then
        if Elapsed(facts.at, s'.since) >= policy.cooldown then (s'.(cooling := false, since := Some(facts.at)), NoAction)
        else (s', NoAction)
      else if Elapsed(facts.at, s'.pendingAt) >= policy.pendingFor then
        (s'.(draining := true, since := Some(facts.at)), Start)
      else (s', NoAction)
  }

  class DrainState {
    const policy: Policy
    var draining: bool
    var cooling: bool
    var since: Option<int>
    var observed: bool
    var pendingAt: Option<int>

    function View(): Phase
      reads this
    {
      Phase(draining, cooling, since, observed, pendingAt)
    }

    constructor (policy: Policy)
      ensures this.policy == policy && View() == FRESH
    {
      this.policy := policy;
      draining, cooling, since, observed, pendingAt := false, false, None, false, None;
    }

    method Observe(facts: Facts) returns (action: Action)
      modifies this
      ensures (View(), action) == Step(policy, old(View()), facts)
    {
      if !policy.enabled {
        if draining {
          Reset(facts.at);
          return Stop;
        }
        return NoAction;
      }
      if !facts.candidatePending {
        pendingAt := None;
        if draining {
          Reset(facts.at);
          return Stop;
        }
        cooling := false;
        return NoAction;
      }
      if !observed || pendingAt.None? || facts.at < pendingAt.value {
        observed := true;
        var started := ResumeWait(facts);
        if started { return Start; }
      }
      if draining {
        if Elapsed(facts.at, since) >= policy.maxWait {
          draining, cooling, since := false, true, Some(facts.at);
          return Stop;
        }
        return NoAction;
      }
      if cooling {
        if Elapsed(facts.at, since) >= policy.cooldown {
          cooling, since := false, Some(facts.at);
        }
        return NoAction;
      }
      if Elapsed(facts.at, pendingAt) >= policy.pendingFor {
        draining, since := true, Some(facts.at);
        return Start;
      }
      return NoAction;
    }

    method ResumeWait(facts: Facts) returns (started: bool)
      requires observed
      modifies this
      ensures View() == Resume(policy, old(View()), facts)
      ensures started <==> policy.Cycle() > 0 && facts.at - PendingDate(facts) >= policy.pendingFor
                           && (facts.at - PendingDate(facts) - policy.pendingFor) % policy.Cycle() < policy.maxWait
    {
      pendingAt := Some(facts.at);
      if facts.pendingSince.Some? && facts.pendingSince.value <= facts.at {
        pendingAt := facts.pendingSince;
      }
      since := pendingAt;
      var elapsed := Elapsed(facts.at, pendingAt) - policy.pendingFor;
      var cycle := policy.maxWait + policy.cooldown;
      if elapsed < 0 || cycle <= 0 { return false; }
      var offset := elapsed % cycle;
      if offset < policy.maxWait {
        draining, since := true, Some(facts.at - offset);
        return true;
      }
      cooling, since := true, Some(facts.at + policy.maxWait - offset);
      return false;
    }

    method Reset(at: int)
      modifies this
      ensures View() == old(View()).(draining := false, cooling := false, since := Some(at))
    {
      draining, cooling, since := false, false, Some(at);
    }
  }

  // --- The schedule --------------------------------------------------------------------------

  /** When the k-th drain of a wait dated `p` is due. */
  function DrainDue(policy: Policy, p: int, k: nat): int {
    p + policy.pendingFor + k * policy.Cycle()
  }

  lemma {:induction false} MultiplesGrow(j: nat, k: nat, c: nat)
    requires j <= k
    ensures j * c <= k * c && (j < k ==> j * c + c <= k * c)
    decreases k - j
  {
    if j < k {
      MultiplesGrow(j + 1, k, c);
      assert (j + 1) * c == j * c + c;
    }
  }

  lemma DueGrows(policy: Policy, p: int, j: nat, k: nat)
    requires policy.Bounded() && j <= k
    ensures DrainDue(policy, p, j) <= DrainDue(policy, p, k)
    ensures j < k ==> DrainDue(policy, p, j) + policy.Cycle() <= DrainDue(policy, p, k)
  {
    MultiplesGrow(j, k, policy.Cycle());
  }

  /** What a process that knows only the date finds on its clock: still waiting, in the k-th drain, or
      in the cooldown after it. */
  ghost predicate Scheduled(policy: Policy, p: int, at: int, s: Phase, k: nat) {
    var due := DrainDue(policy, p, k);
    || (at < DrainDue(policy, p, 0) && !s.draining && !s.cooling && s.since == Some(p))
    || (due <= at < due + policy.maxWait && s.draining && !s.cooling && s.since == Some(due))
    || (due + policy.maxWait <= at < due + policy.Cycle() && !s.draining && s.cooling && s.since == Some(due + policy.maxWait))
  }

  /** A process that starts now is put in exactly the scheduled phase, with its scheduled start. */
  lemma ResumeFollowsSchedule(policy: Policy, s: Phase, facts: Facts) returns (k: nat)
    requires policy.enabled && policy.Bounded() && facts.candidatePending
    requires !s.draining && !s.cooling && s.pendingAt.None?
    ensures var (s', action) := Step(policy, s, facts);
            && Scheduled(policy, PendingDate(facts), facts.at, s', k)
            && s'.pendingAt == Some(PendingDate(facts))
            && (action == Start <==> s'.draining) && action != Stop
  {
    var p := PendingDate(facts);
    var elapsed := facts.at - p - policy.pendingFor;
    var cycle := policy.Cycle();
    if elapsed < 0 {
      k := 0;
    } else {
      k := elapsed / cycle;
      assert elapsed == k * cycle + elapsed % cycle && 0 <= elapsed % cycle < cycle;
    }
  }

  /** No other phase fits the schedule at that instant. */
  lemma ScheduleIsUnique(policy: Policy, p: int, at: int, s: Phase, j: nat, r: Phase, k: nat)
    requires policy.Bounded()
    requires Scheduled(policy, p, at, s, j) && Scheduled(policy, p, at, r, k)
    ensures s.draining == r.draining && s.cooling == r.cooling && s.since == r.since
  {
    DueGrows(policy, p, 0, j);
    DueGrows(policy, p, 0, k);
    if j < k { DueGrows(policy, p, j, k); }
    if k < j { DueGrows(policy, p, k, j); }
  }

  // --- Runs ----------------------------------------------------------------------------------

  /** The phase after a sequence of ticks. */
  function After(policy: Policy, s: Phase, ticks: seq<Facts>): Phase {
    if ticks == [] then s
    else Step(policy, After(policy, s, ticks[..|ticks| - 1]), ticks[|ticks| - 1]).0
  }

  /** The action of the i-th tick. */
  function ActionAt(policy: Policy, s: Phase, ticks: seq<Facts>, i: nat): Action
    requires i < |ticks|
  {
    Step(policy, After(policy, s, ticks[..i]), ticks[i]).1
  }

  predicate Forward(ticks: seq<Facts>) {
    forall i, j | 0 <= i < j < |ticks| :: ticks[i].at <= ticks[j].at
  }

  /** The date a phase keeps is never ahead of the last tick that touched it. */
  ghost predicate Dated(policy: Policy, s: Phase, at: int) {
    && !(s.draining && s.cooling)
    && (s.draining || s.cooling ==> s.since.Some? && s.since.value <= at && s.pendingAt.Some?)
    && (s.pendingAt.Some? ==> s.pendingAt.value <= at && s.observed)
    && (s.draining ==> at - s.since.value < policy.maxWait)
    && (s.cooling ==> s.since.value == at || at - s.since.value < policy.cooldown)
  }

  lemma StepKeepsDated(policy: Policy, s: Phase, facts: Facts, before: int)
    requires policy.maxWait > 0 && before <= facts.at
    requires Dated(policy, s, before) && (s.draining || s.cooling ==> policy.enabled)
    ensures var s' := Step(policy, s, facts).0;
            Dated(policy, s', facts.at) && (s'.draining || s'.cooling ==> facts.candidatePending && policy.enabled)
  {
  }

  /** In every run on a clock that never goes back: draining and cooldown are never both set, both have a
      candidate to reach, a drain has lasted less than its bound, and so has a cooldown that does not begin
      on this very tick. */
  lemma {:induction false} RunIsSafe(policy: Policy, ticks: seq<Facts>)
    requires policy.maxWait > 0 && Forward(ticks) && |ticks| > 0
    ensures var s := After(policy, FRESH, ticks);
            var last := ticks[|ticks| - 1];
            && Dated(policy, s, last.at)
            && (s.draining || s.cooling ==> last.candidatePending && policy.enabled)
  {
    var rest := ticks[..|ticks| - 1];
    if rest == [] {
      StepKeepsDated(policy, FRESH, ticks[0], ticks[0].at);
    } else {
      RunIsSafe(policy, rest);
      StepKeepsDated(policy, After(policy, FRESH, rest), ticks[|ticks| - 1], rest[|rest| - 1].at);
    }
  }

  /** A tick with a candidate that finds a process waiting, neither draining nor cooling, starts a drain dated
      at that tick exactly when the wait has lasted its bound. */
  ghost predicate StartsWhenDue(policy: Policy, was: Phase, now: Phase, at: int) {
    was.pendingAt.Some? && !was.draining && !was.cooling ==>
      && (now.draining <==> at - was.pendingAt.value >= policy.pendingFor)
      && (now.draining ==> now.since == Some(at))
  }

  /** One that finds a process that did not know of the wait puts it in the schedule's drain if one is on, dated
      at its start. */
  ghost predicate ResumesWhenDue(policy: Policy, was: Phase, now: Phase, p: int, at: int) {
    was.pendingAt.None? && !was.draining && !was.cooling ==>
      forall k: nat | DrainDue(policy, p, k) <= at < DrainDue(policy, p, k) + policy.maxWait ::
        now.draining && now.since == Some(DrainDue(policy, p, k))
  }

  lemma StepStartsWhenDue(policy: Policy, was: Phase, facts: Facts, before: int)
    requires policy.enabled && policy.Bounded() && facts.candidatePending && before <= facts.at && Dated(policy, was, before)
    ensures StartsWhenDue(policy, was, Step(policy, was, facts).0, facts.at)
  {
  }

  lemma StepResumesWhenDue(policy: Policy, was: Phase, facts: Facts)
    requires policy.enabled && policy.Bounded() && facts.candidatePending
    ensures ResumesWhenDue(policy, was, Step(policy, was, facts).0, PendingDate(facts), facts.at)
  {
    if was.pendingAt.None? && !was.draining && !was.cooling {
      var p := PendingDate(facts);
      var j := ResumeFollowsSchedule(policy, was, facts);
      forall k: nat | DrainDue(policy, p, k) <= facts.at < DrainDue(policy, p, k) + policy.maxWait
        ensures k == j
      {
        DueGrows(policy, p, 0, k);
        if j < k { DueGrows(policy, p, j, k); }
        if k < j { DueGrows(policy, p, k, j); }
      }
    }
  }

  /** So it is on every tick with a candidate of every run on a clock that never goes back. */
  lemma DueDrainStarts(policy: Policy, ticks: seq<Facts>)
    requires policy.enabled && policy.Bounded() && Forward(ticks) && ticks != [] && ticks[|ticks| - 1].candidatePending
    ensures var was, now, last := After(policy, FRESH, ticks[..|ticks| - 1]), After(policy, FRESH, ticks), ticks[|ticks| - 1];
            StartsWhenDue(policy, was, now, last.at) && ResumesWhenDue(policy, was, now, PendingDate(last), last.at)
  {
    var n := |ticks| - 1;
    var was := After(policy, FRESH, ticks[..n]);
    if n > 0 { RunIsSafe(policy, ticks[..n]); }
    StepStartsWhenDue(policy, was, ticks[n], if n > 0 then ticks[n - 1].at else ticks[n].at);
    StepResumesWhenDue(policy, was, ticks[n]);
  }

  /** On such a run an action is exactly an edge of the drain. */
  lemma ActionIsEdge(policy: Policy, ticks: seq<Facts>, i: nat)
    requires policy.maxWait > 0 && Forward(ticks) && i < |ticks|
    ensures var was := After(policy, FRESH, ticks[..i]).draining;
            var now := After(policy, FRESH, ticks[..i + 1]).draining;
            && (ActionAt(policy, FRESH, ticks, i) == Start <==> !was && now)
            && (ActionAt(policy, FRESH, ticks, i) == Stop <==> was && !now)
  {
    var s := After(policy, FRESH, ticks[..i]);
    assert ticks[..i + 1][..i] == ticks[..i];
    if i > 0 {
      RunIsSafe(policy, ticks[..i]);
      assert s.pendingAt.Some? ==> s.pendingAt.value <= ticks[i].at;
    }
  }

  /** Starts and stops alternate, beginning with a start. */
  lemma {:induction false} ActionsAlternate(policy: Policy, ticks: seq<Facts>, i: nat, j: nat)
    requires policy.maxWait > 0 && Forward(ticks) && i < j < |ticks|
    requires ActionAt(policy, FRESH, ticks, i) == ActionAt(policy, FRESH, ticks, j) != NoAction
    ensures exists k | i < k < j :: ActionAt(policy, FRESH, ticks, k) !in {NoAction, ActionAt(policy, FRESH, ticks, i)}
  {
    var actions := seq(|ticks|, k requires 0 <= k < |ticks| => ActionAt(policy, FRESH, ticks, k));
    var drains := seq(|ticks| + 1, k requires 0 <= k <= |ticks| => After(policy, FRESH, ticks[..k]).draining);
    forall k | 0 <= k < |ticks|
      ensures actions[k] == Start <==> !drains[k] && drains[k + 1]
      ensures actions[k] == Stop <==> drains[k] && !drains[k + 1]
    {
      ActionIsEdge(policy, ticks, k);
    }
    var k := EdgesAlternate(actions, drains, i, j);
    assert actions[k] == ActionAt(policy, FRESH, ticks, k);
  }

  /** Between two equal edges of a flag lies an opposite one. */
  lemma EdgesAlternate(actions: seq<Action>, flags: seq<bool>, i: nat, j: nat) returns (k: nat)
    requires |flags| == |actions| + 1 && i < j < |actions| && actions[i] == actions[j] != NoAction
    requires forall k | 0 <= k < |actions| :: actions[k] == Start <==> !flags[k] && flags[k + 1]
    requires forall k | 0 <= k < |actions| :: actions[k] == Stop <==> flags[k] && !flags[k + 1]
    ensures i < k < j && actions[k] !in {NoAction, actions[i]}
  {
    assert actions[i].Start? || actions[i].Stop?;
    assert flags[i] != flags[i + 1] && flags[j] != flags[j + 1] && flags[j] == flags[i];
    k := i + 1;
    while k < j && flags[k + 1] == flags[i + 1]
      invariant i < k <= j && flags[k] == flags[i + 1]
    {
      k := k + 1;
    }
    assert k < j && actions[k] != actions[i];
  }

  lemma FirstActionIsStart(policy: Policy, ticks: seq<Facts>, i: nat)
    requires policy.maxWait > 0 && Forward(ticks) && i < |ticks|
    requires forall k | 0 <= k < i :: ActionAt(policy, FRESH, ticks, k) == NoAction
    ensures ActionAt(policy, FRESH, ticks, i) != Stop
  {
    var k := 0;
    while k < i
      invariant 0 <= k <= i
      invariant !After(policy, FRESH, ticks[..k]).draining
    {
      ActionIsEdge(policy, ticks, k);
      k := k + 1;
    }
    ActionIsEdge(policy, ticks, i);
  }

  // --- A process that never restarts ---------------------------------------------------------

  /** How many drains started among these ticks. */
  function Starts(policy: Policy, s: Phase, ticks: seq<Facts>): nat {
    if ticks == [] then 0
    else Starts(policy, s, ticks[..|ticks| - 1]) + if ActionAt(policy, s, ticks, |ticks| - 1) == Start then 1 else 0
  }

  /** A node with nothing pending: how a process begins, and where every tick without a candidate
      leaves it. */
  predicate Unpending(s: Phase) { !s.draining && !s.cooling && s.pendingAt.None? }

  lemma NothingPendingClears(policy: Policy, s: Phase, facts: Facts)
    requires policy.enabled && !facts.candidatePending
    ensures Unpending(Step(policy, s, facts).0)
  {
  }

  /** How far behind the schedule a live process may be, and never ahead of it. */
  ghost predicate Behind(policy: Policy, p: int, s: Phase, started: nat, at: int) {
    && s.pendingAt == Some(p) && s.observed && p <= at
    && !(s.draining && s.cooling)
    && s.since.Some? && s.since.value <= at && (policy.pendingFor >= 0 ==> p <= s.since.value)
    && (s.draining ==> started > 0 && DrainDue(policy, p, started - 1) <= s.since.value)
    && (s.cooling ==> DrainDue(policy, p, started) <= s.since.value + policy.cooldown)
    && (!s.draining && !s.cooling ==> started == 0 || DrainDue(policy, p, started) <= s.since.value)
  }

  lemma StepStaysBehind(policy: Policy, p: int, s: Phase, started: nat, before: int, facts: Facts)
    requires policy.enabled && policy.Bounded() && facts.candidatePending
    requires Behind(policy, p, s, started, before) && before <= facts.at
    ensures var (s', action) := Step(policy, s, facts);
            && Behind(policy, p, s', started + if action == Start then 1 else 0, facts.at)
            && (action == Start ==> DrainDue(policy, p, started) <= s'.since.value)
  {
    DueGrows(policy, p, 0, started);
    if started > 0 { DueGrows(policy, p, started - 1, started); }
  }

  /** Where a process stands after a wait, and where the drain it has just started stands: never ahead of the
      schedule. */
  ghost predicate BehindSchedule(policy: Policy, s: Phase, wait: seq<Facts>)
    requires wait != []
  {
    var p, end := PendingDate(wait[0]), After(policy, s, wait);
    && Behind(policy, p, end, Starts(policy, s, wait), wait[|wait| - 1].at)
    && (ActionAt(policy, s, wait, |wait| - 1) == Start ==>
          end.since.Some? && DrainDue(policy, p, Starts(policy, s, wait[..|wait| - 1])) <= end.since.value)
  }

  lemma FirstTickIsBehind(policy: Policy, s: Phase, facts: Facts)
    requires policy.enabled && policy.Bounded() && Unpending(s) && facts.candidatePending
    ensures var (s', action) := Step(policy, s, facts);
            && Behind(policy, PendingDate(facts), s', if action == Start then 1 else 0, facts.at)
            && (action == Start ==> s'.since.Some? && DrainDue(policy, PendingDate(facts), 0) <= s'.since.value)
  {
    var k := ResumeFollowsSchedule(policy, s, facts);
    DueGrows(policy, PendingDate(facts), 0, k);
  }

  /** While a candidate waits, the k-th drain a process starts is never dated before the schedule's
      k-th drain, at whatever instants it happens to tick. */
  lemma {:induction false} LiveNeverAhead(policy: Policy, s: Phase, ticks: seq<Facts>)
    requires policy.enabled && policy.Bounded() && Unpending(s)
    requires |ticks| > 0 && Forward(ticks) && forall i | 0 <= i < |ticks| :: ticks[i].candidatePending
    ensures BehindSchedule(policy, s, ticks)
  {
    var p := PendingDate(ticks[0]);
    var rest := ticks[..|ticks| - 1];
    if rest == [] {
      assert ticks[..0] == [];
      FirstTickIsBehind(policy, s, ticks[0]);
    } else {
      LiveNeverAhead(policy, s, rest);
      StepStaysBehind(policy, p, After(policy, s, rest), Starts(policy, s, rest), rest[|rest| - 1].at, ticks[|ticks| - 1]);
    }
  }

  /** The time of n gaps of g. */
  function Lag(n: nat, g: nat): nat { if n == 0 then 0 else Lag(n - 1, g) + g }

  lemma {:induction false} LagIsProduct(n: nat, g: nat)
    ensures Lag(n, g) == n * g
  {
    if n > 0 { LagIsProduct(n - 1, g); }
  }

  /** How far behind the schedule a process is at most when its ticks are at most g apart: one gap for each of
      the edges it has passed, three to a cycle. */
  ghost predicate InPace(policy: Policy, p: int, s: Phase, started: nat, at: int, g: nat) {
    && s.since.Some?
    && (s.draining ==> started > 0 && at - s.since.value < policy.maxWait
                       && s.since.value <= DrainDue(policy, p, started - 1) + Lag(3 * started - 2, g))
    && (s.cooling ==> started > 0 && (s.since.value == at || at - s.since.value < policy.cooldown)
                      && s.since.value <= DrainDue(policy, p, started - 1) + policy.maxWait + Lag(3 * started - 1, g))
    && (!s.draining && !s.cooling ==>
          if started == 0 then at < DrainDue(policy, p, 0) else at == s.since.value <= DrainDue(policy, p, started) + Lag(3 * started, g))
  }

  lemma StepKeepsPace(policy: Policy, p: int, s: Phase, started: nat, before: int, facts: Facts, g: nat)
    requires policy.enabled && policy.Bounded() && facts.candidatePending
    requires Behind(policy, p, s, started, before) && before <= facts.at <= before + g
    requires InPace(policy, p, s, started, before, g)
    ensures var (s', action) := Step(policy, s, facts);
            InPace(policy, p, s', started + if action == Start then 1 else 0, facts.at, g)
  {
    DueGrows(policy, p, 0, started);
    assert Lag(3 * started + 1, g) == Lag(3 * started, g) + g;
    if started > 0 {
      assert Lag(3 * started, g) == Lag(3 * started - 1, g) + g && Lag(3 * started - 1, g) == Lag(3 * started - 2, g) + g;
      assert DrainDue(policy, p, started) == DrainDue(policy, p, started - 1) + policy.Cycle();
    }
  }

  ghost predicate Gaps(ticks: seq<Facts>, g: nat) {
    forall i | 0 < i < |ticks| :: ticks[i].at - ticks[i - 1].at <= g
  }

  /** The process was there when the wait began, and its ticks are at most g apart. */
  ghost predicate Attended(policy: Policy, s: Phase, ticks: seq<Facts>, g: nat) {
    && policy.enabled && policy.Bounded() && Unpending(s) && ticks != [] && Forward(ticks) && Gaps(ticks, g)
    && (forall i | 0 <= i < |ticks| :: ticks[i].candidatePending)
    && ticks[0].at < DrainDue(policy, PendingDate(ticks[0]), 0)
  }

  lemma AttendedSoFar(policy: Policy, s: Phase, ticks: seq<Facts>, g: nat)
    requires Attended(policy, s, ticks, g) && |ticks| > 1
    ensures Attended(policy, s, ticks[..|ticks| - 1], g)
  {
    var rest := ticks[..|ticks| - 1];
    assert forall i | 0 <= i < |rest| :: rest[i] == ticks[i];
  }

  lemma PaceBegins(policy: Policy, s: Phase, ticks: seq<Facts>, g: nat)
    requires Attended(policy, s, ticks, g) && |ticks| == 1
    ensures InPace(policy, PendingDate(ticks[0]), After(policy, s, ticks), Starts(policy, s, ticks), ticks[0].at, g)
  {
    OneTick(policy, s, ticks);
    FirstTickWaits(policy, s, ticks[0]);
  }

  lemma {:induction false} LiveKeepsPace(policy: Policy, s: Phase, ticks: seq<Facts>, g: nat)
    requires Attended(policy, s, ticks, g)
    ensures InPace(policy, PendingDate(ticks[0]), After(policy, s, ticks), Starts(policy, s, ticks), ticks[|ticks| - 1].at, g)
    decreases |ticks|
  {
    if |ticks| == 1 {
      PaceBegins(policy, s, ticks, g);
    } else {
      AttendedSoFar(policy, s, ticks, g);
      LiveKeepsPace(policy, s, ticks[..|ticks| - 1], g);
      LiveNeverAhead(policy, s, ticks[..|ticks| - 1]);
      PaceGoesOn(policy, s, ticks, g);
    }
  }

  lemma PaceGoesOn(policy: Policy, s: Phase, ticks: seq<Facts>, g: nat)
    requires Attended(policy, s, ticks, g) && |ticks| > 1
    requires var rest := ticks[..|ticks| - 1];
             && BehindSchedule(policy, s, rest)
             && InPace(policy, PendingDate(ticks[0]), After(policy, s, rest), Starts(policy, s, rest), rest[|rest| - 1].at, g)
    ensures InPace(policy, PendingDate(ticks[0]), After(policy, s, ticks), Starts(policy, s, ticks), ticks[|ticks| - 1].at, g)
  {
    var n := |ticks| - 1;
    var rest := ticks[..n];
    assert rest[n - 1] == ticks[n - 1];
    StepKeepsPace(policy, PendingDate(ticks[0]), After(policy, s, rest), Starts(policy, s, rest), ticks[n - 1].at, ticks[n], g);
  }

  /** The drain that is on was started no earlier than the schedule's, and no later than 3k + 1 gaps after it. */
  ghost predicate WithinGaps(policy: Policy, p: int, s: Phase, started: nat, g: nat) {
    s.draining ==>
      && started > 0 && s.since.Some?
      && DrainDue(policy, p, started - 1) <= s.since.value <= DrainDue(policy, p, started - 1) + (3 * (started - 1) + 1) * g
  }

  /** And never far behind: the k-th drain of an attended wait starts no later than the schedule's k-th and
      3k + 1 gaps. */
  lemma StartsInPace(policy: Policy, s: Phase, ticks: seq<Facts>, g: nat)
    requires Attended(policy, s, ticks, g)
    ensures WithinGaps(policy, PendingDate(ticks[0]), After(policy, s, ticks), Starts(policy, s, ticks), g)
  {
    LiveKeepsPace(policy, s, ticks, g);
    LiveNeverAhead(policy, s, ticks);
    PaceInGaps(policy, PendingDate(ticks[0]), After(policy, s, ticks), Starts(policy, s, ticks), ticks[|ticks| - 1].at, g);
  }

  lemma PaceInGaps(policy: Policy, p: int, s: Phase, started: nat, at: int, g: nat)
    requires InPace(policy, p, s, started, at, g) && Behind(policy, p, s, started, at)
    ensures WithinGaps(policy, p, s, started, g)
  {
    if s.draining { LagIsProduct(3 * started - 2, g); }
  }

  lemma OneTick(policy: Policy, s: Phase, ticks: seq<Facts>)
    requires |ticks| == 1
    ensures var (s', action) := Step(policy, s, ticks[0]);
            After(policy, s, ticks) == s' && Starts(policy, s, ticks) == if action == Start then 1 else 0
  {
    assert ticks[..0] == [];
  }

  lemma FirstTickWaits(policy: Policy, s: Phase, facts: Facts)
    requires policy.enabled && policy.Bounded() && Unpending(s) && facts.candidatePending
    requires facts.at < DrainDue(policy, PendingDate(facts), 0)
    ensures var (s', action) := Step(policy, s, facts); action == NoAction && !s'.draining && !s'.cooling && s'.since.Some?
  {
    var k := ResumeFollowsSchedule(policy, s, facts);
    DueGrows(policy, PendingDate(facts), 0, k);
  }

  // --- Whole runs of a process ---------------------------------------------------------------

  lemma {:induction false} AfterAppends(policy: Policy, s: Phase, a: seq<Facts>, b: seq<Facts>)
    ensures After(policy, s, a + b) == After(policy, After(policy, s, a), b)
    decreases |b|
  {
    if b == [] {
      assert a + b == a;
    } else {
      var n := |a + b| - 1;
      assert (a + b)[..n] == a + b[..|b| - 1] && (a + b)[n] == b[|b| - 1];
      AfterAppends(policy, s, a, b[..|b| - 1]);
    }
  }

  /** The candidate that waits at the end of a run has waited since tick j. */
  predicate WaitingSince(ticks: seq<Facts>, j: nat) {
    && j < |ticks| && (forall i | j <= i < |ticks| :: ticks[i].candidatePending)
    && (j > 0 ==> !ticks[j - 1].candidatePending)
  }

  lemma StretchStartsUnpending(policy: Policy, ticks: seq<Facts>, j: nat)
    requires policy.enabled && WaitingSince(ticks, j)
    ensures Unpending(After(policy, FRESH, ticks[..j]))
  {
    if j > 0 {
      assert ticks[..j][..j - 1] == ticks[..j - 1];
      NothingPendingClears(policy, After(policy, FRESH, ticks[..j - 1]), ticks[j - 1]);
    }
  }

  lemma RunSplits(policy: Policy, ticks: seq<Facts>, j: nat, n: nat)
    requires j <= n <= |ticks|
    ensures After(policy, FRESH, ticks[..n]) == After(policy, After(policy, FRESH, ticks[..j]), ticks[j..n])
  {
    assert ticks[..n] == ticks[..j] + ticks[j..n];
    AfterAppends(policy, FRESH, ticks[..j], ticks[j..n]);
  }

  /** A run is its last wait, from where the run had come when that began. */
  lemma RunEndsInWait(policy: Policy, ticks: seq<Facts>, j: nat)
    requires j < |ticks|
    ensures After(policy, FRESH, ticks) == After(policy, After(policy, FRESH, ticks[..j]), ticks[j..])
  {
    assert ticks[..|ticks|] == ticks && ticks[j..|ticks|] == ticks[j..];
    RunSplits(policy, ticks, j, |ticks|);
  }

  lemma ActionEndsInWait(policy: Policy, ticks: seq<Facts>, j: nat)
    requires j < |ticks|
    ensures ActionAt(policy, FRESH, ticks, |ticks| - 1)
         == ActionAt(policy, After(policy, FRESH, ticks[..j]), ticks[j..], |ticks| - j - 1)
  {
    var n := |ticks| - 1;
    assert ticks[j..][..n - j] == ticks[j..n];
    RunSplits(policy, ticks, j, n);
  }

  /** In every run of a process, whatever candidates came and went before, the k-th drain of the wait that
      is on is never dated before the schedule's k-th. */
  lemma RunNeverAhead(policy: Policy, ticks: seq<Facts>, j: nat)
    requires policy.enabled && policy.Bounded() && Forward(ticks) && WaitingSince(ticks, j)
    ensures BehindSchedule(policy, After(policy, FRESH, ticks[..j]), ticks[j..])
    ensures After(policy, FRESH, ticks) == After(policy, After(policy, FRESH, ticks[..j]), ticks[j..])
    ensures ActionAt(policy, FRESH, ticks, |ticks| - 1) == ActionAt(policy, After(policy, FRESH, ticks[..j]), ticks[j..], |ticks| - j - 1)
  {
    StretchStartsUnpending(policy, ticks, j);
    RunEndsInWait(policy, ticks, j);
    ActionEndsInWait(policy, ticks, j);
    LiveNeverAhead(policy, After(policy, FRESH, ticks[..j]), ticks[j..]);
  }

  // --- A restart beside a live process -------------------------------------------------------

  /** An instant at which the schedule begins a drain or a cooldown. */
  ghost predicate Boundary(policy: Policy, p: int, b: int) {
    exists k: nat :: b == DrainDue(policy, p, k) || b == DrainDue(policy, p, k) + policy.maxWait
  }

  /** A process that starts now dates its phase after x exactly when the schedule begins a drain or a
      cooldown after x and not after now; and it is in a drain dated after x exactly when that is a drain
      still on. */
  lemma RestartDatesExactly(policy: Policy, s: Phase, facts: Facts, x: int)
    requires policy.enabled && policy.Bounded() && facts.candidatePending && Unpending(s)
    requires PendingDate(facts) <= x <= facts.at
    ensures var p, s' := PendingDate(facts), Step(policy, s, facts).0;
            && s'.since.Some?
            && (s'.since.value > x <==> exists b :: Boundary(policy, p, b) && x < b <= facts.at)
            && (s'.draining && s'.since.value > x <==>
                  exists k: nat :: x < DrainDue(policy, p, k) <= facts.at < DrainDue(policy, p, k) + policy.maxWait)
  {
    var p, s' := PendingDate(facts), Step(policy, s, facts).0;
    var k := ResumeFollowsSchedule(policy, s, facts);
    if s'.draining || s'.cooling { assert Boundary(policy, p, s'.since.value); }
    forall b | Boundary(policy, p, b) && x < b <= facts.at
      ensures s'.since.value >= b
    {
      LatestBoundary(policy, p, facts.at, s', k, b);
    }
    forall j: nat | DrainDue(policy, p, j) <= facts.at < DrainDue(policy, p, j) + policy.maxWait
      ensures j == k && s'.draining
    {
      DueGrows(policy, p, 0, j);
      if j < k { DueGrows(policy, p, j, k); }
      if k < j { DueGrows(policy, p, k, j); }
    }
  }

  /** The scheduled phase began at the latest boundary. */
  lemma LatestBoundary(policy: Policy, p: int, at: int, s: Phase, k: nat, b: int)
    requires policy.Bounded() && Scheduled(policy, p, at, s, k) && Boundary(policy, p, b) && b <= at
    ensures s.since.Some? && b <= s.since.value
  {
    var j: nat :| b == DrainDue(policy, p, j) || b == DrainDue(policy, p, j) + policy.maxWait;
    DueGrows(policy, p, 0, j);
    if j < k { DueGrows(policy, p, j, k); }
    if k < j { DueGrows(policy, p, k, j); }
  }

  /** A process restarted beside a live one, in whatever phase that is and under a pending bound that is not
      negative, dates its phase later than the live
      process dates its own exactly when the schedule begins a drain or a cooldown between the live date and
      the restart. A drain resumed so refuses admission for longer than `maxWait` in one stretch, and never
      for twice as long. */
  lemma RestartAgainstLive(policy: Policy, ticks: seq<Facts>, j: nat, s: Phase, facts: Facts)
    requires policy.enabled && policy.Bounded() && policy.pendingFor >= 0 && Forward(ticks) && WaitingSince(ticks, j)
    requires facts.candidatePending && ticks[|ticks| - 1].at <= facts.at && PendingDate(facts) == PendingDate(ticks[j])
    requires Unpending(s)
    ensures var p, live, restarted := PendingDate(facts), After(policy, FRESH, ticks), Step(policy, s, facts).0;
            && live.since.Some? && restarted.since.Some?
            && (restarted.since.value > live.since.value <==>
                  exists b :: Boundary(policy, p, b) && live.since.value < b <= facts.at)
            && (restarted.draining && restarted.since.value > live.since.value <==>
                  exists k: nat :: live.since.value < DrainDue(policy, p, k) <= facts.at < DrainDue(policy, p, k) + policy.maxWait)
            && (live.draining && facts.at < live.since.value + policy.maxWait ==>
                  restarted.since.value + policy.maxWait < live.since.value + 2 * policy.maxWait)
  {
    RunNeverAhead(policy, ticks, j);
    var live := After(policy, FRESH, ticks);
    RestartDatesExactly(policy, s, facts, live.since.value);
    var k := ResumeFollowsSchedule(policy, s, facts);
  }

  const LAGGING := Policy(true, 1, 2, 2)

  /** Such a restart: ticks at 0 and 4 begin a drain at 4, and a process restarted at 5 dates its own
      drain 5, so the two together refuse admission past 4 + maxWait. */
  lemma RestartMayLengthenDrain()
    ensures After(LAGGING, FRESH, [Facts(0, true, Some(0)), Facts(4, true, None)]) == Phase(true, false, Some(4), true, Some(0))
    ensures Step(LAGGING, FRESH, Facts(5, true, Some(0))).0 == Phase(true, false, Some(5), true, Some(0))
  {
    var first, second := Facts(0, true, Some(0)), Facts(4, true, None);
    AfterNext(LAGGING, FRESH, [], first);
    assert [] + [first] == [first];
    AfterNext(LAGGING, FRESH, [first], second);
    assert [first] + [second] == [first, second];
  }

  /** And in a cooldown: ticks at 6 and 7 find that process cooling since 6, and one restarted at 7 cools
      since 7. */
  lemma RestartMayLengthenCooldown()
    ensures After(LAGGING, FRESH, [Facts(0, true, Some(0)), Facts(4, true, None), Facts(6, true, None), Facts(7, true, None)])
         == Phase(false, true, Some(6), true, Some(0))
    ensures Step(LAGGING, FRESH, Facts(7, true, Some(0))).0 == Phase(false, true, Some(7), true, Some(0))
  {
    RestartMayLengthenDrain();
    var drained := [Facts(0, true, Some(0)), Facts(4, true, None)];
    var third, fourth := Facts(6, true, None), Facts(7, true, None);
    AfterNext(LAGGING, FRESH, drained, third);
    AfterNext(LAGGING, FRESH, drained + [third], fourth);
    assert drained + [third] + [fourth] == [Facts(0, true, Some(0)), Facts(4, true, None), Facts(6, true, None), Facts(7, true, None)];
  }

  lemma AfterNext(policy: Policy, s: Phase, ticks: seq<Facts>, next: Facts)
    ensures After(policy, s, ticks + [next]) == Step(policy, After(policy, s, ticks), next).0
  {
    assert (ticks + [next])[..|ticks|] == ticks;
  }

  // --- The daemon controller -----------------------------------------------------------------

  /** One tick's reading of the releases directory: the newest waiting generation, if any, and when
      the earliest of them was materialised. */
  datatype Reading = Reading(pending: bool, candidate: string, materialised: Option<int>)

  class UpdateDrainController {
    const state: DrainState
    var pendingSince: Option<int>
    var candidate: string

    constructor (policy: Policy)
      ensures fresh(state) && state.policy == policy && state.View() == FRESH && pendingSince == None
    {
      state := new DrainState(policy);
      pendingSince := None;
      candidate := "";
    }

    /** The published date is the machine's own, and it is never ahead of the clock. */
    ghost predicate Agrees(at: int)
      reads this, state
    {
      && state.policy.enabled
      && pendingSince == state.pendingAt
      && (pendingSince.Some? ==> pendingSince.value <= at && state.observed)
    }

    /** The candidate's date is handed to the machine only on the tick that first sees it. */
    method Observe(at: int, reading: Reading, ghost before: int) returns (action: Action)
      requires Agrees(before) && before <= at
      modifies this, state
      ensures Agrees(at)
      ensures candidate == reading.candidate
      ensures pendingSince.Some? <==> reading.pending
      ensures reading.pending && old(pendingSince.Some?) ==> pendingSince == old(pendingSince)
      // A wait is dated by its materialisation, unless that is unknown or ahead of the clock.
      ensures reading.pending && old(pendingSince.None?) ==>
                pendingSince == if reading.materialised.Some? && reading.materialised.value <= at then reading.materialised else Some(at)
      ensures (state.View(), action) == Step(state.policy, old(state.View()), Facts(at, reading.pending,
                if reading.pending && old(pendingSince.None?) then reading.materialised else None))
    {
      candidate := reading.candidate;
      var materialised := None;
      if !reading.pending {
        pendingSince := None;
      } else if pendingSince.None? {
        materialised := reading.materialised;
        pendingSince := Some(at);
        if materialised.Some? && materialised.value <= at { pendingSince := materialised; }
      }
      action := state.Observe(Facts(at, reading.pending, materialised));
    }
  }
}
