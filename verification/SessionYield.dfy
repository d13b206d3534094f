/**
 Withdrawing a node's scale-set sessions while it cannot admit work (internal/daemon/sessionyield.go) and
 driving each session toward that decision (internal/daemon/runtime.go).
 */
module SessionYield {
  import opened Basics

  datatype Policy = Policy(enabled: bool, blockedFor: int, healthyFor: int)
  datatype Action = Stay | Withdraw | Rejoin

  datatype Facts = Facts(at: int, admissionAllowed: bool, liveInstances: int, busyOperations: int)
  {
    predicate Blocked() { !admissionAllowed }
    predicate Idle() { liveInstances <= 0 && busyOperations <= 0 }
  }

  datatype State = State(yielded: bool, streakSince: int, streakBlocked: bool, observed: bool)

  const FRESH := State(false, 0, false, false)

  /** The streak the tick belongs to: a new one at the first tick, when the condition flips, and when the
      clock has moved behind its start. */
  function Streak(s: State, f: Facts): State {
    if !s.observed || s.streakBlocked != f.Blocked() || f.at < s.streakSince
    then s.(observed := true, streakBlocked := f.Blocked(), streakSince := f.at)
    else s
  }

  function Next(p: Policy, before: State, f: Facts): (State, Action) {
    if !p.enabled then
      if before.yielded then (before.(yielded := false, observed := false), Rejoin) else (before, Stay)
    else
      var s := Streak(before, f);
      if s.yielded then
        if !f.Blocked() && f.at - s.streakSince >= p.healthyFor
        then (s.(yielded := false, streakSince := f.at), Rejoin)
        else (s, Stay)
      else if !f.Blocked() then (s, Stay)
      else if !f.Idle() then (s.(streakSince := f.at), Stay)
      else if f.at - s.streakSince >= p.blockedFor then (s.(yielded := true, streakSince := f.at), Withdraw)
      else (s, Stay)
  }

  class YieldState {
    const policy: Policy
    var yielded: bool
    var streakSince: int
    var streakBlocked: bool
    var observed: bool

    function Value(): State
      reads this
    {
      State(yielded, streakSince, streakBlocked, observed)
    }

    constructor (policy: Policy)
      ensures Value() == FRESH && this.policy == policy
    {
      this.policy := policy;
      yielded, streakSince, streakBlocked, observed := false, 0, false, false;
    }

    method Observe(f: Facts) returns (action: Action)
      modifies this
      ensures (Value(), action) == Next(policy, old(Value()), f)
    {
      if !policy.enabled {
        if yielded {
          yielded, observed := false, false;
          return Rejoin;
        }
        return Stay;
      }
      var blocked := !f.admissionAllowed;
      if !observed || streakBlocked != blocked || f.at < streakSince {
        observed, streakBlocked, streakSince := true, blocked, f.at;
      }
      if yielded {
        if !blocked && f.at - streakSince >= policy.healthyFor {
          yielded, streakSince := false, f.at;
          return Rejoin;
        }
        return Stay;
      }
      if !blocked { return Stay; }
      if f.liveInstances > 0 || f.busyOperations > 0 {
        streakSince := f.at;
        return Stay;
      }
      if f.at - streakSince >= policy.blockedFor {
        yielded, streakSince := true, f.at;
        return Withdraw;
      }
      return Stay;
    }
  }

  // --- Whole runs ----------------------------------------------------------------------------

  /** The state of a fresh node after a run of ticks, and what it did at the last. */
  function After(p: Policy, ticks: seq<Facts>): State {
    if ticks == [] then FRESH else Next(p, After(p, ticks[..|ticks| - 1]), ticks[|ticks| - 1]).0
  }

  function LastAction(p: Policy, ticks: seq<Facts>): Action
    requires ticks != []
  {
    Next(p, After(p, ticks[..|ticks| - 1]), ticks[|ticks| - 1]).1
  }

  function Last(ticks: seq<Facts>): Facts
    requires ticks != []
  {
    ticks[|ticks| - 1]
  }

  /** Tick s was blocked and every later one blocked and idle. */
  predicate IdleSince(ticks: seq<Facts>, s: int) {
    0 <= s < |ticks| && ticks[s].Blocked() && forall u | s < u < |ticks| :: ticks[u].Blocked() && ticks[u].Idle()
  }

  /** Admission was allowed at tick s and ever since. */
  predicate AllowedSince(ticks: seq<Facts>, s: int) {
    0 <= s < |ticks| && forall u | s <= u < |ticks| :: !ticks[u].Blocked()
  }

  /** The earliest clock reading of the idle blocked run that ends the ticks. */
  ghost predicate IdleFrom(ticks: seq<Facts>, since: int) {
    && (exists s :: IdleSince(ticks, s) && ticks[s].at == since)
    && (forall s :: IdleSince(ticks, s) ==> ticks[s].at >= since)
  }

  ghost predicate AllowedFrom(ticks: seq<Facts>, since: int) {
    && (exists s :: AllowedSince(ticks, s) && ticks[s].at == since)
    && (forall s :: AllowedSince(ticks, s) ==> ticks[s].at >= since)
  }

  /** One more blocked tick extends the run when it is idle and the run was unbroken, and is a run of its
      own otherwise. */
  lemma IdleRunGrows(ticks: seq<Facts>, since: int)
    requires ticks != [] && Last(ticks).Blocked()
    requires var earlier := ticks[..|ticks| - 1]; earlier != [] && Last(earlier).Blocked() ==> IdleFrom(earlier, since)
    ensures var earlier := ticks[..|ticks| - 1];
            IdleFrom(ticks, if earlier != [] && Last(earlier).Blocked() && Last(ticks).Idle() then Min(since, Last(ticks).at) else Last(ticks).at)
  {
    var n := |ticks| - 1;
    var earlier := ticks[..n];
    assert IdleSince(ticks, n);
    forall s | 0 <= s < n
      ensures IdleSince(ticks, s) <==> IdleSince(earlier, s) && Last(ticks).Idle()
    {
      assert forall u | s < u < n :: earlier[u] == ticks[u];
    }
    if earlier != [] && Last(earlier).Blocked() && Last(ticks).Idle() {
      var s :| IdleSince(earlier, s) && earlier[s].at == since;
      assert IdleSince(ticks, s);
    } else {
      assert forall s | 0 <= s < n :: IdleSince(earlier, s) ==> earlier[n - 1].Blocked();
    }
  }

  lemma AllowedRunGrows(ticks: seq<Facts>, since: int)
    requires ticks != [] && !Last(ticks).Blocked()
    requires var earlier := ticks[..|ticks| - 1]; earlier != [] && !Last(earlier).Blocked() ==> AllowedFrom(earlier, since)
    ensures var earlier := ticks[..|ticks| - 1];
            AllowedFrom(ticks, if earlier != [] && !Last(earlier).Blocked() then Min(since, Last(ticks).at) else Last(ticks).at)
  {
    var n := |ticks| - 1;
    var earlier := ticks[..n];
    assert AllowedSince(ticks, n);
    forall s | 0 <= s < n
      ensures AllowedSince(ticks, s) <==> AllowedSince(earlier, s)
    {
      assert forall u | s <= u < n :: earlier[u] == ticks[u];
    }
    if earlier != [] && !Last(earlier).Blocked() {
      var s :| AllowedSince(earlier, s) && earlier[s].at == since;
      assert AllowedSince(ticks, s);
    } else {
      assert forall s | 0 <= s < n :: AllowedSince(earlier, s) ==> !earlier[n - 1].Blocked();
    }
  }

  /** The streak start is the earliest clock reading of the evidence now gathered: of the idle blocked run
      while serving, of the allowed run while withdrawn. */
  ghost predicate Earliest(p: Policy, ticks: seq<Facts>) {
    var state := After(p, ticks);
    && state.observed == (ticks != [])
    && (ticks != [] ==> state.streakBlocked == Last(ticks).Blocked())
    && (ticks != [] && !state.yielded && Last(ticks).Blocked() ==> IdleFrom(ticks, state.streakSince))
    && (ticks != [] && state.yielded && !Last(ticks).Blocked() ==> AllowedFrom(ticks, state.streakSince))
  }

  lemma {:induction false} StreakIsEarliest(p: Policy, ticks: seq<Facts>)
    requires p.enabled
    ensures Earliest(p, ticks)
    decreases |ticks|
  {
    if ticks != [] {
      var before := After(p, ticks[..|ticks| - 1]);
      StreakIsEarliest(p, ticks[..|ticks| - 1]);
      if !before.yielded && Last(ticks).Blocked() { IdleRunGrows(ticks, before.streakSince); }
      if before.yielded && !Last(ticks).Blocked() { AllowedRunGrows(ticks, before.streakSince); }
    }
  }

  /** A serving node withdraws exactly on an idle blocked tick that ends an unbroken idle blocked run as
      long as the policy asks, on any clock. */
  lemma WithdrawsExactly(p: Policy, ticks: seq<Facts>)
    requires p.enabled && ticks != []
    ensures LastAction(p, ticks) == Withdraw <==>
            && !After(p, ticks[..|ticks| - 1]).yielded && Last(ticks).Blocked() && Last(ticks).Idle()
            && exists s :: IdleSince(ticks, s) && Last(ticks).at - ticks[s].at >= p.blockedFor
  {
    var before := After(p, ticks[..|ticks| - 1]);
    StreakIsEarliest(p, ticks[..|ticks| - 1]);
    if !before.yielded && Last(ticks).Blocked() && Last(ticks).Idle() {
      IdleRunGrows(ticks, before.streakSince);
      assert IdleFrom(ticks, Streak(before, Last(ticks)).streakSince);
    }
  }

  /** A withdrawn node rejoins exactly at the end of an unbroken allowed run as long as the policy asks. */
  lemma RejoinsExactly(p: Policy, ticks: seq<Facts>)
    requires p.enabled && ticks != []
    ensures LastAction(p, ticks) == Rejoin <==>
            && After(p, ticks[..|ticks| - 1]).yielded
            && exists s :: AllowedSince(ticks, s) && Last(ticks).at - ticks[s].at >= p.healthyFor
  {
    var before := After(p, ticks[..|ticks| - 1]);
    StreakIsEarliest(p, ticks[..|ticks| - 1]);
    if before.yielded && !Last(ticks).Blocked() {
      AllowedRunGrows(ticks, before.streakSince);
      assert AllowedFrom(ticks, Streak(before, Last(ticks)).streakSince);
    }
  }

  predicate Acts(p: Policy, ticks: seq<Facts>, i: nat, action: Action) {
    i < |ticks| && LastAction(p, ticks[..i + 1]) == action
  }

  predicate ClockMovesForward(ticks: seq<Facts>) {
    forall i, j | 0 <= i < j < |ticks| :: ticks[i].at <= ticks[j].at
  }

  /** No flapping: on a clock that does not step back, a rejoin comes at least the healthy bound after any
      withdrawal. */
  lemma RejoinIsEarned(p: Policy, ticks: seq<Facts>, i: nat, j: nat)
    requires p.enabled && ClockMovesForward(ticks) && i < j
    requires Acts(p, ticks, i, Withdraw) && Acts(p, ticks, j, Rejoin)
    ensures ticks[j].at - ticks[i].at >= p.healthyFor
  {
    var first, second := ticks[..i + 1], ticks[..j + 1];
    WithdrawsExactly(p, first);
    RejoinsExactly(p, second);
    var s :| AllowedSince(second, s) && Last(second).at - second[s].at >= p.healthyFor;
    assert second[i] == Last(first);
    assert i < s && second[s] == ticks[s];
  }

  /** And a withdrawal at least the blocked bound after any rejoin. */
  lemma WithdrawalIsEarned(p: Policy, ticks: seq<Facts>, i: nat, j: nat)
    requires p.enabled && ClockMovesForward(ticks) && i < j
    requires Acts(p, ticks, i, Rejoin) && Acts(p, ticks, j, Withdraw)
    ensures ticks[j].at - ticks[i].at >= p.blockedFor
  {
    var first, second := ticks[..i + 1], ticks[..j + 1];
    RejoinsExactly(p, first);
    WithdrawsExactly(p, second);
    var s :| IdleSince(second, s) && Last(second).at - second[s].at >= p.blockedFor;
    var a :| AllowedSince(first, a);
    assert second[i] == first[i];
    assert i < s && second[s] == ticks[s];
  }

  function Count(p: Policy, ticks: seq<Facts>, action: Action): nat {
    if ticks == [] then 0
    else Count(p, ticks[..|ticks| - 1], action) + if LastAction(p, ticks) == action then 1 else 0
  }

  /** Withdrawals and rejoins alternate, a withdrawal first: the counts differ by one exactly while the node
      is withdrawn, under every policy. */
  lemma {:induction false} ActionsAlternate(p: Policy, ticks: seq<Facts>)
    ensures Count(p, ticks, Withdraw) == Count(p, ticks, Rejoin) + if After(p, ticks).yielded then 1 else 0
    ensures !p.enabled ==> !After(p, ticks).yielded
    decreases |ticks|
  {
    if ticks != [] { ActionsAlternate(p, ticks[..|ticks| - 1]); }
  }

  // --- Sessions --------------------------------------------------------------------------------

  /** One binding's source. A session is held while a client exists and has not released it. */
  class Source {
    var closed: bool
    var suspended: bool
    var client: bool
    var released: bool

    predicate HoldsSession()
      reads this
    {
      client && !released
    }

    /** A source that counts as withdrawn holds no session. */
    predicate Valid()
      reads this
    {
      suspended ==> !HoldsSession()
    }

    /** GitHub may refuse the close; then nothing has changed. */
    method Suspend() returns (ok: bool)
      requires Valid()
      modifies this
      ensures Valid() && closed == old(closed) && client == old(client)
      ensures ok && !closed ==> suspended
      ensures closed ==> ok
      ensures closed || !ok ==> unchanged(this)
    {
      if closed || suspended { return true; }
      if client && !released {
        ok := *;
        if !ok { return; }
        released := true;
      }
      suspended := true;
      ok := true;
    }

    /** Opening the session may fail; then the source stays withdrawn. */
    method Resume() returns (ok: bool)
      requires Valid()
      modifies this
      ensures Valid() && closed == old(closed)
      ensures ok && !closed ==> !suspended && (old(suspended) ==> HoldsSession())
      ensures closed ==> ok
      ensures closed || !ok ==> unchanged(this)
    {
      if closed || !suspended { return true; }
      ok := *;
      if !ok { return; }
      client, released, suspended := true, false, false;
    }

    /** Calls whichever direction is wanted, and neither when the source is already there. */
    method Drive(want: bool) returns (ok: bool)
      requires Valid()
      modifies this
      ensures Valid() && closed == old(closed)
      ensures ok && !closed ==> suspended == want
      ensures !ok ==> !closed && suspended == old(suspended) != want
      ensures suspended == old(suspended) || suspended == want
    {
      if suspended == want { return true; }
      if want { ok := Suspend(); } else { ok := Resume(); }
    }
  }

  class YieldController {
    const state: YieldState
    const sources: seq<Source?>
    const excluded: set<Source>

    /** Whether a source is to be withdrawn: the node is, or this binding is excluded. */
    predicate Wanted(yielded: bool, s: Source) { yielded || s in excluded }

    ghost predicate Valid()
      reads this, sources
    {
      forall s: Source | s in sources :: s.Valid()
    }

    constructor (state: YieldState, sources: seq<Source?>, excluded: set<Source>)
      ensures this.state == state && this.sources == sources && this.excluded == excluded
    {
      this.state, this.sources, this.excluded := state, sources, excluded;
    }

    /** No source is listed twice. */
    ghost predicate Distinct() {
      forall i, j | 0 <= i < j < |sources| && sources[i] != null :: sources[i] != sources[j]
    }

    /** Level-triggered: whatever state earlier failures left, an open source ends the tick as the policy
        wants it unless its own call was refused in this very tick, and a refused one is left as it was.
        When no source is listed twice, the open ones not as wanted are exactly the refused ones. */
    method Apply(f: Facts) returns (yielded: bool, failures: nat, ghost refused: set<Source>)
      requires Valid()
      modifies state, sources
      ensures Valid() && yielded == state.yielded
      ensures state.Value() == Next(state.policy, old(state.Value()), f).0
      // A node that has withdrawn holds no session it was not refused to release.
      ensures yielded ==> forall s: Source | s in sources && !s.closed && s !in refused :: s.suspended && !s.HoldsSession()
      // A serving node withholds exactly its excluded bindings.
      ensures !yielded ==> forall s: Source | s in sources && !s.closed && s !in refused :: s.suspended <==> s in excluded
      // When no source is listed twice, a refused one is an open one still in the other state.
      ensures Distinct() ==> forall s: Source | s in refused :: s in sources && !s.closed && s.suspended == !(yielded || s in excluded)
      ensures forall s: Source | s in sources :: s.suspended == old(s.suspended) || s.suspended == (yielded || s in excluded)
      ensures |refused| <= failures && (failures == 0 <==> refused == {})
    {
      var _ := state.Observe(f);
      yielded := state.yielded;
      failures, refused := DriveAll(yielded);
    }

    method DriveAll(yielded: bool) returns (failures: nat, ghost refused: set<Source>)
      requires Valid()
      modifies sources
      ensures Valid()
      ensures forall s: Source | s in sources && !s.closed && s.suspended != Wanted(yielded, s) :: s in refused
      ensures Distinct() ==> forall s: Source | s in refused :: s in sources && !s.closed && s.suspended != Wanted(yielded, s)
      ensures forall s: Source | s in sources :: s.suspended == old(s.suspended) || s.suspended == Wanted(yielded, s)
      ensures |refused| <= failures && (failures == 0 <==> refused == {})
    {
      failures, refused := 0, {};
      for i := 0 to |sources|
        invariant Valid()
        invariant forall s: Source | s in sources[..i] && !s.closed && s.suspended != Wanted(yielded, s) :: s in refused
        invariant forall s: Source | s in refused :: s in sources[..i]
        invariant Distinct() ==> forall s: Source | s in refused :: !s.closed && s.suspended != Wanted(yielded, s)
        invariant forall s: Source | s in sources :: s.suspended == old(s.suspended) || s.suspended == Wanted(yielded, s)
        invariant |refused| <= failures && (failures == 0 <==> refused == {})
      {
        var source := sources[i];
        if source != null {
          var ok := source.Drive(Wanted(yielded, source));
          if !ok { failures, refused := failures + 1, refused + {source}; }
        }
      }
    }
  }
}
