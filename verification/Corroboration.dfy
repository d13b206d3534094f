/**
 Unbroken runs of hostile observations (internal/domain/guestliveness.go, internal/domain/corroboration.go)
 and the two objects that carry them between ticks (internal/app/inventory.go).
 */
module Corroboration {
  import opened Basics

  datatype Signal = Alive | Refused | Inconclusive
  datatype Policy = Policy(refusals: int, window: int)
  {
    predicate Enabled() { refusals > 0 && window > 0 }
  }

  datatype Run = Run(refusals: int, refusedSince: Option<int>, lastAlive: Option<int>, lastProbe: Option<int>)

  const EMPTY := Run(0, None, None, None)

  /** Folds one outcome: an inconclusive one clears the run like a living guest does. */
  function Fold(run: Run, signal: Signal, now: int): Run {
    var next := run.(lastProbe := Some(now));
    match signal
    case Refused => next.(refusals := run.refusals + 1, refusedSince := if run.refusedSince.None? then Some(now) else run.refusedSince)
    case Alive => next.(refusals := 0, refusedSince := None, lastAlive := Some(now))
    case Inconclusive => next.(refusals := 0, refusedSince := None)
  }

  function Silence(run: Run, now: int): Option<int> {
    if run.refusedSince.None? || now < run.refusedSince.value then None else Some(now - run.refusedSince.value)
  }

  predicate Confirmed(p: Policy, run: Run, now: int) {
    && p.Enabled() && run.refusals >= p.refusals
    && Silence(run, now).Some? && Silence(run, now).value >= p.window
  }

  // --- Whole histories -------------------------------------------------------------------------

  /** One tick's readings, in slice order; when an id is repeated the last one counts. */
  datatype Tick = Tick(at: int, readings: seq<(string, Signal)>)

  function Reading(readings: seq<(string, Signal)>, id: string): Option<Signal> {
    if readings == [] then None
    else var (other, signal) := readings[|readings| - 1];
         if other == id then Some(signal) else Reading(readings[..|readings| - 1], id)
  }

  predicate RefusedAt(t: Tick, id: string) { Reading(t.readings, id) == Some(Refused) }
  predicate AliveAt(t: Tick, id: string) { Reading(t.readings, id) == Some(Alive) }
  predicate SeenAt(t: Tick, id: string) { Reading(t.readings, id).Some? }

  /** What the accumulator holds for one id after a history: an absent instance is forgotten. */
  function RunOf(h: seq<Tick>, id: string): Run {
    if h == [] then EMPTY
    else var last := h[|h| - 1];
         match Reading(last.readings, id)
         case None => EMPTY
         case Some(signal) => Fold(RunOf(h[..|h| - 1], id), signal, last.at)
  }

  /** Where the unbroken run of refusals that ends the history begins. */
  function RunStart(h: seq<Tick>, id: string): (s: nat)
    ensures s <= |h|
    ensures forall u | s <= u < |h| :: RefusedAt(h[u], id)
    ensures s > 0 ==> !RefusedAt(h[s - 1], id)
  {
    if h == [] || !RefusedAt(h[|h| - 1], id) then |h|
    else var s := RunStart(h[..|h| - 1], id);
         assert forall u | s <= u < |h| - 1 :: h[u] == h[..|h| - 1][u];
         s
  }

  /** The accumulator is the length and the start of that run, and nothing else about the past or about
      other instances. */
  lemma {:induction false} AccumulatorIsTheRun(h: seq<Tick>, id: string)
    ensures var run, s := RunOf(h, id), RunStart(h, id);
            && run.refusals == |h| - s
            && run.refusedSince == (if s < |h| then Some(h[s].at) else None)
            && run.lastProbe == (if h != [] && SeenAt(h[|h| - 1], id) then Some(h[|h| - 1].at) else None)
  {
    if h != [] { AccumulatorIsTheRun(h[..|h| - 1], id); }
  }

  /** Tick u is the last at which the instance was alive, and it was never absent afterwards. */
  predicate LastAliveTick(h: seq<Tick>, id: string, u: int) {
    0 <= u < |h| && AliveAt(h[u], id) && forall v | u < v < |h| :: SeenAt(h[v], id) && !AliveAt(h[v], id)
  }

  lemma {:induction false} LastAliveIsRemembered(h: seq<Tick>, id: string, u: int)
    ensures LastAliveTick(h, id, u) ==> RunOf(h, id).lastAlive == Some(h[u].at)
    ensures RunOf(h, id).lastAlive.Some? ==> exists w :: LastAliveTick(h, id, w)
  {
    if h != [] {
      var n := |h| - 1;
      LastAliveIsRemembered(h[..n], id, u);
      if LastAliveTick(h, id, u) && u < n {
        assert LastAliveTick(h[..n], id, u) by {
          assert forall v | u < v < n :: h[..n][v] == h[v];
        }
      }
      if AliveAt(h[n], id) {
        assert LastAliveTick(h, id, n);
      } else if SeenAt(h[n], id) && RunOf(h[..n], id).lastAlive.Some? {
        var w :| LastAliveTick(h[..n], id, w);
        assert forall v | w < v < n :: h[..n][v] == h[v];
        assert LastAliveTick(h, id, w);
      }
    }
  }

  /** A verdict needs both bounds of one unbroken run: enough refusals, and enough time since the first. */
  lemma VerdictExactly(p: Policy, h: seq<Tick>, id: string, now: int)
    ensures var s := RunStart(h, id);
            Confirmed(p, RunOf(h, id), now) <==>
            p.Enabled() && |h| - s >= p.refusals && s < |h| && now - h[s].at >= p.window
  {
    AccumulatorIsTheRun(h, id);
  }

  // --- Power ----------------------------------------------------------------------------------

  datatype Power = Running | Stopped | Absent | Unknown
  datatype InstanceState = Draining | Deregistering | Stopping | Other
  datatype Instance = Instance(id: string, state: InstanceState, power: Power, powerRun: Run, powerRetracted: bool)

  const SECOND := 1_000_000_000
  const POWER_CORROBORATION := Policy(3, 45 * SECOND)
  const POWER_RETRACTED_FACTOR := 8

  predicate TearingDown(s: InstanceState) { s.Draining? || s.Deregistering? || s.Stopping? }

  function PowerSignal(power: Power): Signal {
    match power
    case Running => Alive
    case Stopped => Refused
    case _ => Inconclusive
  }

  function PowerBound(retracted: bool): Policy {
    if retracted then POWER_CORROBORATION.(window := POWER_CORROBORATION.window * POWER_RETRACTED_FACTOR)
    else POWER_CORROBORATION
  }

  function CorroboratedPower(power: Power, state: InstanceState, run: Run, retracted: bool, now: int): Power {
    if power != Stopped || TearingDown(state) || Confirmed(PowerBound(retracted), run, now) then power else Unknown
  }

  function Readings(instances: seq<Instance>): seq<(string, Signal)> {
    seq(|instances|, i requires 0 <= i < |instances| => (instances[i].id, PowerSignal(instances[i].power)))
  }

  function RunIn(runs: map<string, Run>, id: string): Run {
    if id in runs then runs[id] else EMPTY
  }

  class PowerCorroborator {
    var runs: map<string, Run>
    ghost var history: seq<Tick>

    ghost predicate Valid()
      reads this
    {
      forall id :: RunIn(runs, id) == RunOf(history, id)
    }

    constructor ()
      ensures Valid() && history == []
    {
      runs := map[];
      history := [];
    }

    /** Folds the raw readings, then rewrites the slice in place with the readings the fleet may act on. */
    method Observe(instances: array<Instance>, now: int)
      requires Valid()
      modifies this, instances
      ensures Valid() && history == old(history) + [Tick(now, Readings(old(instances[..])))]
      ensures forall i | 0 <= i < instances.Length ::
                var was := old(instances[i]);
                var run := Fold(RunOf(old(history), was.id), PowerSignal(was.power), now);
                instances[i] == was.(powerRun := run, power := CorroboratedPower(was.power, was.state, run, was.powerRetracted, now))
    {
      ghost var slice := instances[..];
      ghost var readings := Readings(slice);
      var next: map<string, Run> := map[];
      for i := 0 to instances.Length
        invariant unchanged(this)
        invariant forall j | i <= j < instances.Length :: instances[j] == slice[j]
        invariant forall j | 0 <= j < i ::
                    var run := Fold(RunOf(history, slice[j].id), PowerSignal(slice[j].power), now);
                    instances[j] == slice[j].(powerRun := run,
                      power := CorroboratedPower(slice[j].power, slice[j].state, run, slice[j].powerRetracted, now))
        invariant forall id :: id in next <==> Reading(readings[..i], id).Some?
        invariant forall id | id in next :: next[id] == Fold(RunOf(history, id), Reading(readings[..i], id).value, now)
      {
        var instance := instances[i];
        var run := Fold(RunIn(runs, instance.id), PowerSignal(instance.power), now);
        next := next[instance.id := run];
        instances[i] := instance.(powerRun := run,
          power := CorroboratedPower(instance.power, instance.state, run, instance.powerRetracted, now));
        assert readings[..i + 1] == readings[..i] + [readings[i]];
      }
      assert readings[..instances.Length] == readings;
      ghost var tick := Tick(now, readings);
      assert (history + [tick])[..|history|] == history;
      runs, history := next, history + [tick];
    }
  }

  predicate IdsDiffer(instances: seq<Instance>) {
    forall i, j | 0 <= i < j < |instances| :: instances[i].id != instances[j].id
  }

  lemma {:induction false} OwnReading(instances: seq<Instance>, i: nat, n: nat)
    requires IdsDiffer(instances) && i < n <= |instances|
    ensures Reading(Readings(instances)[..n], instances[i].id) == Some(PowerSignal(instances[i].power))
  {
    var readings := Readings(instances)[..n];
    assert readings[n - 1] == (instances[n - 1].id, PowerSignal(instances[n - 1].power));
    if i < n - 1 {
      assert readings[..n - 1] == Readings(instances)[..n - 1];
      OwnReading(instances, i, n - 1);
    }
  }

  /** A tick counts against an instance exactly when the backend said it was stopped, and for it exactly when
      it was running. */
  lemma ReadingIsThePower(instances: seq<Instance>, i: nat, now: int)
    requires IdsDiffer(instances) && i < |instances|
    ensures var tick, x := Tick(now, Readings(instances)), instances[i];
            && SeenAt(tick, x.id) && (RefusedAt(tick, x.id) <==> x.power == Stopped) && (AliveAt(tick, x.id) <==> x.power == Running)
  {
    assert Readings(instances)[..|instances|] == Readings(instances);
    OwnReading(instances, i, |instances|);
  }

  /** What an instance is reported as: any reading but stopped as it was read, and a stopped one too while the
      instance is torn down. Otherwise stopped exactly when the backend has said so on at least three ticks
      running, the first of them 45 seconds ago, or 360 after a retraction, and unknown until then. */
  lemma StoppedExactly(h: seq<Tick>, instances: seq<Instance>, i: nat, now: int)
    requires IdsDiffer(instances) && i < |instances|
    ensures var x := instances[i];
            var ticks := h + [Tick(now, Readings(instances))];
            var s := RunStart(ticks, x.id);
            var reported := CorroboratedPower(x.power, x.state, Fold(RunOf(h, x.id), PowerSignal(x.power), now), x.powerRetracted, now);
            && (x.power != Stopped || x.state.Draining? || x.state.Deregistering? || x.state.Stopping? ==> reported == x.power)
            && (x.power == Stopped && x.state.Other? ==> reported == Stopped || reported == Unknown)
            && (x.state.Other? ==>
                  (reported == Stopped <==> |ticks| - s >= 3 && now - ticks[s].at >= (if x.powerRetracted then 360 else 45) * SECOND))
  {
    var x := instances[i];
    var last := Tick(now, Readings(instances));
    var ticks := h + [last];
    assert ticks[..|h|] == h && ticks[|h|] == last;
    ReadingIsThePower(instances, i, now);
    assert Reading(last.readings, x.id) == Some(PowerSignal(x.power)) by {
      assert Readings(instances)[..|instances|] == Readings(instances);
      OwnReading(instances, i, |instances|);
    }
    VerdictExactly(PowerBound(x.powerRetracted), ticks, x.id, now);
  }

  // --- Guest probes ----------------------------------------------------------------------------

  /** The ticks that reach the tracker's accumulator: one that names no instance does not. */
  function Probed(h: seq<Tick>): seq<Tick> {
    if h == [] then []
    else if h[|h| - 1].readings == [] then Probed(h[..|h| - 1]) else Probed(h[..|h| - 1]) + [h[|h| - 1]]
  }

  class GuestLivenessTracker {
    const policy: Policy
    var state: map<string, Run>
    ghost var history: seq<Tick>

    ghost predicate Valid()
      reads this
    {
      forall id :: RunIn(state, id) == RunOf(Probed(history), id)
    }

    constructor (policy: Policy)
      ensures Valid() && history == [] && this.policy == policy
    {
      this.policy := policy;
      state := map[];
      history := [];
    }

    /** Folds one outcome per named instance and returns the runs. A disabled tracker, and a tick that
        names none, return nothing and leave every run as it was. */
    method Observe(outcomes: seq<(string, Signal)>, now: int) returns (answer: map<string, Run>)
      requires Valid()
      modifies this
      ensures Valid() && history == if policy.Enabled() then old(history) + [Tick(now, outcomes)] else old(history)
      ensures !policy.Enabled() || outcomes == [] ==> answer == map[] && state == old(state)
      ensures policy.Enabled() && outcomes != [] ==> answer == state && forall id :: id in answer <==> Reading(outcomes, id).Some?
    {
      if !policy.Enabled() { return map[]; }
      ghost var ticks := history + [Tick(now, outcomes)];
      assert ticks[..|history|] == history;
      history := ticks;
      if outcomes == [] { return map[]; }
      answer := map[];
      for i := 0 to |outcomes|
        invariant history == ticks && state == old(state)
        invariant forall id :: id in answer <==> Reading(outcomes[..i], id).Some?
        invariant forall id | id in answer :: answer[id] == Fold(RunIn(state, id), Reading(outcomes[..i], id).value, now)
      {
        var (id, signal) := outcomes[i];
        answer := answer[id := Fold(RunIn(state, id), signal, now)];
        assert outcomes[..i + 1] == outcomes[..i] + [outcomes[i]];
      }
      assert outcomes[..|outcomes|] == outcomes;
      ghost var before := Probed(old(history));
      assert (before + [Tick(now, outcomes)])[..|before|] == before;
      state := answer;
    }
  }

  /** How many refusals the tracker has counted, and how many it would have counted had it forgotten every
      instance a tick did not name. */
  function Counted(h: seq<Tick>, id: string): int { RunOf(Probed(h), id).refusals }
  function Unbroken(h: seq<Tick>, id: string): int { RunOf(h, id).refusals }

  /** The tracker's count along the ticks. */
  function Bridged(h: seq<Tick>, id: string): nat {
    if h == [] then 0
    else if h[|h| - 1].readings == [] then Bridged(h[..|h| - 1], id)
    else if RefusedAt(h[|h| - 1], id) then Bridged(h[..|h| - 1], id) + 1 else 0
  }

  lemma {:induction false} CountsAlong(h: seq<Tick>, id: string)
    ensures Counted(h, id) == Bridged(h, id)
  {
    if h != [] {
      CountsAlong(h[..|h| - 1], id);
      RunGrows(Probed(h[..|h| - 1]), h[|h| - 1], id);
      if h[|h| - 1].readings == [] { assert Reading([], id) == None; }
    }
  }

  lemma RunGrows(h: seq<Tick>, t: Tick, id: string)
    ensures RunOf(h + [t], id).refusals == if RefusedAt(t, id) then RunOf(h, id).refusals + 1 else 0
  {
    var longer := h + [t];
    assert longer[..|h|] == h && longer[|longer| - 1] == t;
  }

  /** Tick s refused, and from there up to tick r nobody was named. */
  predicate Bridges(h: seq<Tick>, id: string, s: int, r: int) {
    0 <= s < r <= |h| && RefusedAt(h[s], id) && forall u | s < u < r :: h[u].readings == []
  }

  /** A count is left standing exactly by a refusal with nothing but unnamed ticks after it. */
  lemma {:induction false} StandingCount(h: seq<Tick>, id: string)
    ensures Bridged(h, id) > 0 <==> exists s :: Bridges(h, id, s, |h|)
  {
    if h != [] {
      var n := |h| - 1;
      var earlier := h[..n];
      StandingCount(earlier, id);
      assert forall u | 0 <= u < n :: earlier[u] == h[u];
      if h[n].readings == [] {
        if s :| Bridges(earlier, id, s, n) { assert Bridges(h, id, s, |h|); }
        if s :| Bridges(h, id, s, |h|) { assert Bridges(earlier, id, s, n); }
      } else if RefusedAt(h[n], id) {
        assert Bridges(h, id, n, |h|);
      } else {
        assert forall s :: Bridges(h, id, s, |h|) ==> s == n || h[n].readings == [];
      }
    }
  }

  /** The tracker's count is the trailing run on top of whatever it had counted before it. */
  lemma {:induction false} CountGoesOn(h: seq<Tick>, id: string)
    ensures Bridged(h, id) == |h| - RunStart(h, id) + Bridged(h[..RunStart(h, id)], id)
  {
    if h == [] || !RefusedAt(h[|h| - 1], id) {
      assert h[..|h|] == h;
    } else {
      var earlier := h[..|h| - 1];
      CountGoesOn(earlier, id);
      assert h[..RunStart(h, id)] == earlier[..RunStart(h, id)];
    }
  }

  /** The tracker counts exactly the unbroken run unless a refusal before that run is separated from it by
      ticks that named nobody at all, and then it counts more. */
  lemma TrackerForgetsExactly(h: seq<Tick>, id: string)
    ensures Unbroken(h, id) <= Counted(h, id)
    ensures Counted(h, id) == Unbroken(h, id) <==> !exists s :: Bridges(h, id, s, RunStart(h, id))
  {
    var r := RunStart(h, id);
    var earlier := h[..r];
    CountsAlong(h, id);
    CountGoesOn(h, id);
    StandingCount(earlier, id);
    AccumulatorIsTheRun(h, id);
    assert forall s :: Bridges(earlier, id, s, r) <==> Bridges(h, id, s, r) by {
      assert forall u | 0 <= u < r :: earlier[u] == h[u];
    }
  }

  /** Two refusals on either side of a tick that names nobody count as two in a row. */
  lemma GapIsBridged(id: string)
    ensures var h := [Tick(0, [(id, Refused)]), Tick(1, []), Tick(2, [(id, Refused)])];
            Counted(h, id) == 2 && Unbroken(h, id) == 1
  {
    var h := [Tick(0, [(id, Refused)]), Tick(1, []), Tick(2, [(id, Refused)])];
    assert h[..2] == [h[0], h[1]] && [h[0], h[1]][..1] == [h[0]] && [h[0]][..0] == [];
    assert Probed([h[0]]) == [h[0]];
    assert Probed([h[0], h[1]]) == [h[0]];
    assert Probed(h) == [h[0], h[2]];
    assert [h[0], h[2]][..1] == [h[0]];
    assert Reading(h[0].readings, id) == Some(Refused) && Reading(h[2].readings, id) == Some(Refused);
    assert RunOf([h[0]], id).refusals == 1;
    assert RunOf([h[0], h[1]], id) == EMPTY;
  }
}
