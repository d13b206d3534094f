/**
 The npm cache's single flight (internal/cachegate/npmcache.go): one upstream fetch per key however
 many requests want it. The two critical sections under the mutex are one step each; the fetch, the
 close of the done channel and a waiter's wake-up are steps of their own, and every interleaving of
 the steps of any number of requests is a run.
 */
module SingleFlight {

  type Key = string

  /** What a fetch leaves behind. A new flight already holds the registry error, which is what its
      waiters find if the fetch never returns. */
  datatype Result = Fetched(value: int) | RegistryError

  datatype Flight = Flight(key: Key, leader: nat, result: Result, closed: bool)

  datatype Answer = Returned(result: Result) | ContextError | Panicked

  datatype Pc =
    | Arrived(key: Key)
    | Fetching(key: Key, flight: nat)
    | Unwinding(key: Key, flight: nat, panicked: bool)   // the fetch is over, the deferred release is not
    | Released(key: Key, flight: nat, panicked: bool)    // out of the map, the done channel still open
    | Waiting(key: Key, flight: nat)
    | Answered(key: Key, flight: nat, answer: Answer)

  /** `flights` is the map under the mutex; `table` holds every flight ever started. */
  datatype State = State(requests: map<nat, Pc>, flights: map<Key, nat>, table: seq<Flight>)

  datatype Step =
    | Arrive(r: nat, key: Key)
    | Enter(r: nat)
    | FetchReturns(r: nat, result: Result)
    | FetchPanics(r: nat)
    | Release(r: nat)
    | Close(r: nat)
    | Wake(r: nat)
    | GiveUp(r: nat)

  predicate Enabled(s: State, step: Step) {
    match step
    case Arrive(r, _) => r !in s.requests
    case Enter(r) => r in s.requests && s.requests[r].Arrived?
    case FetchReturns(r, _) => r in s.requests && s.requests[r].Fetching? && s.requests[r].flight < |s.table|
    case FetchPanics(r) => r in s.requests && s.requests[r].Fetching? && s.requests[r].flight < |s.table|
    case Release(r) => r in s.requests && s.requests[r].Unwinding?
    case Close(r) => r in s.requests && s.requests[r].Released? && s.requests[r].flight < |s.table|
    case Wake(r) => r in s.requests && s.requests[r].Waiting? && s.requests[r].flight < |s.table|
                    && s.table[s.requests[r].flight].closed
    case GiveUp(r) => r in s.requests && s.requests[r].Waiting?
  }

  function Next(s: State, step: Step): State
    requires Enabled(s, step)
  {
    match step
    case Arrive(r, key) => s.(requests := s.requests[r := Arrived(key)])
    case Enter(r) =>
      var key := s.requests[r].key;
      if key in s.flights then
        s.(requests := s.requests[r := Waiting(key, s.flights[key])])
      else
        State(s.requests[r := Fetching(key, |s.table|)], s.flights[key := |s.table|],
              s.table + [Flight(key, r, RegistryError, false)])
    case FetchReturns(r, result) =>
      var Fetching(key, f) := s.requests[r];
      s.(requests := s.requests[r := Unwinding(key, f, false)], table := s.table[f := s.table[f].(result := result)])
    case FetchPanics(r) =>
      var Fetching(key, f) := s.requests[r];
      s.(requests := s.requests[r := Unwinding(key, f, true)])
    case Release(r) =>
      var Unwinding(key, f, panicked) := s.requests[r];
      s.(requests := s.requests[r := Released(key, f, panicked)], flights := s.flights - {key})
    case Close(r) =>
      var Released(key, f, panicked) := s.requests[r];
      s.(requests := s.requests[r := Answered(key, f, if panicked then Panicked else Returned(s.table[f].result))],
         table := s.table[f := s.table[f].(closed := true)])
    case Wake(r) =>
      var Waiting(key, f) := s.requests[r];
      s.(requests := s.requests[r := Answered(key, f, Returned(s.table[f].result))])
    case GiveUp(r) =>
      var Waiting(key, f) := s.requests[r];
      s.(requests := s.requests[r := Answered(key, f, ContextError)])
  }

  const EMPTY := State(map[], map[], [])

  ghost predicate Runs(steps: seq<Step>)
    decreases |steps|, 0
  {
    steps == [] || (Runs(steps[..|steps| - 1]) && Enabled(After(steps[..|steps| - 1]), steps[|steps| - 1]))
  }

  ghost function After(steps: seq<Step>): State
    requires Runs(steps)
    decreases |steps|, 1
  {
    if steps == [] then EMPTY else Next(After(steps[..|steps| - 1]), steps[|steps| - 1])
  }

  // --- The invariant -------------------------------------------------------------------------

  /** A request that leads a flight and has not yet left the map. */
  predicate Holds(pc: Pc) { pc.Fetching? || pc.Unwinding? }

  /** What one request's counter says about its flight. */
  ghost predicate RequestOk(s: State, r: nat, pc: Pc) {
    match pc
    case Arrived(_) => true
    case Fetching(key, f) =>
      && f < |s.table| && s.table[f] == Flight(key, r, RegistryError, false)
      && key in s.flights && s.flights[key] == f
    case Unwinding(key, f, panicked) =>
      && f < |s.table| && s.table[f].key == key && s.table[f].leader == r && !s.table[f].closed
      && key in s.flights && s.flights[key] == f
      && (panicked ==> s.table[f].result == RegistryError)
    case Released(key, f, panicked) =>
      && f < |s.table| && s.table[f].key == key && s.table[f].leader == r && !s.table[f].closed
      && (panicked ==> s.table[f].result == RegistryError)
    case Waiting(key, f) => f < |s.table| && s.table[f].key == key
    case Answered(key, f, answer) =>
      && f < |s.table| && s.table[f].key == key
      && (answer.Returned? ==> s.table[f].closed && answer.result == s.table[f].result)
      && (answer.Panicked? ==> s.table[f].closed && s.table[f].result == RegistryError)
  }

  /** Every flight has its leader: still on the way to closing it, or done. */
  ghost predicate FlightOk(s: State, f: nat)
    requires f < |s.table|
  {
    var flight := s.table[f];
    && flight.leader in s.requests
    && var pc := s.requests[flight.leader];
    && !pc.Arrived? && !pc.Waiting? && pc.flight == f && pc.key == flight.key
    && (flight.closed <==> pc.Answered?)
  }

  ghost predicate KeyOk(s: State, key: Key)
    requires key in s.flights
  {
    && s.flights[key] < |s.table|
    && var flight := s.table[s.flights[key]];
    && flight.key == key && flight.leader in s.requests && Holds(s.requests[flight.leader])
    && s.requests[flight.leader].flight == s.flights[key]
  }

  ghost predicate Inv(s: State) {
    && (forall r | r in s.requests :: RequestOk(s, r, s.requests[r]))
    && (forall f | 0 <= f < |s.table| :: FlightOk(s, f))
    && (forall key | key in s.flights :: KeyOk(s, key))
  }

  lemma StepKeepsRequest(s: State, step: Step, r: nat)
    requires Inv(s) && Enabled(s, step) && r in Next(s, step).requests
    ensures RequestOk(Next(s, step), r, Next(s, step).requests[r])
  {
    if r in s.requests { assert RequestOk(s, r, s.requests[r]); }
    if step.r in s.requests { assert RequestOk(s, step.r, s.requests[step.r]); }
  }

  lemma StepKeepsFlight(s: State, step: Step, f: nat)
    requires Inv(s) && Enabled(s, step) && f < |Next(s, step).table|
    ensures FlightOk(Next(s, step), f)
  {
    if f < |s.table| { assert FlightOk(s, f); }
    if step.r in s.requests { assert RequestOk(s, step.r, s.requests[step.r]); }
  }

  lemma StepKeepsKey(s: State, step: Step, key: Key)
    requires Inv(s) && Enabled(s, step) && key in Next(s, step).flights
    ensures KeyOk(Next(s, step), key)
  {
    if key in s.flights { assert KeyOk(s, key); }
    if step.r in s.requests { assert RequestOk(s, step.r, s.requests[step.r]); }
  }

  lemma StepKeepsInv(s: State, step: Step)
    requires Inv(s) && Enabled(s, step)
    ensures Inv(Next(s, step))
  {
    forall r | r in Next(s, step).requests { StepKeepsRequest(s, step, r); }
    forall f | 0 <= f < |Next(s, step).table| { StepKeepsFlight(s, step, f); }
    forall key | key in Next(s, step).flights { StepKeepsKey(s, step, key); }
  }

  lemma {:induction false} Reachable(steps: seq<Step>)
    requires Runs(steps)
    ensures Inv(After(steps))
  {
    if steps != [] {
      Reachable(steps[..|steps| - 1]);
      StepKeepsInv(After(steps[..|steps| - 1]), steps[|steps| - 1]);
    }
  }

  // --- What it is for ------------------------------------------------------------------------

  /** At most one upstream fetch per key is ever active. */
  lemma OneFetchPerKey(steps: seq<Step>, r: nat, q: nat)
    requires Runs(steps)
    requires var s := After(steps);
             && r in s.requests && s.requests[r].Fetching? && q in s.requests && s.requests[q].Fetching?
             && s.requests[r].key == s.requests[q].key
    ensures r == q
  {
    Reachable(steps);
    var s := After(steps);
    assert RequestOk(s, r, s.requests[r]) && RequestOk(s, q, s.requests[q]);
  }

  /** A key is in the map exactly while a leader of it has not released it, and that leader is unique. */
  lemma KeyHeldByLeader(steps: seq<Step>, key: Key)
    requires Runs(steps)
    ensures var s := After(steps);
            && (key in s.flights <==> exists r :: r in s.requests && Holds(s.requests[r]) && s.requests[r].key == key)
            && (forall r, q | r in s.requests && q in s.requests && Holds(s.requests[r]) && Holds(s.requests[q])
                              && s.requests[r].key == s.requests[q].key == key :: r == q)
  {
    Reachable(steps);
    var s := After(steps);
    if key in s.flights { assert KeyOk(s, key); }
    forall r | r in s.requests
      ensures RequestOk(s, r, s.requests[r])
    {
    }
  }

  /** The result of a flight is settled once its leader has stopped fetching. */
  ghost predicate Settled(s: State, f: nat) {
    f < |s.table| && s.table[f].leader in s.requests && !s.requests[s.table[f].leader].Fetching?
  }

  lemma SettledForGood(s: State, step: Step, f: nat)
    requires Inv(s) && Enabled(s, step) && Settled(s, f)
    ensures Settled(Next(s, step), f) && Next(s, step).table[f].result == s.table[f].result
  {
    assert FlightOk(s, f);
    if step.r in s.requests { assert RequestOk(s, step.r, s.requests[step.r]); }
  }

  /** A request that joined a flight answers with its own context error or with that flight's result,
      which is settled by then: what the fetch returned, or the registry error if it panicked. A
      leader that panicked has closed its flight with the registry error. */
  lemma AnswersComeFromTheFlight(steps: seq<Step>, r: nat)
    requires Runs(steps)
    requires r in After(steps).requests && After(steps).requests[r].Answered?
    ensures var s := After(steps);
            var Answered(key, f, answer) := s.requests[r];
            && f < |s.table| && s.table[f].key == key
            && (answer.Returned? ==> s.table[f].closed && Settled(s, f) && answer.result == s.table[f].result)
            && (answer.Panicked? ==> s.table[f].closed && Settled(s, f) && s.table[f].result == RegistryError)
  {
    Reachable(steps);
    var s := After(steps);
    assert RequestOk(s, r, s.requests[r]);
    assert FlightOk(s, s.requests[r].flight);
  }

  /** The steps in which a request's fetch ends, in the order of the run. */
  function Endings(steps: seq<Step>, r: nat): seq<Step> {
    if steps == [] then []
    else
      var last := steps[|steps| - 1];
      Endings(steps[..|steps| - 1], r) + if (last.FetchReturns? || last.FetchPanics?) && last.r == r then [last] else []
  }

  /** What has become of one request, told by the fetches it has ended. */
  ghost predicate EndedOk(s: State, r: nat, endings: seq<Step>) {
    if r !in s.requests then endings == []
    else
      match s.requests[r]
      case Unwinding(_, f, panicked) => f < |s.table| && endings == [if panicked then FetchPanics(r) else FetchReturns(r, s.table[f].result)]
      case Released(_, f, panicked) => f < |s.table| && endings == [if panicked then FetchPanics(r) else FetchReturns(r, s.table[f].result)]
      case Answered(_, f, answer) =>
        && f < |s.table|
        && endings == (if s.table[f].leader != r then [] else [if answer.Panicked? then FetchPanics(r) else FetchReturns(r, s.table[f].result)])
        && (answer.Panicked? ==> s.table[f].leader == r)
      case _ => endings == []
  }

  lemma OthersKeepEnded(s: State, step: Step, r: nat, endings: seq<Step>)
    requires Inv(s) && Enabled(s, step) && EndedOk(s, r, endings) && step.r != r
    ensures EndedOk(Next(s, step), r, endings)
  {
    if r in s.requests { assert RequestOk(s, r, s.requests[r]); }
    if step.r in s.requests { assert RequestOk(s, step.r, s.requests[step.r]); }
  }

  lemma FetchEnds(s: State, step: Step, endings: seq<Step>)
    requires Inv(s) && Enabled(s, step) && EndedOk(s, step.r, endings) && (step.FetchReturns? || step.FetchPanics?)
    ensures EndedOk(Next(s, step), step.r, endings + [step])
  {
    assert RequestOk(s, step.r, s.requests[step.r]);
  }

  lemma OwnStepKeepsEnded(s: State, step: Step, endings: seq<Step>)
    requires Inv(s) && Enabled(s, step) && EndedOk(s, step.r, endings) && !step.FetchReturns? && !step.FetchPanics?
    ensures EndedOk(Next(s, step), step.r, endings)
  {
    if step.r in s.requests {
      assert RequestOk(s, step.r, s.requests[step.r]);
      if step.Wake? || step.GiveUp? { assert FlightOk(s, s.requests[step.r].flight); }
    }
  }

  lemma StepKeepsEnded(s: State, step: Step, r: nat, endings: seq<Step>)
    requires Inv(s) && Enabled(s, step) && EndedOk(s, r, endings)
    ensures EndedOk(Next(s, step), r, endings + if (step.FetchReturns? || step.FetchPanics?) && step.r == r then [step] else [])
  {
    assert endings + [] == endings;
    if step.r != r {
      OthersKeepEnded(s, step, r, endings);
    } else if step.FetchReturns? || step.FetchPanics? {
      FetchEnds(s, step, endings);
    } else {
      OwnStepKeepsEnded(s, step, endings);
    }
  }

  lemma {:induction false} FetchEndsOnce(steps: seq<Step>, r: nat)
    requires Runs(steps)
    ensures EndedOk(After(steps), r, Endings(steps, r))
  {
    if steps != [] {
      var earlier := steps[..|steps| - 1];
      FetchEndsOnce(earlier, r);
      Reachable(earlier);
      StepKeepsEnded(After(earlier), steps[|steps| - 1], r, Endings(earlier, r));
    }
  }

  /** What a request returns is what the one fetch of its flight's leader returned in this run, or the
      registry error if that fetch panicked; and only the leader of such a fetch panics itself. */
  lemma AnswersComeFromTheFetch(steps: seq<Step>, r: nat)
    requires Runs(steps)
    requires r in After(steps).requests && After(steps).requests[r].Answered?
    ensures var s := After(steps);
            var Answered(key, f, answer) := s.requests[r];
            && f < |s.table| && s.table[f].key == key
            && var leader := s.table[f].leader;
            && (answer.Returned? ==>
                  || Endings(steps, leader) == [FetchReturns(leader, answer.result)]
                  || (Endings(steps, leader) == [FetchPanics(leader)] && leader != r && answer.result == RegistryError))
            && (answer.Panicked? ==> leader == r && Endings(steps, r) == [FetchPanics(r)])
  {
    var s := After(steps);
    var f := s.requests[r].flight;
    AnswersComeFromTheFlight(steps, r);
    Reachable(steps);
    assert FlightOk(s, f);
    var leader := s.table[f].leader;
    FetchEndsOnce(steps, r);
    FetchEndsOnce(steps, leader);
    assert RequestOk(s, leader, s.requests[leader]);
  }

  /** No waiter is stranded: it can wake, or its leader has a step left that leads to the close. */
  lemma WaiterIsNotStranded(steps: seq<Step>, r: nat)
    requires Runs(steps)
    requires r in After(steps).requests && After(steps).requests[r].Waiting?
    ensures var s := After(steps);
            var f := s.requests[r].flight;
            || Enabled(s, Wake(r))
            || (f < |s.table| && (Enabled(s, FetchReturns(s.table[f].leader, RegistryError)) || Enabled(s, Release(s.table[f].leader))
                                  || Enabled(s, Close(s.table[f].leader))))
  {
    Reachable(steps);
    var s := After(steps);
    assert RequestOk(s, r, s.requests[r]);
    assert FlightOk(s, s.requests[r].flight);
  }

  /** How many of its own steps a leader still has before its flight is closed. */
  function ToClose(pc: Pc): nat {
    match pc
    case Fetching(_, _) => 3
    case Unwinding(_, _, _) => 2
    case Released(_, _, _) => 1
    case _ => 0
  }

  function StepsOf(steps: seq<Step>, r: nat): nat {
    if steps == [] then 0 else StepsOf(steps[..|steps| - 1], r) + if steps[|steps| - 1].r == r then 1 else 0
  }

  /** Whatever all the other requests do meanwhile, a leader closes its flight with its third step from any
      moment at the latest: its steps are counted down to the close, and it takes none after it. */
  lemma {:induction false} LeaderClosesWithinThree(steps: seq<Step>, more: seq<Step>, f: nat)
    requires Runs(steps) && Runs(steps + more) && f < |After(steps).table|
    ensures var s, t, leader := After(steps), After(steps + more), After(steps).table[f].leader;
            && f < |t.table| && t.table[f].leader == leader && leader in s.requests && leader in t.requests
            && StepsOf(more, leader) + ToClose(t.requests[leader]) == ToClose(s.requests[leader]) <= 3
            && (t.table[f].closed <==> ToClose(t.requests[leader]) == 0)
    decreases |more|
  {
    Reachable(steps);
    Reachable(steps + more);
    var s := After(steps);
    assert FlightOk(s, f);
    if more == [] {
      assert steps + more == steps;
    } else {
      var rest, last := more[..|more| - 1], more[|more| - 1];
      assert (steps + more)[..|steps + more| - 1] == steps + rest && (steps + more)[|steps + more| - 1] == last;
      LeaderClosesWithinThree(steps, rest, f);
      Reachable(steps + rest);
      LeaderCountsDown(After(steps + rest), last, f);
      assert FlightOk(After(steps + more), f);
    }
  }

  lemma LeaderCountsDown(s: State, step: Step, f: nat)
    requires Inv(s) && Enabled(s, step) && f < |s.table| && s.table[f].leader in s.requests
    ensures var leader, t := s.table[f].leader, Next(s, step);
            && f < |t.table| && t.table[f].leader == leader && leader in t.requests
            && ToClose(s.requests[leader]) == ToClose(t.requests[leader]) + if step.r == leader then 1 else 0
  {
    assert FlightOk(s, f);
    if step.r in s.requests { assert RequestOk(s, step.r, s.requests[step.r]); }
  }
}
