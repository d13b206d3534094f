/**
 Which queued demand one tick plans (internal/app/tick.go): what no live instance incarnates and no
 empty-exit hold withholds, and only the oldest of it for a binding without statistics.
 */
module TickPlanning {
  import opened Basics
  import DemandQueue
  import EmptyExit

  type Key = DemandQueue.Key
  type Platform = DemandQueue.Platform
  datatype Demand = Demand(key: Key, createdAt: int, platform: Platform)

  datatype InstanceState = Live | Failed | Deleted

  /** An instance that carries no scheduling metadata names no demand. */
  datatype Instance = Instance(demand: Option<Key>, state: InstanceState)
  {
    predicate Incarnates(key: Key) { demand == Some(key) && state == Live }
  }

  /** What one binding's queue answered: with statistics, without, or not at all. */
  datatype Queue = Fresh(demands: seq<Demand>) | Degraded(demands: seq<Demand>) | Unreadable

  /** The durable record of empty exits, per demand and image generation, and the image of each platform. */
  datatype ExitRecord = ExitRecord(exits: map<(Key, string), EmptyExit.Exits>, images: map<Platform, string>)
  {
    function Of(d: Demand): EmptyExit.Exits {
      var image := if d.platform in images then images[d.platform] else "";
      if (d.key, image) in exits then exits[(d.key, image)] else EmptyExit.Exits(0, None)
    }
  }

  predicate HeldBy(record: ExitRecord, now: int, d: Demand) {
    EmptyExit.Holds(EmptyExit.BACKOFF, record.Of(d), now)
  }

  /** Drops every withheld demand and keeps the rest in order. */
  function Plannable(queued: seq<Demand>, withheld: set<Key>): (r: seq<Demand>)
    ensures forall d :: d in r <==> d in queued && d.key !in withheld
  {
    if queued == [] then []
    else if queued[0].key in withheld then Plannable(queued[1..], withheld)
    else [queued[0]] + Plannable(queued[1..], withheld)
  }

  /** A binding that has lost its statistics admits one demand, the first, so that a spawned runner can
      bring new ones. */
  function Trickle(plannable: seq<Demand>): seq<Demand> {
    if plannable == [] then [] else [plannable[0]]
  }

  /** The keys of a queue that wait out a hold. */
  function HeldKeys(record: ExitRecord, now: int, queued: seq<Demand>): set<Key> {
    set d | d in queued && HeldBy(record, now, d) :: d.key
  }

  function IncarnatedKeys(instances: seq<Instance>): set<Key> {
    set i | i in instances && i.demand.Some? && i.state == Live :: i.demand.value
  }

  function DemandsOf(q: Queue): seq<Demand> { if q.Unreadable? then [] else q.demands }

  /** What is withheld when the i-th binding is planned: what instances incarnate, and what this binding
      and the ones before it hold. A hold found by a later binding comes too late. */
  function WithheldAt(instances: seq<Instance>, queues: seq<Queue>, record: ExitRecord, now: int, i: nat): set<Key>
    requires i < |queues|
  {
    HeldKeys(record, now, DemandsOf(queues[i]))
    + if i == 0 then IncarnatedKeys(instances) else WithheldAt(instances, queues, record, now, i - 1)
  }

  function PlannedAt(instances: seq<Instance>, queues: seq<Queue>, record: ExitRecord, now: int, i: nat): seq<Demand>
    requires i < |queues|
  {
    var plannable := Plannable(DemandsOf(queues[i]), WithheldAt(instances, queues, record, now, i));
    if queues[i].Degraded? then Trickle(plannable) else plannable
  }

  /** The binding loop of a tick: one unreadable queue or queue summary fails the tick, and otherwise every
      binding plans its own share. */
  method PlanTick(instances: seq<Instance>, queues: seq<Queue>, summarised: seq<bool>, record: ExitRecord, now: int)
    returns (planned: Option<seq<seq<Demand>>>)
    requires |summarised| == |queues|
    ensures planned.None? <==> Unreadable in queues || false in summarised
    ensures planned.Some? ==>
              && |planned.value| == |queues|
              && forall i | 0 <= i < |queues| :: planned.value[i] == PlannedAt(instances, queues, record, now, i)
  {
    var withheld: set<Key> := {};
    for k := 0 to |instances|
      invariant withheld == IncarnatedKeys(instances[..k])
    {
      assert instances[..k + 1] == instances[..k] + [instances[k]];
      if instances[k].demand.Some? && instances[k].state == Live { withheld := withheld + {instances[k].demand.value}; }
    }
    assert instances[..|instances|] == instances;
    var plans: seq<seq<Demand>> := [];
    for i := 0 to |queues|
      invariant Unreadable !in queues[..i] && false !in summarised[..i] && |plans| == i
      invariant withheld == if i == 0 then IncarnatedKeys(instances) else WithheldAt(instances, queues, record, now, i - 1)
      invariant forall j | 0 <= j < i :: plans[j] == PlannedAt(instances, queues, record, now, j)
    {
      assert queues[..i + 1] == queues[..i] + [queues[i]];
      if queues[i].Unreadable? { return None; }
      var held := HeldNow(record, now, queues[i].demands);
      withheld := withheld + held;
      var schedulable := Plannable(queues[i].demands, withheld);
      if queues[i].Degraded? { schedulable := Trickle(schedulable); }
      plans := plans + [schedulable];
      assert summarised[..i + 1] == summarised[..i] + [summarised[i]];
      if !summarised[i] { return None; }
    }
    assert queues[..|queues|] == queues && summarised[..|queues|] == summarised;
    planned := Some(plans);
  }

  method HeldNow(record: ExitRecord, now: int, queued: seq<Demand>) returns (held: set<Key>)
    ensures held == HeldKeys(record, now, queued)
  {
    held := {};
    for k := 0 to |queued|
      invariant held == HeldKeys(record, now, queued[..k])
    {
      assert queued[..k + 1] == queued[..k] + [queued[k]];
      var spent := record.Of(queued[k]);
      // An exit dated ahead of the clock is not judged at all.
      if EmptyExit.Exceeded(EmptyExit.BACKOFF, spent) && spent.last.value <= now {
        if EmptyExit.Holds(EmptyExit.BACKOFF, spent, now) { held := held + {queued[k].key}; }
      }
    }
    assert queued[..|queued|] == queued;
  }

  // --- What is promised of a tick ------------------------------------------------------------

  /** No planned demand is incarnated by a live instance, nor held by its own binding or an earlier one,
      nor one the binding does not queue. */
  lemma {:induction false} PlannedIsFree(instances: seq<Instance>, queues: seq<Queue>, record: ExitRecord, now: int, i: nat, d: Demand)
    requires i < |queues| && d in PlannedAt(instances, queues, record, now, i)
    ensures d in DemandsOf(queues[i])
    ensures forall x | x in instances :: !x.Incarnates(d.key)
    ensures forall j, e | 0 <= j <= i && e in DemandsOf(queues[j]) && e.key == d.key :: !HeldBy(record, now, e)
  {
    var withheld := WithheldAt(instances, queues, record, now, i);
    WithheldCovers(instances, queues, record, now, i);
    assert d.key !in withheld;
    forall j, e | 0 <= j <= i && e in DemandsOf(queues[j]) && e.key == d.key
      ensures !HeldBy(record, now, e)
    {
      assert HeldKeys(record, now, DemandsOf(queues[j])) <= withheld;
    }
    forall x | x in instances
      ensures !x.Incarnates(d.key)
    {
      assert x.Incarnates(d.key) ==> d.key in IncarnatedKeys(instances);
    }
  }

  lemma {:induction false} WithheldCovers(instances: seq<Instance>, queues: seq<Queue>, record: ExitRecord, now: int, i: nat)
    requires i < |queues|
    ensures IncarnatedKeys(instances) <= WithheldAt(instances, queues, record, now, i)
    ensures forall j | 0 <= j <= i :: HeldKeys(record, now, DemandsOf(queues[j])) <= WithheldAt(instances, queues, record, now, i)
  {
    if i > 0 { WithheldCovers(instances, queues, record, now, i - 1); }
  }

  /** Nothing else is withheld: a demand a binding with statistics queues and does not plan is incarnated,
      or held by that binding or an earlier one. */
  lemma {:induction false} WithheldForAReason(instances: seq<Instance>, queues: seq<Queue>, record: ExitRecord, now: int, i: nat, key: Key)
    requires i < |queues| && key in WithheldAt(instances, queues, record, now, i)
    ensures || (exists x :: x in instances && x.Incarnates(key))
            || (exists j, e :: 0 <= j <= i && e in DemandsOf(queues[j]) && e.key == key && HeldBy(record, now, e))
  {
    if key in HeldKeys(record, now, DemandsOf(queues[i])) {
      var e :| e in DemandsOf(queues[i]) && HeldBy(record, now, e) && e.key == key;
    } else if i > 0 {
      WithheldForAReason(instances, queues, record, now, i - 1, key);
    } else {
      var x :| x in instances && x.demand.Some? && x.state == Live && x.demand.value == key;
      assert x.Incarnates(key);
    }
  }

  ghost predicate OldestFirst(s: seq<Demand>) {
    forall m, n | 0 <= m < n < |s| :: s[m].createdAt <= s[n].createdAt
  }

  /** A binding without statistics plans exactly one demand, the oldest it could plan, if it has any. */
  lemma OldestTricklesThrough(instances: seq<Instance>, queues: seq<Queue>, record: ExitRecord, now: int, i: nat)
    requires i < |queues| && queues[i].Degraded?
    requires OldestFirst(queues[i].demands)
    ensures var free := Plannable(DemandsOf(queues[i]), WithheldAt(instances, queues, record, now, i));
            var planned := PlannedAt(instances, queues, record, now, i);
            && |planned| == (if free == [] then 0 else 1)
            && forall p, d | p in planned && d in free :: p in free && p.createdAt <= d.createdAt
  {
    PlannableStaysSorted(queues[i].demands, WithheldAt(instances, queues, record, now, i));
  }

  lemma {:induction false} PlannableStaysSorted(queued: seq<Demand>, withheld: set<Key>)
    requires OldestFirst(queued)
    ensures OldestFirst(Plannable(queued, withheld))
  {
    if queued != [] {
      PlannableStaysSorted(queued[1..], withheld);
      var rest := Plannable(queued[1..], withheld);
      forall n | 0 <= n < |rest|
        ensures queued[0].createdAt <= rest[n].createdAt
      {
        assert rest[n] in queued[1..];
      }
      assert OldestFirst([queued[0]] + rest);
    }
  }

  /** Binding i plans d while binding j holds e, the same demand. */
  ghost predicate PlannedWhileHeld(instances: seq<Instance>, queues: seq<Queue>, record: ExitRecord, now: int,
                                   i: nat, d: Demand, j: nat, e: Demand)
  {
    && i < |queues| && d in PlannedAt(instances, queues, record, now, i)
    && j < |queues| && e in DemandsOf(queues[j]) && e.key == d.key && HeldBy(record, now, e)
  }

  /** No live instance incarnates the demand, and no queue up to the i-th holds it. */
  ghost predicate Free(instances: seq<Instance>, queues: seq<Queue>, record: ExitRecord, now: int, i: nat, key: Key)
    requires i < |queues|
  {
    && (forall x | x in instances :: !x.Incarnates(key))
    && (forall k, f | 0 <= k <= i && f in DemandsOf(queues[k]) && f.key == key :: !HeldBy(record, now, f))
  }

  /** Demand d is free in binding i and a later binding holds e, the same demand. A binding that lost its
      statistics has nothing free in front of d. */
  ghost predicate HeldTooLate(instances: seq<Instance>, queues: seq<Queue>, record: ExitRecord, now: int,
                              i: nat, d: Demand, j: nat, e: Demand)
  {
    && i < j < |queues| && d in DemandsOf(queues[i]) && Free(instances, queues, record, now, i, d.key)
    && e in DemandsOf(queues[j]) && e.key == d.key && HeldBy(record, now, e)
    && (queues[i].Degraded? ==>
          exists m :: 0 <= m < |queues[i].demands| && queues[i].demands[m] == d
            && forall l | 0 <= l < m :: !Free(instances, queues, record, now, i, queues[i].demands[l].key))
  }

  lemma FreeIsNotWithheld(instances: seq<Instance>, queues: seq<Queue>, record: ExitRecord, now: int, i: nat, key: Key)
    requires i < |queues|
    ensures Free(instances, queues, record, now, i, key) <==> key !in WithheldAt(instances, queues, record, now, i)
  {
    WithheldCovers(instances, queues, record, now, i);
    if key in WithheldAt(instances, queues, record, now, i) {
      WithheldForAReason(instances, queues, record, now, i, key);
    } else {
      NotWithheldIsFree(instances, queues, record, now, i, key);
    }
  }

  lemma NotWithheldIsFree(instances: seq<Instance>, queues: seq<Queue>, record: ExitRecord, now: int, i: nat, key: Key)
    requires i < |queues| && key !in WithheldAt(instances, queues, record, now, i)
    ensures Free(instances, queues, record, now, i, key)
  {
    var withheld := WithheldAt(instances, queues, record, now, i);
    WithheldCovers(instances, queues, record, now, i);
    forall k, f | 0 <= k <= i && f in DemandsOf(queues[k]) && f.key == key
      ensures !HeldBy(record, now, f)
    {
      assert HeldKeys(record, now, DemandsOf(queues[k])) <= withheld;
    }
    forall x | x in instances
      ensures !x.Incarnates(key)
    {
      assert x.Incarnates(key) ==> key in IncarnatedKeys(instances);
    }
  }

  /** What trickles is the first demand that is not withheld. */
  lemma {:induction false} TrickleIsFirst(queued: seq<Demand>, withheld: set<Key>, d: Demand)
    ensures d in Trickle(Plannable(queued, withheld)) <==>
            d.key !in withheld && exists m :: 0 <= m < |queued| && queued[m] == d && forall l | 0 <= l < m :: queued[l].key in withheld
  {
    if queued != [] {
      var rest := queued[1..];
      if queued[0].key in withheld {
        TrickleIsFirst(rest, withheld, d);
        if m :| 0 <= m < |rest| && rest[m] == d && forall l | 0 <= l < m :: rest[l].key in withheld {
          assert queued[m + 1] == d && forall l | 0 <= l < m + 1 :: l == 0 || queued[l] == rest[l - 1];
        }
        if d.key !in withheld {
          if m :| 0 <= m < |queued| && queued[m] == d && forall l | 0 <= l < m :: queued[l].key in withheld {
            assert rest[m - 1] == d && forall l | 0 <= l < m - 1 :: rest[l] == queued[l + 1];
          }
        }
      } else if d == queued[0] {
        assert queued[0] == d;
      }
    }
  }

  /** A key is queued for one platform only. */
  ghost predicate OnePlatformPerDemand(queues: seq<Queue>) {
    forall i, j, d, e | 0 <= i < |queues| && 0 <= j < |queues| && d in DemandsOf(queues[i]) && e in DemandsOf(queues[j])
                        && d.key == e.key :: d.platform == e.platform
  }

  /** One platform per demand is enough for no binding at all to hold what some binding plans. */
  lemma OneImageIsEnough(instances: seq<Instance>, queues: seq<Queue>, record: ExitRecord, now: int,
                         i: nat, d: Demand, j: nat, e: Demand)
    requires OnePlatformPerDemand(queues)
    ensures !PlannedWhileHeld(instances, queues, record, now, i, d, j, e)
  {
    if i < |queues| && d in PlannedAt(instances, queues, record, now, i) && j < |queues| && e in DemandsOf(queues[j]) && e.key == d.key {
      PlannedIsFree(instances, queues, record, now, i, d);
      assert record.Of(d) == record.Of(e);
    }
  }

  /** Without it, a demand is planned while held exactly when a later binding holds what an earlier one
      left free. */
  lemma LateHoldIsMissed(instances: seq<Instance>, queues: seq<Queue>, record: ExitRecord, now: int,
                         i: nat, d: Demand, j: nat, e: Demand)
    ensures PlannedWhileHeld(instances, queues, record, now, i, d, j, e)
       <==> HeldTooLate(instances, queues, record, now, i, d, j, e)
  {
    if i < |queues| {
      PlannedExactly(instances, queues, record, now, i, d);
      if d in PlannedAt(instances, queues, record, now, i) { PlannedIsFree(instances, queues, record, now, i, d); }
    }
  }

  /** What a binding plans, on the inputs of the tick: its free demands, and only the first of them if it has
      lost its statistics. */
  lemma PlannedExactly(instances: seq<Instance>, queues: seq<Queue>, record: ExitRecord, now: int, i: nat, d: Demand)
    requires i < |queues|
    ensures d in PlannedAt(instances, queues, record, now, i) <==>
            && d in DemandsOf(queues[i]) && Free(instances, queues, record, now, i, d.key)
            && (queues[i].Degraded? ==>
                  exists m :: 0 <= m < |queues[i].demands| && queues[i].demands[m] == d
                    && forall l | 0 <= l < m :: !Free(instances, queues, record, now, i, queues[i].demands[l].key))
  {
    var withheld := WithheldAt(instances, queues, record, now, i);
    FreeIsNotWithheld(instances, queues, record, now, i, d.key);
    if queues[i].Degraded? {
      var queued := queues[i].demands;
      TrickleIsFirst(queued, withheld, d);
      forall l | 0 <= l < |queued|
        ensures Free(instances, queues, record, now, i, queued[l].key) <==> queued[l].key !in withheld
      {
        FreeIsNotWithheld(instances, queues, record, now, i, queued[l].key);
      }
    }
  }

  /** Dropping what is withheld leaves every other place of the queue once, and in order. */
  lemma {:induction false} PlannableKeepsPlaces(queued: seq<Demand>, withheld: set<Key>) returns (places: seq<nat>)
    ensures Picks(places, queued, Plannable(queued, withheld))
    ensures forall m: nat | m < |queued| :: m in places <==> queued[m].key !in withheld
  {
    places := [];
    if queued != [] {
      var rest := PlannableKeepsPlaces(queued[1..], withheld);
      places := Moved(rest);
      MovedMembers(rest);
      MovedPicks(rest, queued, Plannable(queued[1..], withheld));
      if queued[0].key !in withheld { places := [0] + places; }
      forall m: nat | m < |queued|
        ensures m in places <==> queued[m].key !in withheld
      {
        if m > 0 { assert queued[m] == queued[1..][m - 1]; }
      }
    }
  }

  function Moved(places: seq<nat>): seq<nat> { seq(|places|, j requires 0 <= j < |places| => places[j] + 1) }

  lemma MovedMembers(places: seq<nat>)
    ensures forall m: nat :: m in Moved(places) <==> m > 0 && m - 1 in places
  {
    forall m: nat | m > 0 && m - 1 in places
      ensures m in Moved(places)
    {
      var j :| 0 <= j < |places| && places[j] == m - 1;
      assert Moved(places)[j] == m;
    }
  }

  lemma MovedPicks(places: seq<nat>, queued: seq<Demand>, chosen: seq<Demand>)
    requires queued != [] && Picks(places, queued[1..], chosen)
    ensures Picks(Moved(places), queued, chosen) && Picks([0] + Moved(places), queued, [queued[0]] + chosen)
  {
    forall j | 0 <= j < |places|
      ensures Moved(places)[j] < |queued| && chosen[j] == queued[Moved(places)[j]]
    {
      assert chosen[j] == queued[1..][places[j]];
    }
  }

  /** The chosen are what the queue has at these places, one after the other. */
  ghost predicate Picks(places: seq<nat>, queued: seq<Demand>, chosen: seq<Demand>) {
    && |places| == |chosen|
    && (forall j | 0 <= j < |places| :: places[j] < |queued| && chosen[j] == queued[places[j]])
    && (forall j, k | 0 <= j < k < |places| :: places[j] < places[k])
  }

  /** A binding that has its statistics plans its queue less the demands that are not free: every other one
      once for each time it is queued, and in the order of the queue. */
  lemma PlannedInOrder(instances: seq<Instance>, queues: seq<Queue>, record: ExitRecord, now: int, i: nat) returns (places: seq<nat>)
    requires i < |queues| && !queues[i].Degraded?
    ensures Picks(places, DemandsOf(queues[i]), PlannedAt(instances, queues, record, now, i))
    ensures forall m: nat | m < |DemandsOf(queues[i])| ::
              m in places <==> Free(instances, queues, record, now, i, DemandsOf(queues[i])[m].key)
  {
    var queued, withheld := DemandsOf(queues[i]), WithheldAt(instances, queues, record, now, i);
    places := PlannableKeepsPlaces(queued, withheld);
    forall m: nat | m < |queued|
      ensures m in places <==> Free(instances, queues, record, now, i, queued[m].key)
    {
      FreeIsNotWithheld(instances, queues, record, now, i, queued[m].key);
    }
  }

  /** One job queued for both platforms, whose Linux image alone is on hold: planned for macOS when that
      binding comes first, and not planned at all when it comes second. */
  lemma OrderOfBindingsMatters()
    ensures var key := DemandQueue.Key("r", 1, 1, 1);
            var mac, linux := Demand(key, 0, DemandQueue.MacOS), Demand(key, 0, DemandQueue.Linux);
            var record := ExitRecord(map[(key, "l") := EmptyExit.Exits(3, Some(0))], map[DemandQueue.Linux := "l", DemandQueue.MacOS := "m"]);
            && PlannedAt([], [Fresh([mac]), Fresh([linux])], record, 1, 0) == [mac]
            && PlannedAt([], [Fresh([linux]), Fresh([mac])], record, 1, 1) == []
            && PlannedWhileHeld([], [Fresh([mac]), Fresh([linux])], record, 1, 0, mac, 1, linux)
  {
    var key := DemandQueue.Key("r", 1, 1, 1);
    var mac, linux := Demand(key, 0, DemandQueue.MacOS), Demand(key, 0, DemandQueue.Linux);
    var record := ExitRecord(map[(key, "l") := EmptyExit.Exits(3, Some(0))], map[DemandQueue.Linux := "l", DemandQueue.MacOS := "m"]);
    assert record.Of(linux).count == 3;
    assert "m" != "l" by { assert "m"[0] != "l"[0]; }
    assert record.Of(mac).count == 0;
    assert Pow2(0) == 1;
    assert HeldBy(record, 1, linux) && !HeldBy(record, 1, mac);
    assert linux in [linux];
    assert HeldKeys(record, 1, [mac]) == {} && key in HeldKeys(record, 1, [linux]);
    var q1 := [Fresh([mac]), Fresh([linux])];
    assert WithheldAt([], q1, record, 1, 0) == {};
    assert Plannable([mac], {}) == [mac];
    var q2 := [Fresh([linux]), Fresh([mac])];
    assert key in WithheldAt([], q2, record, 1, 0) && key in WithheldAt([], q2, record, 1, 1);
    assert DemandsOf(q2[1]) == [mac] && [mac][1..] == [];
    assert Plannable([mac], WithheldAt([], q2, record, 1, 1)) == [];
    assert DemandsOf(q1[0]) == [mac] && DemandsOf(q1[1]) == [linux];
    assert PlannedAt([], q1, record, 1, 0) == [mac];
  }
}
