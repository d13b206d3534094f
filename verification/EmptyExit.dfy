/**
 The empty-exit backoff (internal/domain/emptyexit.go): how long a queued demand waits after its
 instances keep exiting without taking its job.
 */
module EmptyExit {
  import opened Basics

  datatype Policy = Policy(tolerated: int, base: int, cap: int)
  datatype Exits = Exits(count: int, last: Option<int>)

  const MINUTE := 60
  const BACKOFF := Policy(2, 5 * MINUTE, 15 * MINUTE)

  predicate Exceeded(p: Policy, exits: Exits) {
    p.base > 0 && exits.count > p.tolerated && exits.last.Some?
  }

  /** The hold after the n-th exit past the tolerance, counting from zero. */
  function Hold(p: Policy, n: nat): int {
    Min(p.base * Pow2(n), p.cap)
  }

  function RetryInstant(p: Policy, exits: Exits): Option<int> {
    if !Exceeded(p, exits) then exits.last
    else Some(exits.last.value + Hold(p, exits.count - p.tolerated - 1))
  }

  /** The doubling loop computes the capped power, and no value on the way exceeds the larger of the base
      and twice the cap. */
  method RetryAt(p: Policy, exits: Exits) returns (at: Option<int>, ghost peak: int)
    ensures at == RetryInstant(p, exits)
    ensures Exceeded(p, exits) ==> peak <= Max(p.base, 2 * p.cap)
  {
    peak := 0;
    if !Exceeded(p, exits) { return exits.last, peak; }
    var hold := p.base;
    var n := exits.count - p.tolerated - 1;
    var k := 0;
    while k < n
      invariant 0 <= k <= n
      invariant hold == p.base * Pow2(k) && hold <= Max(p.base, 2 * p.cap)
    {
      if hold >= p.cap { break; }
      hold := hold * 2;
      k := k + 1;
    }
    peak := hold;
    if k < n { DoublingStaysAbove(p.base, k, n); }
    at := Some(exits.last.value + Min(hold, p.cap));
  }

  lemma {:induction false} DoublingStaysAbove(base: int, k: nat, n: nat)
    requires base > 0 && k <= n
    ensures 0 < base * Pow2(k) <= base * Pow2(n)
    decreases n - k
  {
    Pow2Grows(k, k);
    assert base * Pow2(k) > 0;
    if k < n {
      DoublingStaysAbove(base, k + 1, n);
      assert base * Pow2(k + 1) == 2 * (base * Pow2(k));
    }
  }

  predicate Holds(p: Policy, exits: Exits, now: int) {
    Exceeded(p, exits) && exits.last.value <= now && now < RetryInstant(p, exits).value
  }

  /** More exits never shorten the hold, and none is ever longer than the cap. */
  lemma HoldGrowsUpToCap(p: Policy, m: nat, n: nat)
    requires p.base > 0 && m <= n
    ensures Hold(p, m) <= Hold(p, n) <= p.cap
  {
    DoublingStaysAbove(p.base, m, n);
  }

  /** A demand is held only past the tolerance and only within the cap of its last exit; with any positive
      cap it is then held for at least the shorter of base and cap. */
  lemma HoldsOnlyWithinCap(p: Policy, exits: Exits, now: int)
    ensures Holds(p, exits, now) ==> exits.count > p.tolerated && exits.last.value <= now < exits.last.value + p.cap
    ensures Exceeded(p, exits) && exits.last.value <= now < exits.last.value + Min(p.base, p.cap) ==> Holds(p, exits, now)
  {
    if Exceeded(p, exits) { HoldGrowsUpToCap(p, 0, exits.count - p.tolerated - 1); }
  }

  /** Under the fleet's policy two exits hold nothing, the third holds for five minutes, the fourth for ten and
      every later one for fifteen, from the last exit on. */
  lemma ShippedHolds(exits: Exits, now: int)
    ensures Holds(BACKOFF, exits, now) <==>
            && exits.last.Some? && exits.count >= 3
            && 0 <= now - exits.last.value < (if exits.count == 3 then 5 else if exits.count == 4 then 10 else 15) * 60
  {
    if exits.count >= 3 {
      var n := exits.count - 3;
      assert Pow2(0) == 1 && Pow2(1) == 2 && Pow2(2) == 4;
      if n >= 2 { HoldGrowsUpToCap(BACKOFF, 2, n); }
    }
  }
}
