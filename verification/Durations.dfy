/**
 Seconds on the wire and nanoseconds in memory (internal/config/config.go): the product is taken in 64-bit
 arithmetic, which wraps, and only whole seconds are written back.
 */
module Durations {
  import opened Basics

  const TWO_63 := 0x8000_0000_0000_0000
  const TWO_64 := 0x1_0000_0000_0000_0000
  const SECOND := 1_000_000_000

  type int64 = x: int | -TWO_63 <= x < TWO_63

  function Wrap(x: int): int64 { (x + TWO_63) % TWO_64 - TWO_63 }

  /** A wire value as a duration. */
  function Nanos(seconds: int64): int64 { Wrap(seconds * SECOND) }

  /** A duration as a wire value, refused unless it is whole seconds. */
  function WholeSeconds(d: int64): Option<int64> {
    if d % SECOND == 0 then Some(d / SECOND) else None
  }

  /** An omitted timeout takes its fallback before the product is taken. */
  function SecondsOr(seconds: int64, fallback: int64): int64 {
    Nanos(if seconds == 0 then fallback else seconds)
  }

  /** An omitted bound takes its default after the product is taken, so a product that wraps to zero does
      too. */
  function Defaulted(seconds: int64, default: int64): int64 {
    if Nanos(seconds) == 0 then default else Nanos(seconds)
  }

  /** A bound at its default is not written. */
  function Undefaulted(d: int64, default: int64): Option<int64> {
    match WholeSeconds(d)
    case None => None
    case Some(s) => Some(if d == default then 0 else s)
  }

  /** Wrapping changes a number by a multiple of 2^64 only, and no other 64-bit number differs by one. */
  lemma WrapExactly(x: int, y: int64)
    ensures y == Wrap(x) <==> (x - y) % TWO_64 == 0
  {
    var k := (x + TWO_63) / TWO_64;
    assert x - Wrap(x) == k * TWO_64;
    if (x - y) % TWO_64 == 0 {
      var j := (x - y) / TWO_64;
      assert x - y == j * TWO_64;
      assert Wrap(x) - y == (j - k) * TWO_64;
      assert -TWO_64 < Wrap(x) - y < TWO_64;
      assert j == k;
    }
  }

  lemma WrapIsExact(x: int)
    requires -TWO_63 <= x < TWO_63
    ensures Wrap(x) == x
  {
  }

  /** Writing a duration and reading it back gives the same duration. */
  lemma SecondsReturn(d: int64)
    ensures WholeSeconds(d).Some? ==> Nanos(WholeSeconds(d).value) == d
    ensures WholeSeconds(d).Some? && d != 0 ==> WholeSeconds(d).value != 0
  {
    if d % SECOND == 0 {
      assert d / SECOND * SECOND == d;
      WrapIsExact(d);
    }
  }

  lemma BoundReturns(d: int64, default: int64)
    requires d != 0
    ensures Undefaulted(d, default).Some? <==> d % SECOND == 0
    ensures Undefaulted(d, default).Some? ==> Defaulted(Undefaulted(d, default).value, default) == d
  {
    SecondsReturn(d);
    WrapIsExact(0);
  }

  lemma TimeoutReturns(d: int64, fallback: int64)
    requires d != 0
    ensures WholeSeconds(d).Some? ==> SecondsOr(WholeSeconds(d).value, fallback) == d
  {
    SecondsReturn(d);
  }

  // --- When the product loses whole seconds ----------------------------------------------------

  /** How often the product has wrapped. */
  function Overflows(seconds: int64): int { (seconds * SECOND + TWO_63) / TWO_64 }

  const FIVE_9 := 1_953_125
  const TWO_55 := 0x80_0000_0000_0000
  const U := 857457
  const V := -15817289833210771

  /** Whether a wire value comes out as whole seconds: the product has wrapped a multiple of 5^9 times,
      zero for every value below nine billion. */
  predicate Lossless(seconds: int64) { Overflows(seconds) % FIVE_9 == 0 }

  lemma SmallIsLossless(seconds: int64)
    requires -9_223_372_036 <= seconds <= 9_223_372_036
    ensures Lossless(seconds) && Nanos(seconds) == seconds * SECOND
  {
    WrapIsExact(seconds * SECOND);
    assert Overflows(seconds) == 0;
  }

  lemma LosslessExactly(seconds: int64)
    ensures Nanos(seconds) % SECOND == 0 <==> Lossless(seconds)
  {
    var k := Overflows(seconds);
    assert Nanos(seconds) == seconds * SECOND - k * TWO_64;
    if Lossless(seconds) {
      var m := k / FIVE_9;
      assert k * TWO_64 == m * TWO_55 * SECOND;
      Multiple(seconds - m * TWO_55);
    } else if Nanos(seconds) % SECOND == 0 {
      var q := Nanos(seconds) / SECOND;
      assert k * TWO_64 == (seconds - q) * SECOND;
      assert k * TWO_55 == (seconds - q) * FIVE_9;
      CoprimeDivides(k, seconds - q);
    }
  }

  lemma Multiple(n: int)
    ensures n * SECOND % SECOND == 0
  {
  }

  /** 5^9 divides k as soon as it divides k times 2^55: the two are coprime, by the Bezout coefficients
      U and V. */
  lemma CoprimeDivides(k: int, n: int)
    requires k * TWO_55 == n * FIVE_9
    ensures k % FIVE_9 == 0
  {
    assert U * TWO_55 + V * FIVE_9 == 1;
    assert k == (n * U + k * V) * FIVE_9;
    assert (n * U + k * V) * FIVE_9 % FIVE_9 == 0;
  }
}
