/**
 Sorting by a comparison. The program sorts with a library routine that promises order and nothing
 about ties, so a contract here says sorted and a permutation; where the comparison separates every
 two elements, the result is unique whatever the routine does.
 */
module Sorting {

  /** Names three elements, so that a proof can choose where transitivity is used. */
  predicate Chain<T>(a: T, b: T, c: T) { true }

  ghost predicate TotalPreorder<T(!new)>(leq: (T, T) -> bool) {
    forall a, b, c {:trigger Chain(a, b, c)} ::
      (leq(a, b) || leq(b, a)) && (leq(a, b) && leq(b, c) ==> leq(a, c))
  }

  ghost predicate Sorted<T>(s: seq<T>, leq: (T, T) -> bool) {
    forall i, j | 0 <= i < j < |s| :: leq(s[i], s[j])
  }

  method Sort<T(!new)>(s: seq<T>, leq: (T, T) -> bool) returns (r: seq<T>)
    requires TotalPreorder(leq)
    ensures multiset(r) == multiset(s) && |r| == |s| && Sorted(r, leq)
  {
    r := [];
    for i := 0 to |s|
      invariant multiset(r) == multiset(s[..i]) && |r| == i && Sorted(r, leq)
    {
      assert s[..i + 1] == s[..i] + [s[i]];
      r := Insert(r, s[i], leq);
    }
    assert s[..|s|] == s;
  }

  method Insert<T(!new)>(s: seq<T>, x: T, leq: (T, T) -> bool) returns (r: seq<T>)
    requires TotalPreorder(leq) && Sorted(s, leq)
    ensures multiset(r) == multiset(s) + multiset{x} && |r| == |s| + 1 && Sorted(r, leq)
  {
    var k := 0;
    while k < |s| && leq(s[k], x)
      invariant 0 <= k <= |s|
      invariant forall i | 0 <= i < k :: leq(s[i], x)
    {
      k := k + 1;
    }
    forall j | k <= j < |s|
      ensures leq(x, s[j])
    {
      assert Chain(x, s[k], s[j]);
    }
    r := Inserted(s, x, k);
    InsertedIsSorted(s, x, k, leq);
  }

  function Inserted<T>(s: seq<T>, x: T, k: nat): (r: seq<T>)
    requires k <= |s|
    ensures |r| == |s| + 1 && multiset(r) == multiset(s) + multiset{x}
    ensures forall i | 0 <= i < |r| :: r[i] == if i < k then s[i] else if i == k then x else s[i - 1]
  {
    assert s == s[..k] + s[k..];
    s[..k] + [x] + s[k..]
  }

  lemma InsertedIsSorted<T>(s: seq<T>, x: T, k: nat, leq: (T, T) -> bool)
    requires k <= |s| && Sorted(s, leq)
    requires forall i | 0 <= i < k :: leq(s[i], x)
    requires forall j | k <= j < |s| :: leq(x, s[j])
    ensures Sorted(Inserted(s, x, k), leq)
  {
    var r := Inserted(s, x, k);
    forall i, j | 0 <= i < j < |r|
      ensures leq(r[i], r[j])
    {
    }
  }

  /** The comparison separates every two elements of a sequence. */
  ghost predicate Separates<T>(leq: (T, T) -> bool, s: seq<T>) {
    forall a, b | a in s && b in s && leq(a, b) && leq(b, a) :: a == b
  }

  /** Where the comparison separates the elements, there is one sorted order. */
  lemma {:induction false} SortedIsUnique<T(!new)>(s: seq<T>, r: seq<T>, leq: (T, T) -> bool)
    requires multiset(s) == multiset(r)
    requires Sorted(s, leq) && Sorted(r, leq) && Separates(leq, s)
    ensures s == r
  {
    assert |multiset(s)| == |s| && |multiset(r)| == |r|;
    if s != [] {
      SameFirst(s, r, leq);
      assert s == [s[0]] + s[1..] && r == [r[0]] + r[1..];
      assert multiset(s[1..]) == multiset(s) - multiset{s[0]} == multiset(r[1..]);
      TailSorted(s, leq);
      TailSorted(r, leq);
      SortedIsUnique(s[1..], r[1..], leq);
    }
  }

  lemma TailSorted<T>(s: seq<T>, leq: (T, T) -> bool)
    requires s != [] && Sorted(s, leq)
    ensures Sorted(s[1..], leq) && (Separates(leq, s) ==> Separates(leq, s[1..]))
  {
    assert forall a | a in s[1..] :: a in s;
  }

  lemma SameFirst<T(!new)>(s: seq<T>, r: seq<T>, leq: (T, T) -> bool)
    requires multiset(s) == multiset(r) && s != [] && r != []
    requires Sorted(s, leq) && Sorted(r, leq) && Separates(leq, s)
    ensures s[0] == r[0]
  {
    assert s[0] in multiset(r) && r[0] in multiset(s);
    var i :| 0 <= i < |r| && r[i] == s[0];
    var j :| 0 <= j < |s| && s[j] == r[0];
    if i > 0 && j > 0 {
      assert leq(r[0], r[i]) && leq(s[0], s[j]);
      assert r[0] in s && s[0] in s;
    }
  }

  /** Swaps from both ends inwards. */
  method Reverse<T>(s: seq<T>) returns (r: seq<T>)
    ensures |r| == |s| && multiset(r) == multiset(s)
    ensures forall i | 0 <= i < |r| :: r[i] == s[|s| - 1 - i]
  {
    r := s;
    var left, right := 0, |r| - 1;
    while left < right
      invariant |r| == |s| && left + right == |r| - 1 && 0 <= left <= right + 2
      invariant forall i | left <= i <= right :: r[i] == s[i]
      invariant forall i | 0 <= i < left :: r[i] == s[|s| - 1 - i]
      invariant forall i | right < i < |r| :: r[i] == s[|s| - 1 - i]
    {
      var x, y := r[left], r[right];
      r := r[left := y][right := x];
      left, right := left + 1, right - 1;
    }
    ReversalPermutes(s, r);
  }

  lemma {:induction false} ReversalPermutes<T>(s: seq<T>, r: seq<T>)
    requires |r| == |s| && forall i | 0 <= i < |r| :: r[i] == s[|s| - 1 - i]
    ensures multiset(r) == multiset(s)
  {
    if s != [] {
      var n := |s| - 1;
      ReversalPermutes(s[..n], r[1..]);
      assert s == s[..n] + [s[n]] && r == [r[0]] + r[1..];
    }
  }
}
