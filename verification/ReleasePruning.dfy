/**
 Which release directories a node may delete (internal/autoupdate/prune.go), and what deleting them
 does to the update it is waiting for.
 */
module ReleasePruning {
  import opened Basics
  import opened Versions
  import opened Sorting
  import opened ReleaseListing

  /** Text order, character by character. */
  predicate TextLeq(a: string, b: string) {
    a == [] || (b != [] && (a[0] < b[0] || (a[0] == b[0] && TextLeq(a[1..], b[1..]))))
  }

  /** The comparison the sort is given: by version, or by text where one of the two cannot be parsed. */
  predicate ComesBefore(a: string, b: string) {
    if Compare(a, b).Some? then Compare(a, b).value > 0 else !TextLeq(a, b)
  }

  /** An order that agrees with it among names that all parse and among names none of which does. */
  predicate NewestFirstLeq(a: string, b: string) {
    if Parseable(b) then Parseable(a) && NotNewer(b, a) else Parseable(a) || TextLeq(b, a)
  }

  lemma {:induction false} TextIsPreorder(a: string, b: string, c: string)
    ensures TextLeq(a, b) || TextLeq(b, a)
    ensures TextLeq(a, b) && TextLeq(b, c) ==> TextLeq(a, c)
    decreases |a|
  {
    if a != [] { TextIsPreorder(a[1..], if b == [] then [] else b[1..], if c == [] then [] else c[1..]); }
  }

  lemma NewestFirstIsPreorder()
    ensures TotalPreorder(NewestFirstLeq)
  {
    forall a, b, c
      ensures NewestFirstLeq(a, b) || NewestFirstLeq(b, a)
      ensures NewestFirstLeq(a, b) && NewestFirstLeq(b, c) ==> NewestFirstLeq(a, c)
    {
      CompareIsTotalPreorder(a, b, c);
      CompareIsTotalPreorder(c, b, a);
      TextIsPreorder(a, b, c);
      TextIsPreorder(c, b, a);
    }
  }

  /** The comparison of names of which only some parse is no order, so a sort by it promises nothing: each of
      these three comes before the next, and the last before the first. */
  lemma MixedNamesHaveNoOrder()
    ensures ComesBefore("10", "2") && ComesBefore("2", "1x") && ComesBefore("1x", "10")
  {
    TenParses();
    TwoParses();
    NamedDoesNotParse();
    assert CompareFrom([10], [2], 0) == 1;
    assert "1x"[1..] == "x" && "10"[1..] == "0" && !TextLeq("x", "0");
  }

  lemma TenParses()
    ensures Parse("10") == Some([10])
  {
    WrittenVersionParses([10], false, "");
    assert Digits(1) == "1" && Digits(10) == "10" && "" + "10" + "" == "10";
  }

  lemma TwoParses()
    ensures Parse("2") == Some([2])
  {
    WrittenVersionParses([2], false, "");
    assert Digits(2) == "2" && "" + "2" + "" == "2";
  }

  lemma NamedDoesNotParse()
    ensures Parse("1x") == None
  {
    CutTail("1x", "");
    assert "1x" + "" == "1x";
    SplitPlain("1x", '.');
    assert Components("1x") == ["1x"] && !IsDigit("1x"[1]);
    ParseExactly("1x");
    assert !IsNumber(Components("1x")[0]);
  }

  ghost predicate OldestFirst(names: seq<string>) {
    forall i, j | 0 <= i < j < |names| :: NotNewer(names[i], names[j])
  }

  /** All of these names parse, or none of them does. */
  predicate Uniform(names: seq<string>) {
    (forall n | n in names :: Parseable(n)) || (forall n | n in names :: !Parseable(n))
  }

  /** A permutation, and where the comparison is an order one in which nothing comes before what precedes it. */
  method SortVersionsNewestFirst(names: seq<string>) returns (sorted: seq<string>)
    ensures multiset(sorted) == multiset(names) && |sorted| == |names|
    ensures Uniform(names) ==> forall i, j | 0 <= i < j < |sorted| :: !ComesBefore(sorted[j], sorted[i])
  {
    NewestFirstIsPreorder();
    sorted := Sort(names, NewestFirstLeq);
    SameMembers(sorted, names);
    if Uniform(names) { OrderAgrees(sorted); }
  }

  lemma OrderAgrees(sorted: seq<string>)
    requires Sorted(sorted, NewestFirstLeq) && Uniform(sorted)
    ensures forall i, j | 0 <= i < j < |sorted| :: !ComesBefore(sorted[j], sorted[i])
  {
    forall i, j | 0 <= i < j < |sorted|
      ensures !ComesBefore(sorted[j], sorted[i])
    {
      assert NewestFirstLeq(sorted[i], sorted[j]);
      CompareIsTotalPreorder(sorted[i], sorted[j], sorted[i]);
      CompareIsTotalPreorder(sorted[j], sorted[i], sorted[j]);
    }
  }

  /** Newest first, as the callers need it: they sort only names that parse. */
  ghost predicate NewestFirst(names: seq<string>) {
    forall i, j | 0 <= i < j < |names| :: NotNewer(names[j], names[i])
  }

  lemma ParsedIsNewestFirst(sorted: seq<string>)
    requires forall n | n in sorted :: Parseable(n)
    requires forall i, j | 0 <= i < j < |sorted| :: !ComesBefore(sorted[j], sorted[i])
    ensures NewestFirst(sorted)
  {
    forall i, j | 0 <= i < j < |sorted|
      ensures NotNewer(sorted[j], sorted[i])
    {
      assert sorted[i] in sorted && sorted[j] in sorted;
      CompareIsTotalPreorder(sorted[j], sorted[i], sorted[j]);
    }
  }

  ghost function Selected(running: string, olderOnly: bool): iset<string> {
    if olderOnly then OlderSet(running) else Readable(running)
  }

  method Select(names: seq<string>, running: string, olderOnly: bool) returns (r: seq<string>)
    ensures r == Restrict(names, Selected(running, olderOnly))
  {
    r := [];
    ghost var allowed := Selected(running, olderOnly);
    for i := 0 to |names|
      invariant r == Restrict(names[..i], allowed)
    {
      RestrictNext(names, allowed, i);
      var wanted := Wanted(names[i], running, olderOnly);
      if wanted { r := r + [names[i]]; }
    }
    assert names[..|names|] == names;
  }

  method Wanted(name: string, running: string, olderOnly: bool) returns (wanted: bool)
    ensures wanted <==> name in Selected(running, olderOnly)
  {
    var order := CompareVersions(name, running);
    wanted := order.Some? && (!olderOnly || order.value < 0);
  }

  /** The `retain` newest generations older than the running one, counting along the sorted list. */
  method Retained(older: seq<string>, retain: int) returns (retained: seq<string>)
    requires forall n | n in older :: Parseable(n)
    ensures |retained| == if retain < 0 then 0 else if retain < |older| then retain else |older|
    ensures multiset(retained) <= multiset(older)
    ensures forall k, o | k in retained && o in older && o !in retained :: NotNewer(o, k)
  {
    var sorted := SortVersionsNewestFirst(older);
    SameMembers(sorted, older);
    ParsedIsNewestFirst(sorted);
    retained := FirstOf(sorted, Max(0, retain));
    PrefixIsNewest(older, sorted, |retained|);
  }

  method FirstOf(sorted: seq<string>, limit: nat) returns (first: seq<string>)
    ensures first == sorted[..Min(limit, |sorted|)]
  {
    first := [];
    for i := 0 to |sorted|
      invariant first == sorted[..Min(i, limit)]
    {
      if |first| == limit { break; }
      first := first + [sorted[i]];
    }
  }

  lemma PrefixIsNewest(older: seq<string>, sorted: seq<string>, m: nat)
    requires multiset(sorted) == multiset(older) && NewestFirst(sorted) && m <= |sorted|
    ensures multiset(sorted[..m]) <= multiset(older)
    ensures forall k, o | k in sorted[..m] && o in older && o !in sorted[..m] :: NotNewer(o, k)
  {
    assert sorted == sorted[..m] + sorted[m..];
    SameMembers(sorted, older);
    forall k, o | k in sorted[..m] && o in older && o !in sorted[..m]
      ensures NotNewer(o, k)
    {
      var i :| 0 <= i < m && sorted[i] == k;
      var j :| 0 <= j < |sorted| && sorted[j] == o;
      assert i < j;
      assert NotNewer(sorted[j], sorted[i]);
    }
  }

  /** What must never be deleted. */
  ghost function KeptNames(names: seq<string>, running: string, current: string,
                           referenced: seq<string>, retained: seq<string>): set<string>
  {
    var newest := FirstNewest(Restrict(names, Readable(running)));
    {running, current} + (set n | n in referenced) + (set n | n in retained)
    + (if newest.Some? then {newest.value} else {})
  }

  /** Lists exactly the readable names that are not the running one, the one `current` resolves to,
      the newest one, referenced, or rollback headroom; oldest first. The headroom is the `retain`
      newest names older than the running one, and no older name left out of it is newer than one
      in it. */
  method PrunableReleases(names: seq<string>, running: string, current: string, retain: int, referenced: seq<string>)
    returns (prunable: seq<string>, ghost retained: seq<string>)
    ensures running == "" ==> prunable == []
    ensures running != "" ==>
              forall n :: n in prunable <==>
                && n in Restrict(names, Readable(running))
                && n !in KeptNames(names, running, current, referenced, retained)
    ensures multiset(prunable) <= multiset(names) && OldestFirst(prunable)
    ensures var older := Restrict(names, OlderSet(running));
            running != "" ==>
              && |retained| == (if retain < 0 then 0 else if retain < |older| then retain else |older|)
              && multiset(retained) <= multiset(older)
              && forall k, o | k in retained && o in older && o !in retained :: NotNewer(o, k)
  {
    prunable, retained := [], [];
    if running == "" { return; }
    var versions := Select(names, running, false);
    var newest := NewestOf(versions);
    var older := Select(names, running, true);
    AllParseable(versions, running);
    AllParseable(older, running);
    var headroom := Retained(older, retain);
    retained := headroom;
    var kept := {running, current} + (set n | n in referenced) + (set n | n in headroom)
                + (if newest.Some? then {newest.value} else {});
    prunable := OldestUnkept(versions, kept);
    WithinNames(prunable, versions, names);
  }

  /** What is kept: the running release, the one the link names, the referenced ones, the headroom, and the
      newest of the readable ones. */
  lemma KeptExactly(names: seq<string>, running: string, current: string, referenced: seq<string>, retained: seq<string>, n: string)
    ensures n in KeptNames(names, running, current, referenced, retained) <==>
            || n == running || n == current || n in referenced || n in retained
            || FirstNewest(Restrict(names, Readable(running))) == Some(n)
  {
  }

  lemma WithinNames(a: seq<string>, b: seq<string>, c: seq<string>)
    requires multiset(a) <= multiset(b) <= multiset(c)
    ensures multiset(a) <= multiset(c)
  {
  }

  method OldestUnkept(versions: seq<string>, kept: set<string>) returns (prunable: seq<string>)
    requires forall n | n in versions :: Parseable(n)
    ensures forall n :: n in prunable <==> n in versions && n !in kept
    ensures multiset(prunable) <= multiset(versions) && OldestFirst(prunable)
  {
    var rest := Unkept(versions, kept);
    var sorted := SortVersionsNewestFirst(rest);
    SameMembers(sorted, rest);
    ParsedIsNewestFirst(sorted);
    prunable := Reverse(sorted);
    SameMembers(prunable, rest);
    SortedAscending(sorted, prunable);
  }

  lemma SameMembers(a: seq<string>, b: seq<string>)
    requires multiset(a) == multiset(b)
    ensures forall n :: n in a <==> n in b
  {
    assert forall n :: n in a <==> n in multiset(a);
    assert forall n :: n in b <==> n in multiset(b);
  }

  method Unkept(versions: seq<string>, kept: set<string>) returns (rest: seq<string>)
    ensures forall n :: n in rest <==> n in versions && n !in kept
    ensures multiset(rest) <= multiset(versions)
  {
    rest := [];
    for i := 0 to |versions|
      invariant forall n :: n in rest <==> n in versions[..i] && n !in kept
      invariant multiset(rest) <= multiset(versions[..i])
    {
      assert versions[..i + 1] == versions[..i] + [versions[i]];
      if versions[i] !in kept { rest := rest + [versions[i]]; }
    }
    assert versions[..|versions|] == versions;
  }

  lemma SortedAscending(sorted: seq<string>, reversed: seq<string>)
    requires NewestFirst(sorted)
    requires |reversed| == |sorted| && forall i | 0 <= i < |sorted| :: reversed[i] == sorted[|sorted| - 1 - i]
    ensures OldestFirst(reversed)
  {
    forall i, j | 0 <= i < j < |reversed|
      ensures NotNewer(reversed[i], reversed[j])
    {
      assert NotNewer(sorted[|sorted| - 1 - i], sorted[|sorted| - 1 - j]);
      assert reversed[i] in sorted;
    }
  }

  // --- Pruning beside the update it must not disturb -----------------------------------------

  ghost function Except(removed: iset<string>): iset<string> { iset n | n !in removed }

  /** The candidate an update is waiting for is the newest readable name, so pruning keeps it, and
      after any such pruning it is still the candidate. */
  lemma PruningKeepsCandidate(names: seq<string>, running: string, removed: iset<string>)
    requires Restrict(names, Newer(running)) != []
    requires forall n | n in removed :: Some(n) != FirstNewest(Restrict(names, Readable(running)))
    ensures var remaining := Restrict(names, Except(removed));
            FirstNewest(Restrict(remaining, Newer(running))) == FirstNewest(Restrict(names, Newer(running))) != None
  {
    var newer := Restrict(names, Newer(running));
    NewestOfNewer(names, running);
    var best := FirstNewest(newer).value;
    AllParseable(newer, running);
    FirstNewestWins(newer);
    var kept := Except(removed);
    WinnerSurvives(newer, kept, best);
    RestrictCommutes(names, Newer(running), kept);
    WinnerIsFirstNewest(Restrict(newer, kept), best);
  }

  lemma {:induction false} RestrictCommutes(names: seq<string>, a: iset<string>, b: iset<string>)
    ensures Restrict(Restrict(names, a), b) == Restrict(Restrict(names, b), a)
  {
    if names != [] {
      var rest, last := names[..|names| - 1], names[|names| - 1];
      RestrictCommutes(rest, a, b);
      var r, q := Restrict(rest, a), Restrict(rest, b);
      assert (r + [last])[..|r|] == r && (q + [last])[..|q|] == q;
    }
  }

  /** The date of the wait survives pruning exactly when a release that carries it does, or there was
      no date to lose. */
  lemma PruningKeepsDate(names: seq<string>, running: string, removed: iset<string>, modified: string -> Option<int>)
    ensures var newer := Restrict(names, Newer(running));
            var remaining := Restrict(Restrict(names, Except(removed)), Newer(running));
            Earliest(remaining, modified) == Earliest(newer, modified)
            <==> Earliest(newer, modified).None?
                 || exists n :: n in newer && n !in removed && modified(n) == Earliest(newer, modified)
  {
    var newer := Restrict(names, Newer(running));
    var remaining := Restrict(Restrict(names, Except(removed)), Newer(running));
    assert forall n :: n in remaining <==> n in newer && n !in removed;
    EarliestOfFewer(newer, remaining, modified);
  }

  lemma EarliestOfFewer(all: seq<string>, fewer: seq<string>, modified: string -> Option<int>)
    requires forall n | n in fewer :: n in all
    ensures Earliest(fewer, modified) == Earliest(all, modified)
            <==> Earliest(all, modified).None? || exists n :: n in fewer && modified(n) == Earliest(all, modified)
  {
    EarliestIsLeast(all, modified);
    EarliestIsLeast(fewer, modified);
  }

  /** It need not survive. With two releases waiting, pruning may take the superseded one, which
      nothing will ever adopt, and the wait is then dated by the newer one. */
  lemma PruningMovesDate(names: seq<string>, running: string, superseded: string, newest: string, modified: string -> Option<int>)
    requires superseded in names && newest in names && forall n | n in names :: n in {running, superseded, newest}
    requires NewerThan(superseded, running) && NewerThan(newest, superseded)
    requires modified(superseded).Some? && modified(newest).Some?
    requires modified(superseded).value < modified(newest).value
    ensures superseded in Restrict(names, Readable(running))
    ensures superseded !in KeptNames(names, running, running, [], [])
    ensures Earliest(Restrict(names, Newer(running)), modified) == modified(superseded)
    ensures Earliest(Restrict(Restrict(names, Except(iset{superseded})), Newer(running)), modified) == modified(newest)
  {
    NewerChain(running, superseded, newest);
    SupersededDatesWait(names, running, superseded, newest, modified);
    NewestDatesRest(names, running, superseded, newest, modified);
    SupersededIsPrunable(names, running, superseded, newest);
  }

  lemma SupersededDatesWait(names: seq<string>, running: string, superseded: string, newest: string, modified: string -> Option<int>)
    requires superseded in names && newest in names && forall n | n in names :: n in {running, superseded, newest}
    requires NewerThan(superseded, running) && NewerThan(newest, superseded)
    requires modified(superseded).Some? && modified(newest).Some?
    requires modified(superseded).value < modified(newest).value
    ensures Earliest(Restrict(names, Newer(running)), modified) == modified(superseded)
  {
    NewerChain(running, superseded, newest);
    EarliestIs(Restrict(names, Newer(running)), modified, superseded);
  }

  lemma NewestDatesRest(names: seq<string>, running: string, superseded: string, newest: string, modified: string -> Option<int>)
    requires newest in names && forall n | n in names :: n in {running, superseded, newest}
    requires NewerThan(superseded, running) && NewerThan(newest, superseded) && modified(newest).Some?
    ensures Earliest(Restrict(Restrict(names, Except(iset{superseded})), Newer(running)), modified) == modified(newest)
  {
    NewerChain(running, superseded, newest);
    EarliestIs(Restrict(Restrict(names, Except(iset{superseded})), Newer(running)), modified, newest);
  }

  lemma NewerChain(running: string, superseded: string, newest: string)
    requires NewerThan(superseded, running) && NewerThan(newest, superseded)
    ensures NewerThan(newest, running) && !NewerThan(running, running) && !NotNewer(newest, superseded)
    ensures superseded != running && superseded != newest
  {
    CompareIsTotalPreorder(running, running, running);
    CompareIsTotalPreorder(superseded, superseded, superseded);
    CompareIsTotalPreorder(superseded, newest, superseded);
    NewerThanRunning(superseded, newest, running);
  }

  lemma SupersededIsPrunable(names: seq<string>, running: string, superseded: string, newest: string)
    requires superseded in names && newest in names
    requires NewerThan(superseded, running) && NewerThan(newest, superseded)
    ensures superseded !in KeptNames(names, running, running, [], [])
  {
    NewerChain(running, superseded, newest);
    assert newest in Restrict(names, Newer(running));
    NewestOfNewer(names, running);
    CompareIsTotalPreorder(newest, superseded, newest);
  }

  lemma EarliestIs(names: seq<string>, modified: string -> Option<int>, best: string)
    requires best in names && modified(best).Some?
    requires forall n | n in names && modified(n).Some? :: modified(best).value <= modified(n).value
    ensures Earliest(names, modified) == modified(best)
  {
    EarliestIsLeast(names, modified);
  }
}
