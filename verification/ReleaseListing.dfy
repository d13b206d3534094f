/**
 Which releases on disk are waiting, since when, and which may be deleted
 (internal/autoupdate/drain.go and internal/autoupdate/prune.go).
 */
module ReleaseListing {
  import opened Basics
  import opened Versions
  import opened Sorting

  predicate NewerThan(name: string, running: string) { Compare(name, running) == Some(1) }

  ghost function Readable(running: string): iset<string> { iset n | Compare(n, running).Some? }
  ghost function Newer(running: string): iset<string> { iset n | NewerThan(n, running) }
  ghost function OlderSet(running: string): iset<string> { iset n | Older(n, running) }

  /** The names that belong to a set, in order. */
  ghost function Restrict(names: seq<string>, allowed: iset<string>): (r: seq<string>)
    ensures forall n :: n in r <==> n in names && n in allowed
    ensures multiset(r) <= multiset(names)
  {
    if names == [] then []
    else
      var last := names[|names| - 1];
      assert names == names[..|names| - 1] + [last];
      var r := Restrict(names[..|names| - 1], allowed);
      if last in allowed then r + [last] else r
  }

  lemma RestrictNext(names: seq<string>, allowed: iset<string>, i: nat)
    requires i < |names|
    ensures var r := Restrict(names[..i], allowed);
            Restrict(names[..i + 1], allowed) == if names[i] in allowed then r + [names[i]] else r
  {
    assert names[..i + 1][..i] == names[..i];
  }

  /** The first of the newest names: what both listing loops carry along. */
  function FirstNewest(names: seq<string>): Option<string> {
    if names == [] then None
    else
      var last := names[|names| - 1];
      match FirstNewest(names[..|names| - 1])
      case None => Some(last)
      case Some(best) => if NewerThan(last, best) then Some(last) else Some(best)
  }

  /** `best` is newer than every name before its first occurrence, and no later name is newer. */
  ghost predicate Wins(names: seq<string>, best: string) {
    if names == [] then false
    else
      var rest, last := names[..|names| - 1], names[|names| - 1];
      (last == best && forall n | n in rest :: Older(n, best)) || (Wins(rest, best) && !NewerThan(last, best))
  }

  lemma {:induction false} WinnerIsFirstNewest(names: seq<string>, best: string)
    requires Wins(names, best)
    ensures FirstNewest(names) == Some(best)
  {
    var rest, last := names[..|names| - 1], names[|names| - 1];
    if Wins(rest, best) && !NewerThan(last, best) {
      WinnerIsFirstNewest(rest, best);
    } else if rest != [] {
      FirstNewestIsMember(rest);
      CompareIsTotalPreorder(FirstNewest(rest).value, best, best);
    }
  }

  lemma {:induction false} FirstNewestIsMember(names: seq<string>)
    requires names != []
    ensures FirstNewest(names).Some? && FirstNewest(names).value in names
  {
    var rest := names[..|names| - 1];
    assert names == rest + [names[|names| - 1]];
    if rest != [] { FirstNewestIsMember(rest); }
  }

  lemma {:induction false} FirstNewestWins(names: seq<string>)
    requires names != [] && forall n | n in names :: Parseable(n)
    ensures FirstNewest(names).Some? && Wins(names, FirstNewest(names).value)
    ensures forall n | n in names :: NotNewer(n, FirstNewest(names).value)
  {
    var rest, last := names[..|names| - 1], names[|names| - 1];
    assert names == rest + [last];
    CompareIsTotalPreorder(last, last, last);
    if rest != [] {
      FirstNewestWins(rest);
      var previous := FirstNewest(rest).value;
      FirstNewestIsMember(rest);
      assert previous in names;
      NextWins(rest, last, previous);
    }
  }

  lemma NextWins(rest: seq<string>, last: string, previous: string)
    requires Parseable(last) && Parseable(previous)
    requires forall n | n in rest :: NotNewer(n, previous)
    ensures var best := if NewerThan(last, previous) then last else previous;
            && (forall n | n in rest + [last] :: NotNewer(n, best))
            && (best == last && NewerThan(last, previous) ==> forall n | n in rest :: Older(n, last))
  {
    var best := if NewerThan(last, previous) then last else previous;
    CompareIsTotalPreorder(last, previous, last);
    CompareIsTotalPreorder(best, best, best);
    forall n | n in rest
      ensures NotNewer(n, best) && (NewerThan(last, previous) ==> Older(n, last))
    {
      CompareIsTotalPreorder(n, previous, last);
    }
  }

  /** A winner among some names is the winner among any of them that it belongs to. */
  lemma {:induction false} WinnerSurvives(names: seq<string>, allowed: iset<string>, best: string)
    requires Wins(names, best) && best in allowed
    ensures Wins(Restrict(names, allowed), best)
  {
    var rest, last := names[..|names| - 1], names[|names| - 1];
    var r := Restrict(rest, allowed);
    assert (r + [last])[..|r|] == r;
    if Wins(rest, best) && !NewerThan(last, best) { WinnerSurvives(rest, allowed, best); }
  }

  // --- The waiting candidate -----------------------------------------------------------------

  /** The names a listing is read for: none when the directory could not be listed or the running version is
      not known. */
  function Listed(listing: Option<seq<string>>, running: string): seq<string> {
    if listing.None? || running == "" then [] else listing.value
  }

  method NewerReleases(listing: Option<seq<string>>, running: string) returns (newer: seq<string>)
    ensures newer == Restrict(Listed(listing, running), Newer(running))
  {
    newer := [];
    if listing.None? || running == "" { return; }
    var names := listing.value;
    CompareIsTotalPreorder(running, running, running);
    for i := 0 to |names|
      invariant newer == Restrict(names[..i], Newer(running))
    {
      RestrictNext(names, Newer(running), i);
      if names[i] == running { continue; }
      var order := CompareVersions(names[i], running);
      if order.Some? && order.value > 0 { newer := newer + [names[i]]; }
    }
    assert names[..|names|] == names;
  }

  method NewestOf(names: seq<string>) returns (newest: Option<string>)
    ensures newest == FirstNewest(names)
  {
    newest := None;
    for i := 0 to |names|
      invariant newest == FirstNewest(names[..i])
    {
      assert names[..i + 1][..i] == names[..i];
      if newest.None? {
        newest := Some(names[i]);
      } else {
        var later := CompareVersions(names[i], newest.value);
        if later.Some? && later.value > 0 { newest := Some(names[i]); }
      }
    }
    assert names[..|names|] == names;
  }

  /** An update is waiting exactly when some release is newer than the running one, and the candidate
      named is one that no readable release is newer than. */
  method PendingCandidate(listing: Option<seq<string>>, running: string) returns (pending: bool, newest: string)
    ensures pending <==> listing.Some? && running != "" && exists n :: n in listing.value && NewerThan(n, running)
    ensures pending ==> newest in listing.value && NewerThan(newest, running)
    ensures pending ==> forall n | n in listing.value && Parseable(n) :: NotNewer(n, newest)
    ensures pending ==> FirstNewest(Restrict(listing.value, Newer(running))) == Some(newest)
    ensures !pending ==> newest == ""
  {
    var newer := NewerReleases(listing, running);
    ghost var names := Listed(listing, running);
    var best := NewestOf(newer);
    pending := best.Some?;
    newest := if pending then best.value else "";
    if newer != [] {
      NewestOfNewer(names, running);
      assert newer[0] in newer;
    }
  }

  lemma NewestOfNewer(names: seq<string>, running: string)
    requires Restrict(names, Newer(running)) != []
    ensures var newer := Restrict(names, Newer(running));
            && FirstNewest(newer).Some? && FirstNewest(newer).value in newer
            && (forall n | n in names && Parseable(n) :: NotNewer(n, FirstNewest(newer).value))
            && FirstNewest(Restrict(names, Readable(running))) == FirstNewest(newer)
  {
    var newer := Restrict(names, Newer(running));
    var readable := Restrict(names, Readable(running));
    assert newer[0] in newer;
    CompareIsTotalPreorder(newer[0], running, newer[0]);
    AllParseable(readable, running);
    FirstNewestWins(readable);
    var best := FirstNewest(readable).value;
    NewerThanRunning(newer[0], best, running);
    WinnerSurvives(readable, Newer(running), best);
    RestrictTwice(names, running);
    WinnerIsFirstNewest(newer, best);
    FirstNewestIsMember(newer);
    forall n | n in names && Parseable(n)
      ensures NotNewer(n, best)
    {
      CompareIsTotalPreorder(n, running, n);
      assert n in readable;
    }
  }

  lemma NewerThanRunning(name: string, best: string, running: string)
    requires NewerThan(name, running) && NotNewer(name, best)
    ensures NewerThan(best, running)
  {
    CompareIsTotalPreorder(name, best, running);
    CompareIsTotalPreorder(running, name, best);
    CompareIsTotalPreorder(best, running, best);
    CompareIsTotalPreorder(name, running, name);
  }

  lemma AllParseable(names: seq<string>, running: string)
    requires forall n | n in names :: Compare(n, running).Some?
    ensures forall n | n in names :: Parseable(n)
  {
    forall n | n in names
      ensures Parseable(n)
    {
      CompareIsTotalPreorder(n, running, n);
    }
  }

  lemma {:induction false} RestrictTwice(names: seq<string>, running: string)
    ensures Restrict(Restrict(names, Readable(running)), Newer(running)) == Restrict(names, Newer(running))
  {
    if names != [] {
      var rest, last := names[..|names| - 1], names[|names| - 1];
      RestrictTwice(rest, running);
      var r := Restrict(rest, Readable(running));
      assert (r + [last])[..|r|] == r;
    }
  }

  // --- Since when ----------------------------------------------------------------------------

  /** The earliest known materialisation among a list of releases. */
  function Earliest(names: seq<string>, modified: string -> Option<int>): Option<int> {
    if names == [] then None
    else
      var last := modified(names[|names| - 1]);
      var rest := Earliest(names[..|names| - 1], modified);
      if last.Some? && (rest.None? || last.value < rest.value) then last else rest
  }

  lemma {:induction false} EarliestIsLeast(names: seq<string>, modified: string -> Option<int>)
    ensures var r := Earliest(names, modified);
            && (r.None? <==> forall n | n in names :: modified(n).None?)
            && (r.Some? ==> exists n :: n in names && modified(n) == r)
            && (r.Some? ==> forall n | n in names && modified(n).Some? :: r.value <= modified(n).value)
  {
    if names != [] {
      var rest, last := names[..|names| - 1], names[|names| - 1];
      assert names == rest + [last];
      EarliestIsLeast(rest, modified);
    }
  }

  /** The earliest date that can be read among the newer releases of a directory that can be listed. */
  method PendingSince(listing: Option<seq<string>>, running: string, modified: string -> Option<int>) returns (since: Option<int>)
    ensures since == Earliest(Restrict(Listed(listing, running), Newer(running)), modified)
  {
    var newer := NewerReleases(listing, running);
    since := EarliestOf(newer, modified);
  }

  method EarliestOf(newer: seq<string>, modified: string -> Option<int>) returns (since: Option<int>)
    ensures since == Earliest(newer, modified)
  {
    since := None;
    for i := 0 to |newer|
      invariant since == Earliest(newer[..i], modified)
    {
      assert newer[..i + 1][..i] == newer[..i];
      var at := modified(newer[i]);
      if at.Some? && (since.None? || at.value < since.value) { since := at; }
    }
    assert newer[..|newer|] == newer;
  }
}
