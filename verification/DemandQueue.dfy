/**
 The queue of one binding (internal/app/demand.go, QueuedDemands): the newest request of every logical
 job, oldest job first, bounded by what GitHub says it has offered and assigned.
 */
module DemandQueue {
  import opened Basics
  import opened Sorting

  datatype Record = Record(requestId: int, available: bool, owner: string, repository: string, labels: seq<string>,
                           runId: int, attempt: int, logicalKey: string,
                           queueTime: Option<int>, firstQueueTime: Option<int>, updatedAt: int)

  datatype Platform = Linux | MacOS | NoPlatform

  /** A binding takes the repositories it targets, all of them if it names none, and the jobs that carry
      every label it requires. Folding of case is a parameter of the binding. */
  datatype Binding = Binding(storeKey: int, scaleSetId: int, profile: string, route: string, platform: Platform,
                             targets: seq<string>, requiredLabels: seq<string>, fold: string -> string)
  {
    predicate Valid() {
      && (if storeKey > 0 then storeKey else scaleSetId) > 0 && scaleSetId > 0 && profile != "" && route != ""
      && platform != NoPlatform
    }
  }

  /** The store of demand records: absent, failing, or holding these. */
  datatype Store = Missing | Failing | Holding(records: seq<Record>)

  datatype Statistics = Statistics(messageId: int, availableJobs: int, acquiredJobs: int, assignedJobs: int, runningJobs: int,
                                   registered: int, busy: int, idle: int, observedAt: Option<int>)

  /** What the statistics store answered. */
  datatype Reading = NoStore | NotFound | StoreError | Read(statistics: Statistics)

  /** A queue within the statistics' bounds; the whole queue, when there are no statistics to bound it by;
      or no queue at all. */
  datatype Queue = Bounded(records: seq<Record>) | Unbounded(records: seq<Record>) | Uncertain | Unreadable | Invalid

  const PREASSIGNED_FLOOR: int := 0x4000_0000_0000_0000

  predicate Preassigned(r: Record) { r.requestId >= PREASSIGNED_FLOOR }

  function CreatedAt(r: Record): Option<int> {
    if r.firstQueueTime.Some? then r.firstQueueTime else r.queueTime
  }

  predicate Accepts(b: Binding, repo: string) {
    b.targets == [] || exists i | 0 <= i < |b.targets| :: b.fold(b.targets[i]) == b.fold(repo)
  }

  predicate AcceptsLabels(b: Binding, labels: seq<string>) {
    forall i | 0 <= i < |b.requiredLabels| ::
      exists j | 0 <= j < |labels| :: b.fold(labels[j]) == b.fold(b.requiredLabels[i])
  }

  predicate Eligible(b: Binding, r: Record) {
    r.available && Accepts(b, r.owner + "/" + r.repository) && AcceptsLabels(b, r.labels)
  }

  predicate Complete(r: Record) {
    r.requestId > 0 && r.runId > 0 && r.owner != "" && r.repository != "" && CreatedAt(r).Some?
  }

  /** The logical job of a record, or the request itself when it carries none. */
  function KeyOf(r: Record): string {
    if r.logicalKey != "" then r.logicalKey else "request:" + (if r.requestId < 0 then "-" else "") + Digits(Max(r.requestId, -r.requestId))
  }

  /** The identity of a demand, which an instance bound to it carries too. */
  datatype Key = Key(repo: string, runId: int, attempt: int, jobId: int)

  function DemandKey(r: Record): Key {
    Key(r.owner + "/" + r.repository, r.runId, if r.attempt <= 0 then 1 else r.attempt, r.requestId)
  }

  predicate Supersedes(a: Record, b: Record) {
    a.updatedAt > b.updatedAt || (a.updatedAt == b.updatedAt && a.requestId > b.requestId)
  }

  function Age(r: Record): int { if CreatedAt(r).Some? then CreatedAt(r).value else 0 }

  /** Older first, then by request. */
  predicate OlderLeq(a: Record, b: Record) {
    Age(a) < Age(b) || (Age(a) == Age(b) && a.requestId <= b.requestId)
  }

  // --- What the queue is ---------------------------------------------------------------------

  /** Request identities do not repeat within one read. */
  ghost predicate UniqueIds(records: seq<Record>) {
    forall a, b | a in records && b in records && a.requestId == b.requestId :: a == b
  }

  /** The newest eligible record of every logical job. */
  ghost function Canonical(b: Binding, records: seq<Record>): set<Record> {
    set r | r in records && Eligible(b, r)
            && forall q | q in records && Eligible(b, q) && KeyOf(q) == KeyOf(r) :: !Supersedes(q, r)
  }

  ghost predicate Distinct<T>(s: seq<T>) {
    forall i, j | 0 <= i < j < |s| :: s[i] != s[j]
  }

  /** The one list of a set's records in order of age. */
  ghost predicate Lists(all: seq<Record>, members: set<Record>) {
    && Distinct(all) && Sorted(all, OlderLeq)
    && (forall r :: r in all <==> r in members)
  }

  /** The oldest records of each class, as many as its budget allows. */
  function Within(all: seq<Record>, normal: nat, preassigned: nat): seq<Record> {
    if all == [] then []
    else if Preassigned(all[0]) then
      if preassigned == 0 then Within(all[1..], normal, 0)
      else [all[0]] + Within(all[1..], normal, preassigned - 1)
    else
      if normal == 0 then Within(all[1..], 0, preassigned)
      else [all[0]] + Within(all[1..], normal - 1, preassigned)
  }

  predicate ValidStatistics(s: Statistics) {
    && s.messageId > 0 && s.availableJobs >= 0 && s.acquiredJobs >= 0 && s.assignedJobs >= 0 && s.runningJobs >= 0
    && s.registered >= 0 && s.busy >= 0 && s.idle >= 0
  }

  /** Neither missing, nor from the future, nor too old. */
  predicate Fresh(s: Statistics, now: int, maxAge: int) {
    ValidStatistics(s) && s.observedAt.Some? && s.observedAt.value <= now && now - s.observedAt.value <= maxAge
  }

  /** There are no statistics to bound a queue by: none were found, or they are invalid, undated, ahead of the
      clock or too old. */
  predicate Lacking(reading: Reading, now: int, maxAge: int) {
    || reading.NotFound?
    || (reading.Read? &&
        var s := reading.statistics;
        || s.messageId <= 0 || s.availableJobs < 0 || s.acquiredJobs < 0 || s.assignedJobs < 0 || s.runningJobs < 0
        || s.registered < 0 || s.busy < 0 || s.idle < 0
        || s.observedAt.None? || s.observedAt.value > now || s.observedAt.value + maxAge < now)
  }

  /** What is answered for a queue, given the statistics. */
  function Answer(all: seq<Record>, reading: Reading, now: int, maxAge: int): Queue {
    if all == [] then Bounded([])
    else
      match reading
      case NoStore => Uncertain
      case NotFound => Unbounded(all)
      case StoreError => Unreadable
      case Read(s) =>
        if !Fresh(s, now, maxAge) then Unbounded(all)
        else Bounded(Within(all, s.availableJobs, Max(0, s.assignedJobs - s.runningJobs)))
  }

  // --- The operation -------------------------------------------------------------------------

  lemma OlderIsPreorder()
    ensures TotalPreorder(OlderLeq)
  {
    forall a, b, c
      ensures OlderLeq(a, b) || OlderLeq(b, a)
      ensures OlderLeq(a, b) && OlderLeq(b, c) ==> OlderLeq(a, c)
    {
    }
  }

  /** An invalid binding and a missing or failing store are refused at once, and an eligible record that is
      incomplete makes the whole queue uncertain; otherwise the answer is the one determined by the list of
      canonical records. */
  method QueuedDemands(b: Binding, store: Store, reading: Reading, now: int, maxAge: int)
    returns (queue: Queue, ghost all: seq<Record>)
    requires store.Holding? ==> UniqueIds(store.records)
    ensures store.Missing? || !b.Valid() <==> queue == Invalid
    ensures b.Valid() && store.Failing? ==> queue == Unreadable
    ensures b.Valid() && store.Holding? && (exists r :: r in store.records && Eligible(b, r) && !Complete(r)) ==> queue == Uncertain
    ensures Queued(b, store, reading, now, maxAge, all, queue)
    // A queue of complete records comes back whole and unbounded exactly when there are no statistics for it.
    ensures b.Valid() && store.Holding? && (forall r | r in store.records && Eligible(b, r) :: Complete(r))
            && (exists r :: r in store.records && Eligible(b, r)) ==>
              && (queue == Unbounded(all) <==> Lacking(reading, now, maxAge)) && (queue.Unbounded? ==> queue == Unbounded(all))
              && (queue == Uncertain <==> reading.NoStore?) && (queue == Unreadable <==> reading.StoreError?)
  {
    all := [];
    if store.Missing? || !b.Valid() { return Invalid, all; }
    if store.Failing? { return Unreadable, all; }
    var records := store.records;
    var complete, canonical := NewestPerJob(b, records);
    if !complete { return Uncertain, all; }
    var selected := ValuesOf(b, records, canonical);
    OlderIsPreorder();
    var sorted := Sort(selected, OlderLeq);
    SortedLists(selected, sorted, Canonical(b, records));
    all := sorted;
    queue := Bound(sorted, reading, now, maxAge);
    if exists r :: r in records && Eligible(b, r) { UnboundedExactly(b, store, reading, now, maxAge, all, queue); }
  }

  /** What the queue of a binding is, all being the list it is bounded from. */
  ghost predicate Queued(b: Binding, store: Store, reading: Reading, now: int, maxAge: int, all: seq<Record>, queue: Queue) {
    if store.Missing? || !b.Valid() then queue == Invalid
    else if store.Failing? then queue == Unreadable
    else if exists r :: r in store.records && Eligible(b, r) && !Complete(r) then queue == Uncertain
    else Lists(all, Canonical(b, store.records)) && queue == Answer(all, reading, now, maxAge)
  }

  /** What the queue of a binding with something eligible, all of it complete, is answered. */
  lemma UnboundedExactly(b: Binding, store: Store, reading: Reading, now: int, maxAge: int, all: seq<Record>, queue: Queue)
    requires Queued(b, store, reading, now, maxAge, all, queue) && b.Valid() && store.Holding? && UniqueIds(store.records)
    requires (forall r | r in store.records && Eligible(b, r) :: Complete(r)) && exists r :: r in store.records && Eligible(b, r)
    ensures queue == Unbounded(all) <==> Lacking(reading, now, maxAge)
    ensures queue.Unbounded? ==> queue == Unbounded(all)
    ensures queue == Uncertain <==> reading.NoStore?
    ensures queue == Unreadable <==> reading.StoreError?
    ensures all != [] && forall r :: r in all <==> r in Canonical(b, store.records)
  {
    var q :| q in store.records && Eligible(b, q);
    assert exists r :: r in Canonical(b, store.records) by { OneRecordPerJob(b, store.records, q); }
    var r :| r in Canonical(b, store.records);
    assert r in all;
  }

  method Bound(sorted: seq<Record>, reading: Reading, now: int, maxAge: int) returns (queue: Queue)
    ensures queue == Answer(sorted, reading, now, maxAge)
  {
    if sorted == [] { return Bounded([]); }
    match reading {
      case NoStore => return Uncertain;
      case NotFound => return Unbounded(sorted);
      case StoreError => return Unreadable;
      case Read(s) =>
        if !Fresh(s, now, maxAge) { return Unbounded(sorted); }
        var bounded := TakeWithin(sorted, s.availableJobs, s.assignedJobs - s.runningJobs);
        queue := Bounded(bounded);
    }
  }

  /** What the map of the first loop holds after some of the records. */
  ghost predicate NewestOf(b: Binding, records: seq<Record>, canonical: map<string, Record>) {
    && (forall k | k in canonical :: canonical[k] in records && Eligible(b, canonical[k]) && KeyOf(canonical[k]) == k)
    && (forall q | q in records && Eligible(b, q) :: KeyOf(q) in canonical && !Supersedes(q, canonical[KeyOf(q)]))
  }

  method NewestPerJob(b: Binding, records: seq<Record>) returns (complete: bool, canonical: map<string, Record>)
    ensures complete <==> forall r | r in records && Eligible(b, r) :: Complete(r)
    ensures complete ==> NewestOf(b, records, canonical)
  {
    canonical := map[];
    for i := 0 to |records|
      invariant NewestOf(b, records[..i], canonical)
      invariant forall r | r in records[..i] && Eligible(b, r) :: Complete(r)
    {
      var r := records[i];
      assert records[..i + 1] == records[..i] + [r];
      if !Eligible(b, r) { continue; }
      if !Complete(r) { return false, canonical; }
      var key := KeyOf(r);
      if key !in canonical || Supersedes(r, canonical[key]) { canonical := canonical[key := r]; }
    }
    assert records[..|records|] == records;
    complete := true;
  }

  /** The map's values, in whatever order the map is walked. */
  method ValuesOf(b: Binding, records: seq<Record>, canonical: map<string, Record>) returns (selected: seq<Record>)
    requires UniqueIds(records) && NewestOf(b, records, canonical)
    ensures Distinct(selected) && forall r :: r in selected <==> r in Canonical(b, records)
  {
    selected := [];
    var keys := canonical.Keys;
    while keys != {}
      invariant keys <= canonical.Keys
      invariant forall r :: r in selected <==> exists k :: k in canonical && k !in keys && canonical[k] == r
      invariant Distinct(selected)
      decreases |keys|
    {
      var key :| key in keys;
      assert canonical[key] !in selected by {
        assert forall k | k in canonical && k != key :: KeyOf(canonical[k]) != KeyOf(canonical[key]);
      }
      selected := selected + [canonical[key]];
      keys := keys - {key};
    }
    MapHoldsCanonical(b, records, canonical);
  }

  lemma MapHoldsCanonical(b: Binding, records: seq<Record>, canonical: map<string, Record>)
    requires UniqueIds(records) && NewestOf(b, records, canonical)
    ensures forall r :: (exists k :: k in canonical && canonical[k] == r) <==> r in Canonical(b, records)
  {
    forall r | r in Canonical(b, records)
      ensures KeyOf(r) in canonical && canonical[KeyOf(r)] == r
    {
      var q := canonical[KeyOf(r)];
      assert !Supersedes(q, r) && !Supersedes(r, q);
    }
  }

  lemma SortedLists(selected: seq<Record>, sorted: seq<Record>, members: set<Record>)
    requires multiset(sorted) == multiset(selected) && Sorted(sorted, OlderLeq) && Distinct(selected)
    requires forall r :: r in selected <==> r in members
    ensures Lists(sorted, members)
  {
    DistinctMultiset(selected);
    MultisetDistinct(sorted);
    assert forall r :: r in sorted <==> r in multiset(sorted);
    assert forall r :: r in selected <==> r in multiset(selected);
  }

  lemma {:induction false} DistinctMultiset<T>(s: seq<T>)
    requires Distinct(s)
    ensures forall x :: multiset(s)[x] <= 1
  {
    if s != [] {
      DistinctMultiset(s[1..]);
      assert s == [s[0]] + s[1..];
      assert s[0] !in multiset(s[1..]);
    }
  }

  lemma {:induction false} MultisetDistinct<T>(s: seq<T>)
    requires forall x :: multiset(s)[x] <= 1
    ensures Distinct(s)
  {
    if s != [] {
      assert s == [s[0]] + s[1..];
      forall x
        ensures multiset(s[1..])[x] <= 1 && (x == s[0] ==> multiset(s[1..])[x] == 0)
      {
        assert multiset(s)[x] == multiset{s[0]}[x] + multiset(s[1..])[x];
      }
      MultisetDistinct(s[1..]);
      assert forall j | 1 <= j < |s| :: s[j] in multiset(s[1..]);
    }
  }

  /** The two budgets, spent from the oldest record on. */
  method TakeWithin(all: seq<Record>, available: int, waiting: int) returns (bounded: seq<Record>)
    requires available >= 0
    ensures bounded == Within(all, available, Max(0, waiting))
  {
    var normal, preassigned := available, if waiting < 0 then 0 else waiting;
    bounded := [];
    ghost var whole := Within(all, normal, preassigned);
    assert all[0..] == all;
    for i := 0 to |all|
      invariant normal >= 0 && preassigned >= 0
      invariant whole == bounded + Within(all[i..], normal, preassigned)
    {
      WithinNext(all, i, normal, preassigned);
      if Preassigned(all[i]) {
        if preassigned == 0 { continue; }
        preassigned := preassigned - 1;
      } else {
        if normal == 0 { continue; }
        normal := normal - 1;
      }
      Reassociate(bounded, all[i], Within(all[i + 1..], normal, preassigned));
      bounded := bounded + [all[i]];
    }
    assert all[|all|..] == [];
  }

  lemma WithinNext(all: seq<Record>, i: nat, normal: nat, preassigned: nat)
    requires i < |all|
    ensures var x := all[i];
            Within(all[i..], normal, preassigned) ==
            if Preassigned(x) then
              if preassigned == 0 then Within(all[i + 1..], normal, 0)
              else [x] + Within(all[i + 1..], normal, preassigned - 1)
            else
              if normal == 0 then Within(all[i + 1..], 0, preassigned)
              else [x] + Within(all[i + 1..], normal - 1, preassigned)
  {
    assert all[i..][0] == all[i] && all[i..][1..] == all[i + 1..];
  }

  lemma Reassociate<T>(a: seq<T>, x: T, b: seq<T>)
    ensures a + ([x] + b) == (a + [x]) + b
  {
  }

  // --- What is promised of it ----------------------------------------------------------------

  /** One record per logical job: every eligible record's job is represented, by a record nothing eligible
      of that job supersedes, and by no other. */
  lemma OneRecordPerJob(b: Binding, records: seq<Record>, q: Record)
    requires UniqueIds(records) && q in records && Eligible(b, q)
    ensures exists r :: r in Canonical(b, records) && KeyOf(r) == KeyOf(q)
              && (r == q || r.updatedAt > q.updatedAt || (r.updatedAt == q.updatedAt && r.requestId > q.requestId))
    ensures forall r, r' | r in Canonical(b, records) && r' in Canonical(b, records) && KeyOf(r) == KeyOf(r') :: r == r'
  {
    var best := q;
    for i := 0 to |records|
      invariant best in records && Eligible(b, best) && KeyOf(best) == KeyOf(q) && (best == q || Supersedes(best, q))
      invariant forall j | 0 <= j < i && Eligible(b, records[j]) && KeyOf(records[j]) == KeyOf(q) :: !Supersedes(records[j], best)
    {
      if Eligible(b, records[i]) && KeyOf(records[i]) == KeyOf(q) && Supersedes(records[i], best) { best := records[i]; }
    }
    assert best in Canonical(b, records);
    forall r, r' | r in Canonical(b, records) && r' in Canonical(b, records) && KeyOf(r) == KeyOf(r')
      ensures r == r'
    {
      assert !Supersedes(r, r') && !Supersedes(r', r);
    }
  }

  /** Two complete records are of one job exactly when they carry the same logical key, or are the same request
      and carry none. */
  lemma SameJobExactly(r: Record, q: Record)
    requires Complete(r) && Complete(q) && (r.logicalKey == "" <==> q.logicalKey == "")
    ensures KeyOf(r) == KeyOf(q) <==> if r.logicalKey != "" then r.logicalKey == q.logicalKey else r.requestId == q.requestId
  {
    if r.logicalKey == "" && KeyOf(r) == KeyOf(q) {
      assert KeyOf(r) == "request:" + Digits(r.requestId) && KeyOf(q) == "request:" + Digits(q.requestId);
      assert KeyOf(r)[8..] == Digits(r.requestId) && KeyOf(q)[8..] == Digits(q.requestId);
      DigitsDiffer(r.requestId, q.requestId);
    }
  }

  /** The list a queue is bounded from holds available records of the binding's targets that carry its labels,
      and is in the order of their first queue times, or of their queue times where there is no first one, and
      then of their requests. */
  lemma ListedInOrder(b: Binding, records: seq<Record>, all: seq<Record>, m: nat, n: nat)
    requires Lists(all, Canonical(b, records)) && m <= n < |all|
    requires forall r | r in records && Eligible(b, r) :: Complete(r)
    ensures var r, q := all[m], all[n];
            && r in records && r.available
            && (b.targets == [] || exists t :: t in b.targets && b.fold(t) == b.fold(r.owner + "/" + r.repository))
            && (forall l | l in b.requiredLabels :: exists c :: c in r.labels && b.fold(c) == b.fold(l))
            && (r.firstQueueTime.Some? || r.queueTime.Some?) && (q.firstQueueTime.Some? || q.queueTime.Some?)
            && var since, until := if r.firstQueueTime.Some? then r.firstQueueTime.value else r.queueTime.value,
                                   if q.firstQueueTime.Some? then q.firstQueueTime.value else q.queueTime.value;
            && since <= until && (since == until ==> r.requestId <= q.requestId)
  {
    var r, q := all[m], all[n];
    assert r in all && q in all;
    if m < n { assert OlderLeq(r, q); }
    EligibleLabels(b, r);
    if b.targets != [] {
      var i :| 0 <= i < |b.targets| && b.fold(b.targets[i]) == b.fold(r.owner + "/" + r.repository);
      assert b.targets[i] in b.targets;
    }
  }

  lemma EligibleLabels(b: Binding, r: Record)
    requires Eligible(b, r)
    ensures forall l | l in b.requiredLabels :: exists c :: c in r.labels && b.fold(c) == b.fold(l)
  {
    forall l | l in b.requiredLabels
      ensures exists c :: c in r.labels && b.fold(c) == b.fold(l)
    {
      var i :| 0 <= i < |b.requiredLabels| && b.requiredLabels[i] == l;
      var j :| 0 <= j < |r.labels| && b.fold(r.labels[j]) == b.fold(b.requiredLabels[i]);
      assert r.labels[j] in r.labels;
    }
  }

  lemma ListIsUnique(all: seq<Record>, other: seq<Record>, members: set<Record>, records: seq<Record>)
    requires Lists(all, members) && Lists(other, members) && UniqueIds(records)
    requires forall r | r in members :: r in records
    ensures all == other
  {
    DistinctMultiset(all);
    DistinctMultiset(other);
    forall r
      ensures multiset(all)[r] == multiset(other)[r]
    {
      assert r in all <==> r in multiset(all);
      assert r in other <==> r in multiset(other);
    }
    assert multiset(all) == multiset(other);
    SortedIsUnique(all, other, OlderLeq);
  }

  lemma SameMembers(records: seq<Record>, shuffled: seq<Record>)
    requires multiset(records) == multiset(shuffled)
    ensures forall r :: r in records <==> r in shuffled
  {
    forall r
      ensures r in records <==> r in shuffled
    {
      assert r in records <==> r in multiset(records);
      assert r in shuffled <==> r in multiset(shuffled);
    }
  }

  /** The queue does not depend on the order the store returned the records in. */
  lemma OrderDoesNotMatter(b: Binding, records: seq<Record>, shuffled: seq<Record>, all: seq<Record>, other: seq<Record>,
                           reading: Reading, now: int, maxAge: int, queue: Queue, queue': Queue)
    requires UniqueIds(records) && multiset(records) == multiset(shuffled)
    requires Queued(b, Holding(records), reading, now, maxAge, all, queue)
    requires Queued(b, Holding(shuffled), reading, now, maxAge, other, queue')
    ensures queue == queue'
  {
    SameMembers(records, shuffled);
    if b.Valid() && forall r | r in records && Eligible(b, r) :: Complete(r) {
      assert Canonical(b, records) == Canonical(b, shuffled);
      ListIsUnique(all, other, Canonical(b, records), records);
    }
  }

  /** The records of one class, in order. */
  function OfClass(all: seq<Record>, preassigned: bool): seq<Record> {
    if all == [] then []
    else if (all[0].requestId >= 0x4000_0000_0000_0000) == preassigned then [all[0]] + OfClass(all[1..], preassigned)
    else OfClass(all[1..], preassigned)
  }

  ghost predicate Subsequence<T>(a: seq<T>, b: seq<T>) {
    || a == []
    || (b != [] && ((a[0] == b[0] && Subsequence(a[1..], b[1..])) || Subsequence(a, b[1..])))
  }

  lemma {:induction false} WithinIsSubsequence(all: seq<Record>, normal: nat, preassigned: nat)
    ensures Subsequence(Within(all, normal, preassigned), all)
    decreases |all|
  {
    if all != [] {
      var pre := Preassigned(all[0]);
      var taken := if pre then preassigned > 0 else normal > 0;
      var n, p := if taken && !pre then normal - 1 else normal, if taken && pre then preassigned - 1 else preassigned;
      WithinIsSubsequence(all[1..], n, p);
      var rest := Within(all[1..], n, p);
      assert ([all[0]] + rest)[1..] == rest;
    }
  }

  /** The bounded list is in order of age too. */
  lemma {:induction false} WithinStaysSorted(all: seq<Record>, normal: nat, preassigned: nat)
    requires Sorted(all, OlderLeq)
    ensures Sorted(Within(all, normal, preassigned), OlderLeq)
    ensures forall r | r in Within(all, normal, preassigned) :: r in all
    decreases |all|
  {
    if all != [] {
      var pre := Preassigned(all[0]);
      var taken := if pre then preassigned > 0 else normal > 0;
      var n, p := if taken && !pre then normal - 1 else normal, if taken && pre then preassigned - 1 else preassigned;
      WithinStaysSorted(all[1..], n, p);
      var rest := Within(all[1..], n, p);
      forall j | 0 <= j < |rest|
        ensures OlderLeq(all[0], rest[j])
      {
        assert rest[j] in all[1..];
      }
    }
  }

  lemma {:induction false} WithinStaysDistinct(all: seq<Record>, normal: nat, preassigned: nat)
    requires Distinct(all)
    ensures Distinct(Within(all, normal, preassigned))
    ensures forall r | r in Within(all, normal, preassigned) :: r in all
    decreases |all|
  {
    if all != [] {
      var pre := Preassigned(all[0]);
      var taken := if pre then preassigned > 0 else normal > 0;
      var n, p := if taken && !pre then normal - 1 else normal, if taken && pre then preassigned - 1 else preassigned;
      WithinStaysDistinct(all[1..], n, p);
      assert all[0] !in all[1..];
      assert Distinct([all[0]] + Within(all[1..], n, p));
    }
  }

  /** Of each class exactly the oldest are kept, as many as its budget allows. */
  lemma {:induction false} OldestWithinBudget(all: seq<Record>, normal: nat, preassigned: nat, class_: bool)
    ensures var budget := if class_ then preassigned else normal;
            OfClass(Within(all, normal, preassigned), class_)
            == OfClass(all, class_)[..Min(budget, |OfClass(all, class_)|)]
    decreases |all|
  {
    if all != [] {
      var pre := Preassigned(all[0]);
      var taken := if pre then preassigned > 0 else normal > 0;
      var n, p := if taken && !pre then normal - 1 else normal, if taken && pre then preassigned - 1 else preassigned;
      OldestWithinBudget(all[1..], n, p, class_);
      var rest := Within(all[1..], n, p);
      assert ([all[0]] + rest)[1..] == rest;
      PrefixGrows(all[0], OfClass(all[1..], class_), if class_ then p else n);
    }
  }

  lemma PrefixGrows<T>(x: T, s: seq<T>, k: nat)
    ensures ([x] + s)[..Min(k + 1, |s| + 1)] == [x] + s[..Min(k, |s|)]
  {
  }
}
