/**
 How much of a shared queue one binding may claim (internal/app/demand.go, boundToOwnShare): every job its
 own durable demand already names, and beyond those the oldest jobs up to the share GitHub gave it.
 */
module OwnShare {
  import opened Basics
  import opened Sorting
  import DemandQueue

  datatype Job = Job(id: int, createdAt: int, owner: string, repository: string, runId: int, displayName: string)

  /** The part of a durable demand that names a job; an identity of zero or less is not known yet. */
  datatype DemandName = DemandName(owner: string, repository: string, runId: int, displayName: string, jobId: int)

  /** The two identities a job is recognised by: the tuple both lanes share, or REST's own number. */
  datatype Identity = Correlation(owner: string, repository: string, runId: int, displayName: string) | JobNumber(id: int)

  datatype Claim = Claimed(jobs: seq<Job>) | Failed

  function CorrelationOf(fold: string -> string, owner: string, repository: string, runId: int, displayName: string): Identity {
    Correlation(fold(owner), fold(repository), runId, displayName)
  }

  /** One of the identities of a job is in the set. */
  predicate In(fold: string -> string, j: Job, identities: set<Identity>) {
    CorrelationOf(fold, j.owner, j.repository, j.runId, j.displayName) in identities || JobNumber(j.id) in identities
  }

  /** A demand names a job by its repository, run and display name, the repository in any case, or by a number
      it already knows. */
  predicate Names(fold: string -> string, d: DemandName, j: Job) {
    || (fold(d.owner) == fold(j.owner) && fold(d.repository) == fold(j.repository) && d.runId == j.runId && d.displayName == j.displayName)
    || (d.jobId > 0 && d.jobId == j.id)
  }

  /** Some durable demand of the binding names this job. */
  predicate Vouched(fold: string -> string, demands: seq<DemandName>, j: Job) {
    exists i | 0 <= i < |demands| :: Names(fold, demands[i], j)
  }

  predicate OlderLeq(a: Job, b: Job) {
    a.createdAt < b.createdAt || (a.createdAt == b.createdAt && a.id <= b.id)
  }

  /** The work GitHub has offered this set, plus the work it has assigned that has not started; nothing on
      statistics that are not fresh. */
  function ObservedShare(s: DemandQueue.Statistics, now: int, maxAge: int): nat {
    if !DemandQueue.Fresh(s, now, maxAge) then 0
    else Max(s.availableJobs + s.assignedJobs - s.runningJobs, 0)
  }

  function CountVouched(fold: string -> string, demands: seq<DemandName>, jobs: seq<Job>): (v: nat)
    ensures v <= |jobs|
  {
    if jobs == [] then 0
    else CountVouched(fold, demands, jobs[..|jobs| - 1]) + if Vouched(fold, demands, jobs[|jobs| - 1]) then 1 else 0
  }

  /** A claim within the share: some of the jobs, all the vouched ones among them, exactly as many as the
      share and the vouched ones allow, and no contested job passed over for a younger one. */
  ghost predicate WithinShare(fold: string -> string, demands: seq<DemandName>, jobs: seq<Job>, share: nat, kept: seq<Job>) {
    && multiset(kept) <= multiset(jobs)
    && |kept| == Min(|jobs|, Max(CountVouched(fold, demands, jobs), share))
    && (forall j | j in jobs && Vouched(fold, demands, j) :: multiset(kept)[j] == multiset(jobs)[j])
    && (forall k, d | k in kept && !Vouched(fold, demands, k) && d in jobs && multiset(kept)[d] < multiset(jobs)[d] :: OlderLeq(k, d))
  }

  lemma OlderIsPreorder()
    ensures TotalPreorder(OlderLeq)
  {
    forall a, b, c
      ensures OlderLeq(a, b) || OlderLeq(b, a)
      ensures OlderLeq(a, b) && OlderLeq(b, c) ==> OlderLeq(a, c)
    {
    }
  }

  /** A store without statistics does not bound at all; an unreadable store fails; otherwise the claim is
      within the share. The durable demand is read only when the share does not cover every job. */
  method BoundToOwnShare(fold: string -> string, jobs: seq<Job>, reading: DemandQueue.Reading,
                         demands: Option<seq<DemandName>>, now: int, maxAge: int)
    returns (claim: Claim)
    ensures jobs == [] || reading.NoStore? ==> claim == Claimed(jobs)
    ensures jobs != [] && reading.StoreError? ==> claim == Failed
    ensures jobs != [] && (reading.NotFound? || reading.Read?) ==>
              var share := if DemandQueue.Lacking(reading, now, maxAge) then 0
                           else Max(reading.statistics.availableJobs + reading.statistics.assignedJobs - reading.statistics.runningJobs, 0);
              && (claim.Failed? <==> demands.None? && |jobs| > share)
              && (claim.Claimed? ==> forall known: seq<DemandName> | demands.None? || demands == Some(known) ::
                                       WithinShare(fold, known, jobs, share, claim.jobs))
  {
    if jobs == [] || reading.NoStore? { return Claimed(jobs); }
    if reading.StoreError? { return Failed; }
    var share := if reading.Read? then ObservedShare(reading.statistics, now, maxAge) else 0;
    if |jobs| <= share {
      forall known: seq<DemandName>
        ensures WithinShare(fold, known, jobs, share, jobs)
      {
        AllWithinShare(fold, known, jobs, share);
      }
      return Claimed(jobs);
    }
    if demands.None? { return Failed; }
    var kept := KeepShare(fold, demands.value, jobs, share);
    claim := Claimed(kept);
  }

  method KeepShare(fold: string -> string, demands: seq<DemandName>, jobs: seq<Job>, share: nat) returns (kept: seq<Job>)
    requires |jobs| > share
    ensures WithinShare(fold, demands, jobs, share, kept)
  {
    var identities := VouchedJobs(fold, demands);
    var vouched, contested := Partition(fold, demands, identities, jobs);
    OlderIsPreorder();
    var sorted := Sort(contested, OlderLeq);
    kept := vouched;
    var taken := 0;
    for i := 0 to |sorted|
      invariant taken <= i && kept == vouched + sorted[..taken]
      invariant taken == i && (taken == 0 || |kept| <= share)
    {
      if |kept| >= share { break; }
      kept := kept + [sorted[i]];
      taken := taken + 1;
    }
    assert |kept| == Max(|vouched|, share);
    PrefixWithinShare(fold, demands, jobs, share, vouched, contested, sorted, taken);
  }

  /** A job has one of the identities exactly when some demand names it. */
  ghost predicate SingleOut(fold: string -> string, identities: set<Identity>, demands: seq<DemandName>) {
    forall j :: In(fold, j, identities) <==> Vouched(fold, demands, j)
  }

  /** The identities the demands leave behind single out exactly the jobs some demand names. */
  method VouchedJobs(fold: string -> string, demands: seq<DemandName>) returns (identities: set<Identity>)
    ensures SingleOut(fold, identities, demands)
  {
    identities := {};
    for i := 0 to |demands|
      invariant SingleOut(fold, identities, demands[..i])
    {
      ghost var before := identities;
      var d := demands[i];
      identities := identities + {CorrelationOf(fold, d.owner, d.repository, d.runId, d.displayName)};
      if d.jobId > 0 { identities := identities + {JobNumber(d.jobId)}; }
      forall j
        ensures In(fold, j, identities) <==> Vouched(fold, demands[..i + 1], j)
      {
        assert In(fold, j, identities) <==> In(fold, j, before) || Names(fold, d, j);
        VouchedNext(fold, demands, i, j);
      }
    }
    assert demands[..|demands|] == demands;
  }

  lemma VouchedNext(fold: string -> string, demands: seq<DemandName>, i: nat, j: Job)
    requires i < |demands|
    ensures Vouched(fold, demands[..i + 1], j) <==> Vouched(fold, demands[..i], j) || Names(fold, demands[i], j)
  {
    var longer, shorter := demands[..i + 1], demands[..i];
    assert forall k | 0 <= k < i :: longer[k] == shorter[k];
    assert longer[i] == demands[i];
    if k :| 0 <= k < |shorter| && Names(fold, shorter[k], j) { assert Names(fold, longer[k], j); }
  }

  ghost predicate AllNamed(fold: string -> string, demands: seq<DemandName>, jobs: seq<Job>, named: bool) {
    forall j | j in jobs :: Vouched(fold, demands, j) == named
  }

  /** The jobs in two parts, the vouched ones and the rest. */
  ghost predicate Parted(fold: string -> string, demands: seq<DemandName>, jobs: seq<Job>, vouched: seq<Job>, contested: seq<Job>) {
    && multiset(vouched) + multiset(contested) == multiset(jobs)
    && |vouched| == CountVouched(fold, demands, jobs) && |vouched| + |contested| == |jobs|
    && AllNamed(fold, demands, vouched, true) && AllNamed(fold, demands, contested, false)
  }

  lemma PartedNext(fold: string -> string, demands: seq<DemandName>, jobs: seq<Job>, i: nat, vouched: seq<Job>, contested: seq<Job>)
    requires i < |jobs| && Parted(fold, demands, jobs[..i], vouched, contested)
    ensures Vouched(fold, demands, jobs[i]) ==> Parted(fold, demands, jobs[..i + 1], vouched + [jobs[i]], contested)
    ensures !Vouched(fold, demands, jobs[i]) ==> Parted(fold, demands, jobs[..i + 1], vouched, contested + [jobs[i]])
  {
    CountNext(fold, demands, jobs, i);
  }

  method Partition(fold: string -> string, ghost demands: seq<DemandName>, identities: set<Identity>, jobs: seq<Job>)
    returns (vouched: seq<Job>, contested: seq<Job>)
    requires SingleOut(fold, identities, demands)
    ensures Parted(fold, demands, jobs, vouched, contested)
  {
    vouched, contested := [], [];
    for i := 0 to |jobs|
      invariant Parted(fold, demands, jobs[..i], vouched, contested)
    {
      PartedNext(fold, demands, jobs, i, vouched, contested);
      assert In(fold, jobs[i], identities) <==> Vouched(fold, demands, jobs[i]);
      if In(fold, jobs[i], identities) { vouched := vouched + [jobs[i]]; } else { contested := contested + [jobs[i]]; }
    }
    assert jobs[..|jobs|] == jobs;
  }

  lemma CountNext(fold: string -> string, demands: seq<DemandName>, jobs: seq<Job>, i: nat)
    requires i < |jobs|
    ensures CountVouched(fold, demands, jobs[..i + 1])
         == CountVouched(fold, demands, jobs[..i]) + if Vouched(fold, demands, jobs[i]) then 1 else 0
    ensures multiset(jobs[..i + 1]) == multiset(jobs[..i]) + multiset{jobs[i]}
  {
    OneMore(jobs, i);
  }

  lemma OneMore<T>(s: seq<T>, i: nat)
    requires i < |s|
    ensures s[..i + 1] == s[..i] + [s[i]] && s[..i + 1][..i] == s[..i]
    ensures multiset(s[..i + 1]) == multiset(s[..i]) + multiset{s[i]}
  {
    assert s[..i + 1] == s[..i] + [s[i]];
  }

  lemma PrefixWithinShare(fold: string -> string, demands: seq<DemandName>, jobs: seq<Job>, share: nat,
                          vouched: seq<Job>, contested: seq<Job>, sorted: seq<Job>, taken: nat)
    requires |jobs| > share && Parted(fold, demands, jobs, vouched, contested)
    requires multiset(sorted) == multiset(contested) && |sorted| == |contested| && Sorted(sorted, OlderLeq)
    requires taken <= |sorted| && |vouched| + taken == Max(|vouched|, share)
    ensures WithinShare(fold, demands, jobs, share, vouched + sorted[..taken])
  {
    var kept := vouched + sorted[..taken];
    assert sorted == sorted[..taken] + sorted[taken..];
    assert multiset(jobs) == multiset(kept) + multiset(sorted[taken..]);
    forall j | j in sorted
      ensures !Vouched(fold, demands, j)
    {
      assert j in multiset(sorted);
    }
    forall j | j in jobs && Vouched(fold, demands, j)
      ensures multiset(kept)[j] == multiset(jobs)[j]
    {
      assert j !in sorted[taken..];
    }
    forall k, d | k in kept && !Vouched(fold, demands, k) && d in jobs && multiset(kept)[d] < multiset(jobs)[d]
      ensures OlderLeq(k, d)
    {
      assert k in sorted[..taken];
      assert d in multiset(sorted[taken..]);
    }
  }

  /** With no two jobs of the same number there is exactly one such claim, so the order of the listing does
      not matter. */
  lemma ShareIsUnique(fold: string -> string, demands: seq<DemandName>, jobs: seq<Job>, share: nat, a: seq<Job>, b: seq<Job>)
    requires forall i, j | 0 <= i < j < |jobs| :: jobs[i].id != jobs[j].id
    requires WithinShare(fold, demands, jobs, share, a) && WithinShare(fold, demands, jobs, share, b)
    ensures multiset(a) == multiset(b)
  {
    if multiset(a) != multiset(b) {
      var x := Extra(a, b);
      var y := Extra(b, a);
      AtMostOnce(jobs, x);
      AtMostOnce(jobs, y);
      SameNumber(jobs, x, y);
    }
  }

  lemma AllWithinShare(fold: string -> string, demands: seq<DemandName>, jobs: seq<Job>, share: nat)
    requires |jobs| <= share
    ensures WithinShare(fold, demands, jobs, share, jobs)
  {
  }

  lemma AtMostOnce(jobs: seq<Job>, j: Job)
    requires forall i, k | 0 <= i < k < |jobs| :: jobs[i].id != jobs[k].id
    ensures multiset(jobs)[j] <= 1
  {
    assert DemandQueue.Distinct(jobs);
    DemandQueue.DistinctMultiset(jobs);
  }

  lemma SameNumber(jobs: seq<Job>, x: Job, y: Job)
    requires forall i, k | 0 <= i < k < |jobs| :: jobs[i].id != jobs[k].id
    ensures x in multiset(jobs) && y in multiset(jobs) && x.id == y.id ==> x == y
  {
    assert x in multiset(jobs) ==> x in jobs;
    assert y in multiset(jobs) ==> y in jobs;
  }

  lemma SameSizeSubset(a: seq<Job>, b: seq<Job>)
    requires |a| == |b|
    ensures multiset(a) <= multiset(b) ==> multiset(a) == multiset(b)
  {
    var rest := multiset(b) - multiset(a);
    assert multiset(a) <= multiset(b) ==> multiset(b) == multiset(a) + rest;
    assert |multiset(a)| == |a| && |multiset(b)| == |b|;
  }

  /** Of two different collections of the same size, each has something more of than the other. */
  lemma Extra(a: seq<Job>, b: seq<Job>) returns (x: Job)
    requires |a| == |b| && multiset(a) != multiset(b)
    ensures multiset(a)[x] > multiset(b)[x]
  {
    SameSizeSubset(a, b);
    x :| multiset(a)[x] > multiset(b)[x];
  }
}
