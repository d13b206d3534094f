/**
 A tick from the stored records to what it plans (internal/app/demand.go and internal/app/tick.go together):
 every binding's queue is read, and what the queues answer is planned.
 */
module TickFromStore {
  import opened Basics
  import opened Sorting
  import DemandQueue
  import opened TickPlanning

  /** What a tick reads for one binding. */
  datatype Source = Source(binding: DemandQueue.Binding, store: DemandQueue.Store, reading: DemandQueue.Reading, summarised: bool)

  /** A stored record as the demand it asks for. */
  function Converted(b: DemandQueue.Binding, r: DemandQueue.Record): Demand {
    Demand(DemandQueue.DemandKey(r), DemandQueue.Age(r), b.platform)
  }

  function ConvertedAll(b: DemandQueue.Binding, records: seq<DemandQueue.Record>): (r: seq<Demand>)
    ensures |r| == |records| && forall i | 0 <= i < |r| :: r[i] == Converted(b, records[i])
  {
    seq(|records|, i requires 0 <= i < |records| => Converted(b, records[i]))
  }

  function QueueOf(b: DemandQueue.Binding, queue: DemandQueue.Queue): Queue {
    match queue
    case Bounded(records) => Fresh(ConvertedAll(b, records))
    case Unbounded(records) => Degraded(ConvertedAll(b, records))
    case _ => Unreadable
  }

  /** What a source answers, all being the list it is bounded from. */
  ghost predicate Answers(source: Source, now: int, maxAge: int, all: seq<DemandQueue.Record>, queue: Queue) {
    exists q :: DemandQueue.Queued(source.binding, source.store, source.reading, now, maxAge, all, q) && queue == QueueOf(source.binding, q)
  }

  /** For one source there is one answer. */
  lemma AnswerIsUnique(source: Source, now: int, maxAge: int, all: seq<DemandQueue.Record>, queue: Queue,
                       other: seq<DemandQueue.Record>, queue': Queue)
    requires source.store.Holding? ==> DemandQueue.UniqueIds(source.store.records)
    requires Answers(source, now, maxAge, all, queue) && Answers(source, now, maxAge, other, queue')
    ensures queue == queue'
  {
    var b, store, reading := source.binding, source.store, source.reading;
    var q :| DemandQueue.Queued(b, store, reading, now, maxAge, all, q) && queue == QueueOf(b, q);
    var p :| DemandQueue.Queued(b, store, reading, now, maxAge, other, p) && queue' == QueueOf(b, p);
    if store.Holding? {
      assert store == DemandQueue.Holding(store.records);
      DemandQueue.OrderDoesNotMatter(b, store.records, store.records, all, other, reading, now, maxAge, q, p);
    }
  }

  /** The tick cannot go on with this source: its queue or its summary cannot be read. */
  ghost predicate Fails(source: Source, now: int, maxAge: int) {
    !source.summarised || exists all :: Answers(source, now, maxAge, all, Unreadable)
  }

  ghost predicate Readable(sources: seq<Source>) {
    forall i | 0 <= i < |sources| && sources[i].store.Holding? :: DemandQueue.UniqueIds(sources[i].store.records)
  }

  /** A tick that succeeds has planned every binding's queue; one that fails has met a queue or a summary it
      could not read. */
  method Tick(instances: seq<Instance>, sources: seq<Source>, record: ExitRecord, now: int, maxAge: int)
    returns (planned: Option<seq<seq<Demand>>>, ghost queues: seq<Queue>, ghost lists: seq<seq<DemandQueue.Record>>)
    requires Readable(sources)
    ensures |queues| == |lists| == |sources|
    ensures forall i | 0 <= i < |sources| :: Answers(sources[i], now, maxAge, lists[i], queues[i])
    ensures planned.None? <==> exists i :: 0 <= i < |sources| && Fails(sources[i], now, maxAge)
    ensures planned.Some? ==>
              && |planned.value| == |sources|
              && forall i | 0 <= i < |sources| :: planned.value[i] == PlannedAt(instances, queues, record, now, i)
  {
    var read: seq<Queue> := [];
    var summarised: seq<bool> := [];
    lists := [];
    for i := 0 to |sources|
      invariant |read| == |lists| == |summarised| == i
      invariant forall k | 0 <= k < i :: Answers(sources[k], now, maxAge, lists[k], read[k]) && summarised[k] == sources[k].summarised
    {
      var source := sources[i];
      var queue, all := DemandQueue.QueuedDemands(source.binding, source.store, source.reading, now, maxAge);
      read := read + [QueueOf(source.binding, queue)];
      summarised := summarised + [source.summarised];
      lists := lists + [all];
    }
    queues := read;
    forall i | 0 <= i < |sources|
      ensures Fails(sources[i], now, maxAge) <==> read[i] == Unreadable || !summarised[i]
    {
      FailsExactly(sources[i], now, maxAge, lists[i], read[i]);
    }
    planned := PlanTick(instances, read, summarised, record, now);
  }

  lemma FailsExactly(source: Source, now: int, maxAge: int, all: seq<DemandQueue.Record>, queue: Queue)
    requires source.store.Holding? ==> DemandQueue.UniqueIds(source.store.records)
    requires Answers(source, now, maxAge, all, queue)
    ensures Fails(source, now, maxAge) <==> queue == Unreadable || !source.summarised
  {
    if other :| Answers(source, now, maxAge, other, Unreadable) {
      AnswerIsUnique(source, now, maxAge, all, queue, other, Unreadable);
    }
  }

  // --- From the records to the plan ---------------------------------------------------------------

  /** The list a queue was bounded from is in order of age, and so is what it answers. */
  lemma AnswerIsOldestFirst(source: Source, now: int, maxAge: int, all: seq<DemandQueue.Record>, queue: Queue)
    requires Answers(source, now, maxAge, all, queue)
    ensures OldestFirst(DemandsOf(queue))
  {
    var q :| DemandQueue.Queued(source.binding, source.store, source.reading, now, maxAge, all, q) && queue == QueueOf(source.binding, q);
    if queue.Fresh? && all != [] && q != DemandQueue.Bounded([]) && source.reading.Read? {
      var s := source.reading.statistics;
      DemandQueue.WithinStaysSorted(all, s.availableJobs, Max(0, s.assignedJobs - s.runningJobs));
    }
    if !queue.Unreadable? {
      assert Sorted(q.records, DemandQueue.OlderLeq);
      ConvertedIsOldestFirst(source.binding, q.records);
    }
  }

  lemma ConvertedIsOldestFirst(b: DemandQueue.Binding, records: seq<DemandQueue.Record>)
    requires Sorted(records, DemandQueue.OlderLeq)
    ensures OldestFirst(ConvertedAll(b, records))
  {
    forall m, n | 0 <= m < n < |records|
      ensures DemandQueue.Age(records[m]) <= DemandQueue.Age(records[n])
    {
      assert DemandQueue.OlderLeq(records[m], records[n]);
    }
  }

  /** The job of a stored record is free to be planned by the i-th binding. */
  ghost predicate FreeRecord(instances: seq<Instance>, queues: seq<Queue>, record: ExitRecord, now: int, i: nat, r: DemandQueue.Record)
    requires i < |queues|
  {
    Free(instances, queues, record, now, i, DemandQueue.DemandKey(r))
  }

  /** The records a binding may plan from can be read: the binding is valid, and every eligible record is
      complete. */
  ghost predicate Plans(source: Source) {
    && source.binding.Valid() && source.store.Holding? && DemandQueue.UniqueIds(source.store.records)
    && forall r | r in source.store.records && DemandQueue.Eligible(source.binding, r) :: DemandQueue.Complete(r)
  }

  /** A binding without statistics is given its whole queue, marked as lacking them. */
  lemma LackingIsDegraded(source: Source, now: int, maxAge: int, all: seq<DemandQueue.Record>, queue: Queue)
    requires Plans(source) && Answers(source, now, maxAge, all, queue) && DemandQueue.Lacking(source.reading, now, maxAge)
    ensures if all == [] then queue == Fresh([]) else queue == Degraded(ConvertedAll(source.binding, all))
    ensures forall r :: r in all <==> r in DemandQueue.Canonical(source.binding, source.store.records)
  {
    var q :| DemandQueue.Queued(source.binding, source.store, source.reading, now, maxAge, all, q) && queue == QueueOf(source.binding, q);
  }

  /** A binding whose statistics are not found, invalid, undated, ahead of the clock or too old plans one
      demand: of the newest records of its jobs the oldest that is free, and none only if none is. */
  lemma OldestStoredTricklesThrough(instances: seq<Instance>, queues: seq<Queue>, record: ExitRecord, now: int, i: nat,
                                    source: Source, maxAge: int, all: seq<DemandQueue.Record>)
    requires i < |queues| && Plans(source) && Answers(source, now, maxAge, all, queues[i])
    requires DemandQueue.Lacking(source.reading, now, maxAge)
    ensures var jobs := DemandQueue.Canonical(source.binding, source.store.records);
            var planned := PlannedAt(instances, queues, record, now, i);
            && (planned == [] <==> forall r | r in jobs :: !FreeRecord(instances, queues, record, now, i, r))
            && (planned != [] ==>
                  && |planned| == 1
                  && exists r :: r in jobs && FreeRecord(instances, queues, record, now, i, r) && planned[0] == Converted(source.binding, r)
                       && forall q | q in jobs && FreeRecord(instances, queues, record, now, i, q) :: DemandQueue.Age(r) <= DemandQueue.Age(q))
  {
    LackingIsDegraded(source, now, maxAge, all, queues[i]);
    if all != [] { DegradedPlansOldest(instances, queues, record, now, i, source, maxAge, all); }
  }

  lemma DegradedPlansOldest(instances: seq<Instance>, queues: seq<Queue>, record: ExitRecord, now: int, i: nat,
                            source: Source, maxAge: int, all: seq<DemandQueue.Record>)
    requires i < |queues| && Answers(source, now, maxAge, all, queues[i]) && queues[i] == Degraded(ConvertedAll(source.binding, all))
    ensures var planned := PlannedAt(instances, queues, record, now, i);
            && (planned == [] <==> forall r | r in all :: !FreeRecord(instances, queues, record, now, i, r))
            && (planned != [] ==>
                  && |planned| == 1
                  && exists r :: r in all && FreeRecord(instances, queues, record, now, i, r) && planned[0] == Converted(source.binding, r)
                       && forall q | q in all && FreeRecord(instances, queues, record, now, i, q) :: DemandQueue.Age(r) <= DemandQueue.Age(q))
  {
    AnswerIsOldestFirst(source, now, maxAge, all, queues[i]);
    OldestTricklesThrough(instances, queues, record, now, i);
    var b, free := source.binding, Plannable(queues[i].demands, WithheldAt(instances, queues, record, now, i));
    forall r | r in all
      ensures FreeRecord(instances, queues, record, now, i, r) <==> Converted(b, r) in free
    {
      ConvertedMembers(b, all, r);
      FreeIsNotWithheld(instances, queues, record, now, i, DemandQueue.DemandKey(r));
    }
    if free != [] {
      assert free[0] in free;
      var m := ConvertedFrom(b, all, free[0]);
      assert FreeRecord(instances, queues, record, now, i, all[m]);
    }
  }

  lemma ConvertedMembers(b: DemandQueue.Binding, records: seq<DemandQueue.Record>, r: DemandQueue.Record)
    requires r in records
    ensures Converted(b, r) in ConvertedAll(b, records)
  {
    var i :| 0 <= i < |records| && records[i] == r;
    assert ConvertedAll(b, records)[i] == Converted(b, r);
  }

  lemma ConvertedFrom(b: DemandQueue.Binding, records: seq<DemandQueue.Record>, d: Demand) returns (m: nat)
    requires d in ConvertedAll(b, records)
    ensures m < |records| && Converted(b, records[m]) == d && records[m] in records
  {
    m :| 0 <= m < |records| && ConvertedAll(b, records)[m] == d;
  }

  /** A binding that does not lack statistics is given what their budgets allow of its queue, and plans exactly
      the free ones of it. */
  lemma FreshPlansItsBudget(instances: seq<Instance>, queues: seq<Queue>, record: ExitRecord, now: int, i: nat,
                            source: Source, maxAge: int, all: seq<DemandQueue.Record>, d: Demand)
    requires i < |queues| && Plans(source) && Answers(source, now, maxAge, all, queues[i])
    requires source.reading.Read? && !DemandQueue.Lacking(source.reading, now, maxAge)
    ensures var s := source.reading.statistics;
            && DemandQueue.Lists(all, DemandQueue.Canonical(source.binding, source.store.records))
            && queues[i].Fresh? && s.availableJobs >= 0
            && (d in PlannedAt(instances, queues, record, now, i) <==>
                  exists r :: r in DemandQueue.Within(all, s.availableJobs, Max(0, s.assignedJobs - s.runningJobs))
                    && Converted(source.binding, r) == d && FreeRecord(instances, queues, record, now, i, r))
  {
    var s := source.reading.statistics;
    var q :| DemandQueue.Queued(source.binding, source.store, source.reading, now, maxAge, all, q) && queues[i] == QueueOf(source.binding, q);
    PlannedExactly(instances, queues, record, now, i, d);
    if d in DemandsOf(queues[i]) { var m := ConvertedFrom(source.binding, q.records, d); }
    forall r | r in q.records
      ensures Converted(source.binding, r) in DemandsOf(queues[i])
    {
      ConvertedMembers(source.binding, q.records, r);
    }
  }

  lemma AnswerIsDistinct(source: Source, now: int, maxAge: int, all: seq<DemandQueue.Record>, q: DemandQueue.Queue)
    requires DemandQueue.Queued(source.binding, source.store, source.reading, now, maxAge, all, q)
    requires q.Bounded? || q.Unbounded?
    ensures source.store.Holding? && DemandQueue.Distinct(q.records) && forall r | r in q.records :: r in source.store.records
  {
    if q.Bounded? && all != [] {
      var s := source.reading.statistics;
      DemandQueue.WithinStaysDistinct(all, s.availableJobs, Max(0, s.assignedJobs - s.runningJobs));
    }
  }

  lemma KeysDiffer(b: DemandQueue.Binding, records: seq<DemandQueue.Record>, stored: seq<DemandQueue.Record>, m: nat, n: nat)
    requires DemandQueue.Distinct(records) && DemandQueue.UniqueIds(stored) && forall r | r in records :: r in stored
    requires m < n < |records|
    ensures ConvertedAll(b, records)[m].key != ConvertedAll(b, records)[n].key
  {
    assert records[m] in records && records[n] in records;
  }

  /** No tick plans one demand twice for one binding. */
  lemma NoDemandTwice(instances: seq<Instance>, queues: seq<Queue>, record: ExitRecord, now: int, i: nat,
                      source: Source, maxAge: int, all: seq<DemandQueue.Record>, m: nat, n: nat)
    requires i < |queues| && Answers(source, now, maxAge, all, queues[i])
    requires source.store.Holding? ==> DemandQueue.UniqueIds(source.store.records)
    requires m < n < |PlannedAt(instances, queues, record, now, i)|
    ensures var planned := PlannedAt(instances, queues, record, now, i); planned[m].key != planned[n].key
  {
    var q :| DemandQueue.Queued(source.binding, source.store, source.reading, now, maxAge, all, q) && queues[i] == QueueOf(source.binding, q);
    if !queues[i].Degraded? {
      var places := PlannedInOrder(instances, queues, record, now, i);
      if !queues[i].Unreadable? {
        AnswerIsDistinct(source, now, maxAge, all, q);
        KeysDiffer(source.binding, q.records, source.store.records, places[m], places[n]);
      }
    }
  }
}
