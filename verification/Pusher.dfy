/**
 The pusher collects messages into batches and flushes each batch in a goroutine of its own.
 A flush makes two store calls, so the calls of several flushes may interleave.
 */
module Pusher {
  import opened Tickets
  import opened StoreSpec
  import opened Flush
  import opened Sequences

  /** What the select loop of the pusher sees, until its context is cancelled. */
  datatype Event = Receive(m: Msg) | Tick

  /** A started flush: what it will delete and what it will update. */
  datatype Flight = Flight(dels: seq<TicketId>, upds: seq<UpdateSet>)

  /** The batch being collected and the batches flushed so far, oldest first. */
  datatype Progress = Progress(batch: seq<Msg>, flushed: seq<seq<Msg>>)

  const IDLE := Progress([], [])

  function Flushed(p: Progress): Progress {
    if p.batch == [] then p else Progress([], p.flushed + [p.batch])
  }

  function After(p: Progress, e: Event, capacity: nat): Progress {
    match e
    case Receive(m) =>
      var q := p.(batch := p.batch + [m]);
      if |q.batch| >= capacity then Flushed(q) else q
    case Tick => Flushed(p)
  }

  function AfterAll(events: seq<Event>, capacity: nat): Progress {
    if events == [] then IDLE
    else After(AfterAll(events[..|events| - 1], capacity), events[|events| - 1], capacity)
  }

  /** The batches of a whole run, the final one included. */
  function Batches(events: seq<Event>, capacity: nat): seq<seq<Msg>> {
    Flushed(AfterAll(events, capacity)).flushed
  }

  function Received(events: seq<Event>): seq<Msg> {
    if events == [] then []
    else
      var e := events[|events| - 1];
      Received(events[..|events| - 1]) + if e.Receive? then [e.m] else []
  }

  function FlightOf(batch: seq<Msg>): Flight {
    Flight(Deletes(batch), Updates(batch))
  }

  class Pusher {
    const capacity: nat
    var batch: seq<Msg>
    /** The flushes started, oldest first. */
    var flights: seq<Flight>
    ghost var flushed: seq<seq<Msg>>

    ghost predicate Valid()
      reads this
    {
      |flights| == |flushed| && forall i :: 0 <= i < |flights| ==> flights[i] == FlightOf(flushed[i])
    }

    ghost function State(): Progress
      reads this
    {
      Progress(batch, flushed)
    }

    constructor (workers: nat)
      ensures Valid() && State() == IDLE && capacity == workers * 2
    {
      capacity := workers * 2;
      batch, flights, flushed := [], [], [];
    }

    method Flush()
      requires Valid()
      modifies this
      ensures Valid() && State() == Flushed(old(State()))
    {
      if |batch| == 0 {
        return;
      }
      var dels, upds := Split(batch);
      flushed := flushed + [batch];
      batch := [];
      flights := flights + [Flight(dels, upds)];
    }

    /** The select loop, then the final flush. */
    method Run(events: seq<Event>)
      requires Valid() && State() == IDLE
      modifies this
      ensures Valid() && batch == [] && flushed == Batches(events, capacity)
    {
      for i := 0 to |events|
        invariant Valid() && State() == AfterAll(events[..i], capacity)
      {
        assert events[..i + 1][..i] == events[..i];
        match events[i] {
          case Receive(m) =>
            batch := batch + [m];
            if |batch| >= capacity {
              Flush();
            }
          case Tick =>
            Flush();
        }
      }
      assert events[..|events|] == events;
      Flush();
    }
  }

  function Collected(p: Progress): seq<Msg> {
    Flatten(p.flushed) + p.batch
  }

  /** The open batch is below the capacity, and flushed ones are not empty and within it. */
  ghost predicate WithinCapacity(p: Progress, capacity: nat) {
    |p.batch| < capacity && forall i :: 0 <= i < |p.flushed| ==> 0 < |p.flushed[i]| <= capacity
  }

  lemma FlushKeepsMessages(p: Progress)
    ensures Collected(Flushed(p)) == Collected(p)
  {
    FlattenSnoc(p.flushed, p.batch);
  }

  lemma AfterAddsMessage(p: Progress, e: Event, capacity: nat)
    ensures Collected(After(p, e, capacity)) == Collected(p) + if e.Receive? then [e.m] else []
  {
    FlushKeepsMessages(p);
    if e.Receive? {
      var q := p.(batch := p.batch + [e.m]);
      FlushKeepsMessages(q);
      assert Collected(q) == Collected(p) + [e.m];
    }
  }

  lemma {:induction false} CollectedIsReceived(events: seq<Event>, capacity: nat)
    ensures Collected(AfterAll(events, capacity)) == Received(events)
  {
    if events != [] {
      var prior, e := events[..|events| - 1], events[|events| - 1];
      CollectedIsReceived(prior, capacity);
      AfterAddsMessage(AfterAll(prior, capacity), e, capacity);
    }
  }

  lemma {:induction false} BatchesWithinCapacity(events: seq<Event>, capacity: nat)
    requires capacity > 0
    ensures WithinCapacity(AfterAll(events, capacity), capacity)
  {
    if events != [] {
      BatchesWithinCapacity(events[..|events| - 1], capacity);
      AfterWithinCapacity(AfterAll(events[..|events| - 1], capacity), events[|events| - 1], capacity);
    }
  }

  lemma AfterWithinCapacity(p: Progress, e: Event, capacity: nat)
    requires capacity > 0 && WithinCapacity(p, capacity)
    ensures WithinCapacity(After(p, e, capacity), capacity)
  {
  }

  /** Each received message is in exactly one batch, in order, and no batch outgrows the capacity. */
  lemma EveryMessageFlushedOnce(events: seq<Event>, capacity: nat)
    requires capacity > 0
    ensures Flatten(Batches(events, capacity)) == Received(events)
    ensures forall i :: 0 <= i < |Batches(events, capacity)| ==> 0 < |Batches(events, capacity)[i]| <= capacity
  {
    var p := AfterAll(events, capacity);
    CollectedIsReceived(events, capacity);
    BatchesWithinCapacity(events, capacity);
    FlushKeepsMessages(p);
    assert Collected(Flushed(p)) == Flatten(Flushed(p).flushed);
  }

  // ----- When a batch ends -----

  /** Once the ticker has fired, everything received has been flushed. */
  lemma TickFlushesAll(events: seq<Event>, capacity: nat)
    requires capacity > 0
    ensures var p := AfterAll(events + [Tick], capacity);
            p.batch == [] && Flatten(p.flushed) == Received(events)
  {
    assert (events + [Tick])[..|events|] == events;
    CollectedIsReceived(events, capacity);
    AfterAddsMessage(AfterAll(events, capacity), Tick, capacity);
  }

  /** Batch k ended with everything received by event n - 1, which was a tick or had filled it. */
  ghost predicate EndsWith(events: seq<Event>, flushed: seq<seq<Msg>>, capacity: nat, k: nat, n: nat)
    requires k < |flushed|
  {
    && 0 < n <= |events|
    && (events[n - 1].Tick? || |flushed[k]| == capacity)
    && Flatten(flushed[..k + 1]) == Received(events[..n])
  }

  /** Before the final flush, a batch ends only when it is full or at a tick. */
  lemma {:induction false} BatchEnds(events: seq<Event>, capacity: nat, k: nat) returns (n: nat)
    requires capacity > 0 && k < |AfterAll(events, capacity).flushed|
    ensures EndsWith(events, AfterAll(events, capacity).flushed, capacity, k, n)
  {
    var prior, e := events[..|events| - 1], events[|events| - 1];
    var before, after := AfterAll(prior, capacity), AfterAll(events, capacity);
    if k < |before.flushed| {
      n := BatchEnds(prior, capacity, k);
      assert after.flushed[..k + 1] == before.flushed[..k + 1];
      assert prior[..n] == events[..n];
    } else {
      n := |events|;
      BatchesWithinCapacity(prior, capacity);
      CollectedIsReceived(events, capacity);
      assert after.flushed[..k + 1] == after.flushed;
      assert events[..n] == events;
    }
  }

  /** And the final flush, if it starts one, takes what is left. */
  lemma LastBatchEnds(events: seq<Event>, capacity: nat)
    requires capacity > 0
    ensures var p := AfterAll(events, capacity);
            && Batches(events, capacity) == p.flushed + (if p.batch == [] then [] else [p.batch])
            && |p.batch| < capacity && Flatten(p.flushed) + p.batch == Received(events)
  {
    BatchesWithinCapacity(events, capacity);
    CollectedIsReceived(events, capacity);
  }

  // ----- Interleaved flushes -----

  /** One store call of flush i. */
  datatype Call = Dels(i: nat) | Upds(i: nat)

  function CallMessages(batches: seq<seq<Msg>>, c: Call): seq<Msg> {
    if c.i >= |batches| then []
    else if c.Dels? then AsDeletes(Deletes(batches[c.i]))
    else AsUpdates(Updates(batches[c.i]))
  }

  function Perform(s: State, batches: seq<seq<Msg>>, c: Call): State {
    if c.i >= |batches| then s
    else if c.Dels? then DeleteBatch(s, FlightOf(batches[c.i]).dels)
    else UpdateBatchSkipping(s, FlightOf(batches[c.i]).upds)
  }

  /** The store after the calls of all flushes, in the order they reached it. */
  function PerformAll(s: State, batches: seq<seq<Msg>>, calls: seq<Call>): State {
    if calls == [] then s
    else Perform(PerformAll(s, batches, calls[..|calls| - 1]), batches, calls[|calls| - 1])
  }

  function Messages(batches: seq<seq<Msg>>, calls: seq<Call>): seq<Msg> {
    if calls == [] then []
    else Messages(batches, calls[..|calls| - 1]) + CallMessages(batches, calls[|calls| - 1])
  }

  /** Each of the first n flushes makes each of its calls exactly once. */
  ghost predicate Complete(calls: seq<Call>, n: nat) {
    && (forall c :: c in calls ==> c.i < n)
    && (forall i: nat :: i < n ==> Dels(i) in calls && Upds(i) in calls)
    && (forall p, q :: 0 <= p < q < |calls| ==> calls[p] != calls[q])
  }

  /** The updates of id that a call brings. */
  function Weight(batches: seq<seq<Msg>>, c: Call, id: TicketId): seq<UpdateSet> {
    if c.Upds? && c.i < |batches| then UpdatesOf(batches[c.i], id) else []
  }

  /** Flushes that both update id make those calls in the order they were started. */
  ghost predicate OrderedFor(batches: seq<seq<Msg>>, calls: seq<Call>, id: TicketId) {
    forall p, q :: 0 <= p < q < |calls| && calls[p].Upds? && calls[q].Upds? && calls[q].i < calls[p].i ==>
      Weight(batches, calls[p], id) == [] || Weight(batches, calls[q], id) == []
  }

  /** A stored ticket that no batch deletes. */
  predicate Live(stored: set<TicketId>, batches: seq<seq<Msg>>, id: TicketId) {
    id in stored && Del(id) !in Flatten(batches)
  }

  /** The same, for every live ticket. */
  ghost predicate Ordered(stored: set<TicketId>, batches: seq<seq<Msg>>, calls: seq<Call>) {
    forall id :: Live(stored, batches, id) ==> OrderedFor(batches, calls, id)
  }

  lemma {:induction false} PerformAllAsMessages(s: State, batches: seq<seq<Msg>>, calls: seq<Call>)
    ensures PerformAll(s, batches, calls) == ApplyAll(s, Messages(batches, calls))
  {
    if calls != [] {
      var prior, c := calls[..|calls| - 1], calls[|calls| - 1];
      PerformAllAsMessages(s, batches, prior);
      ApplyAllAppend(s, Messages(batches, prior), CallMessages(batches, c));
      if c.i < |batches| {
        DeleteBatchAsMessages(PerformAll(s, batches, prior), Deletes(batches[c.i]));
        SkippingAsMessages(PerformAll(s, batches, prior), Updates(batches[c.i]));
      }
    }
  }

  function WeightOf(batches: seq<seq<Msg>>, id: TicketId): Call -> seq<UpdateSet> {
    c => Weight(batches, c, id)
  }

  /** The updates of id, call by call. */
  function Weights(batches: seq<seq<Msg>>, calls: seq<Call>, id: TicketId): seq<UpdateSet> {
    FlatMap(WeightOf(batches, id), calls)
  }

  lemma WeightsAppend(batches: seq<seq<Msg>>, xs: seq<Call>, ys: seq<Call>, id: TicketId)
    ensures Weights(batches, xs + ys, id) == Weights(batches, xs, id) + Weights(batches, ys, id)
  {
    FlatMapAppend(WeightOf(batches, id), xs, ys);
  }

  lemma WeightsSnoc(batches: seq<seq<Msg>>, calls: seq<Call>, c: Call, id: TicketId)
    ensures Weights(batches, calls + [c], id) == Weights(batches, calls, id) + Weight(batches, c, id)
  {
    FlatMapSnoc(WeightOf(batches, id), calls, c);
  }

  lemma {:induction false} MessagesWeights(batches: seq<seq<Msg>>, calls: seq<Call>, id: TicketId)
    ensures UpdatesOf(Messages(batches, calls), id) == Weights(batches, calls, id)
  {
    if calls != [] {
      var prior, c := calls[..|calls| - 1], calls[|calls| - 1];
      MessagesWeights(batches, prior, id);
      UpdatesOfAppend(Messages(batches, prior), CallMessages(batches, c), id);
      UpdatesOfCall(batches, c, id);
      assert calls == prior + [c];
      WeightsSnoc(batches, prior, c, id);
    }
  }

  lemma UpdatesOfCall(batches: seq<seq<Msg>>, c: Call, id: TicketId)
    ensures UpdatesOf(CallMessages(batches, c), id) == Weight(batches, c, id)
  {
    if c.i < |batches| {
      RegroupedParts(batches[c.i], id);
      DeletesHoldNoUpdates(Deletes(batches[c.i]), id);
    }
  }

  lemma NoWeights(batches: seq<seq<Msg>>, calls: seq<Call>, id: TicketId)
    requires forall c :: c in calls ==> Weight(batches, c, id) == []
    ensures Weights(batches, calls, id) == []
  {
    FlatMapEmpty(WeightOf(batches, id), calls);
  }

  /** The update calls are those of the first n flushes, each once. */
  ghost predicate UpdateCalls(calls: seq<Call>, n: nat) {
    && (forall p :: 0 <= p < |calls| && calls[p].Upds? ==> calls[p].i < n)
    && (forall i: nat :: i < n ==> Upds(i) in calls)
    && (forall p, q :: 0 <= p < q < |calls| && calls[p].Upds? ==> calls[p] != calls[q])
  }

  /** Ordered update calls bring the updates of an id in the order of the batches. */
  lemma {:induction false} OrderedWeights(batches: seq<seq<Msg>>, calls: seq<Call>, n: nat, id: TicketId)
    requires n <= |batches| && UpdateCalls(calls, n) && OrderedFor(batches, calls, id)
    ensures Weights(batches, calls, id) == UpdatesOf(Flatten(batches[..n]), id)
    decreases n
  {
    if n == 0 {
      NoWeights(batches, calls, id);
    } else {
      var rest := LastFlushLast(batches, calls, n, id);
      OrderedWeights(batches, rest, n - 1, id);
      UpdatesOfNextBatch(batches, n, id);
    }
  }

  /** The update call of the last flush can be taken out and its updates put last. */
  lemma LastFlushLast(batches: seq<seq<Msg>>, calls: seq<Call>, n: nat, id: TicketId) returns (rest: seq<Call>)
    requires 0 < n <= |batches| && UpdateCalls(calls, n) && OrderedFor(batches, calls, id)
    ensures UpdateCalls(rest, n - 1) && OrderedFor(batches, rest, id)
    ensures Weights(batches, calls, id) == Weights(batches, rest, id) + UpdatesOf(batches[n - 1], id)
  {
    var p := LastUpdate(calls, n);
    rest := calls[..p] + calls[p + 1..];
    RestOfCalls(batches, calls, p, n, id);
    WeightOfLast(batches, calls, p, n, id);
  }

  lemma LastUpdate(calls: seq<Call>, n: nat) returns (p: nat)
    requires n > 0 && UpdateCalls(calls, n)
    ensures p < |calls| && calls[p] == Upds(n - 1)
  {
    assert Upds(n - 1) in calls;
    p :| p < |calls| && calls[p] == Upds(n - 1);
  }

  lemma WeightOfLast(batches: seq<seq<Msg>>, calls: seq<Call>, p: nat, n: nat, id: TicketId)
    requires 0 < n <= |batches| && p < |calls| && calls[p] == Upds(n - 1)
    requires UpdateCalls(calls, n) && OrderedFor(batches, calls, id)
    ensures Weights(batches, calls, id)
            == Weights(batches, calls[..p] + calls[p + 1..], id) + UpdatesOf(batches[n - 1], id)
  {
    if Weight(batches, calls[p], id) != [] { NothingBehindLast(batches, calls, p, n, id); }
    TakeOut(batches, calls, p, id);
  }

  lemma TakeOut(batches: seq<seq<Msg>>, calls: seq<Call>, p: nat, id: TicketId)
    requires p < |calls|
    requires Weight(batches, calls[p], id) == [] || Weights(batches, calls[p + 1..], id) == []
    ensures Weights(batches, calls, id)
            == Weights(batches, calls[..p] + calls[p + 1..], id) + Weight(batches, calls[p], id)
  {
    assert calls == calls[..p] + [calls[p]] + calls[p + 1..];
    WeightMovesLast(batches, calls[..p], calls[p], calls[p + 1..], id);
  }

  lemma UpdatesOfNextBatch(batches: seq<seq<Msg>>, n: nat, id: TicketId)
    requires 0 < n <= |batches|
    ensures UpdatesOf(Flatten(batches[..n]), id)
            == UpdatesOf(Flatten(batches[..n - 1]), id) + UpdatesOf(batches[n - 1], id)
  {
    assert batches[..n] == batches[..n - 1] + [batches[n - 1]];
    FlattenSnoc(batches[..n - 1], batches[n - 1]);
    UpdatesOfAppend(Flatten(batches[..n - 1]), batches[n - 1], id);
  }

  /** A call's updates can be taken to come last if it has none or none come behind it. */
  lemma WeightMovesLast(batches: seq<seq<Msg>>, before: seq<Call>, c: Call, behind: seq<Call>, id: TicketId)
    requires Weight(batches, c, id) == [] || Weights(batches, behind, id) == []
    ensures Weights(batches, before + [c] + behind, id)
            == Weights(batches, before + behind, id) + Weight(batches, c, id)
  {
    WeightsSplit(batches, before, c, behind, id);
    WeightsAppend(batches, before, behind, id);
    MoveLast(Weights(batches, before, id), Weight(batches, c, id), Weights(batches, behind, id));
  }

  lemma WeightsSplit(batches: seq<seq<Msg>>, before: seq<Call>, c: Call, behind: seq<Call>, id: TicketId)
    ensures Weights(batches, before + [c] + behind, id)
            == Weights(batches, before, id) + Weight(batches, c, id) + Weights(batches, behind, id)
  {
    WeightsAppend(batches, before + [c], behind, id);
    WeightsSnoc(batches, before, c, id);
  }

  lemma NothingBehindLast(batches: seq<seq<Msg>>, calls: seq<Call>, p: nat, n: nat, id: TicketId)
    requires 0 < n <= |batches| && p < |calls| && calls[p] == Upds(n - 1)
    requires UpdateCalls(calls, n) && OrderedFor(batches, calls, id) && Weight(batches, calls[p], id) != []
    ensures Weights(batches, calls[p + 1..], id) == []
  {
    var behind := calls[p + 1..];
    forall c | c in behind
      ensures Weight(batches, c, id) == []
    {
      var q :| 0 <= q < |behind| && behind[q] == c;
      assert calls[p + 1 + q] == c;
    }
    NoWeights(batches, behind, id);
  }

  lemma RestOfCalls(batches: seq<seq<Msg>>, calls: seq<Call>, p: nat, n: nat, id: TicketId)
    requires n > 0 && p < |calls| && calls[p] == Upds(n - 1)
    requires UpdateCalls(calls, n) && OrderedFor(batches, calls, id)
    ensures UpdateCalls(calls[..p] + calls[p + 1..], n - 1)
    ensures OrderedFor(batches, calls[..p] + calls[p + 1..], id)
  {
    var rest := calls[..p] + calls[p + 1..];
    assert forall k :: 0 <= k < |rest| ==> rest[k] == calls[if k < p then k else k + 1];
    forall i: nat | i < n - 1
      ensures Upds(i) in rest
    {
      var k :| 0 <= k < |calls| && calls[k] == Upds(i);
      assert rest[if k < p then k else k - 1] == Upds(i);
    }
  }

  lemma {:induction false} DeletedInMessages(batches: seq<seq<Msg>>, calls: seq<Call>, id: TicketId)
    ensures Del(id) in Messages(batches, calls) <==>
              exists c :: c in calls && c.Dels? && c.i < |batches| && Del(id) in batches[c.i]
  {
    if calls != [] {
      var prior, c := calls[..|calls| - 1], calls[|calls| - 1];
      DeletedInMessages(batches, prior, id);
      assert calls == prior + [c];
      if c.i < |batches| {
        RegroupedParts(batches[c.i], id);
        DeletedInDeletes(Deletes(batches[c.i]), id);
      }
    }
  }

  lemma DeletedInDeletes(ids: seq<TicketId>, id: TicketId)
    ensures Del(id) in AsDeletes(ids) <==> id in ids
  {
    if id in ids {
      var i :| 0 <= i < |ids| && ids[i] == id;
      assert AsDeletes(ids)[i] == Del(id);
    }
  }

  /**
   Whatever the interleaving of the store calls of the flushes, as long as flushes updating the
   same live ticket keep their order, the store ends as if the batches' messages had been
   applied one by one.
   */
  lemma InterleavedFlushesAreSequential(s: State, batches: seq<seq<Msg>>, calls: seq<Call>)
    requires Keyed(s) && Complete(calls, |batches|) && Ordered(s.data.Keys, batches, calls)
    ensures PerformAll(s, batches, calls) == ApplyAll(s, Flatten(batches))
  {
    PerformAllAsMessages(s, batches, calls);
    forall id
      ensures SameFor(s.data.Keys, Messages(batches, calls), Flatten(batches), id)
    {
      InFlatten(batches, Del(id));
      DeletedInMessages(batches, calls, id);
      if i: nat :| i < |batches| && Del(id) in batches[i] {
        assert Dels(i) in calls;
      } else if id in s.data {
        MessagesWeights(batches, calls, id);
        OrderedWeights(batches, calls, |batches|, id);
        assert batches[..|batches|] == batches;
      }
    }
    SamePerTicketSameState(s, Messages(batches, calls), Flatten(batches));
  }

  /** The pusher over a store that passes over missing ids refines applying the received messages one by one. */
  lemma PusherRefinesSequential(s: State, events: seq<Event>, workers: nat, calls: seq<Call>)
    requires Keyed(s) && workers > 0
    requires var batches := Batches(events, workers * 2);
             Complete(calls, |batches|) && Ordered(s.data.Keys, batches, calls)
    ensures PerformAll(s, Batches(events, workers * 2), calls) == ApplyAll(s, Received(events))
  {
    EveryMessageFlushedOnce(events, workers * 2);
    InterleavedFlushesAreSequential(s, Batches(events, workers * 2), calls);
  }

  // ----- Overlapping flushes -----

  /** Flush j > i is in flight at the same time as i: it makes its first call before i's last. */
  ghost predicate Overlap(calls: seq<Call>, i: nat, j: nat) {
    exists p, q :: 0 <= p < q < |calls| && calls[p] == Dels(j) && calls[q] == Upds(i)
  }

  ghost predicate DeletesFirst(calls: seq<Call>) {
    forall q :: 0 <= q < |calls| && calls[q].Upds? ==> exists p :: 0 <= p < q && calls[p] == Dels(calls[q].i)
  }

  ghost predicate UpdatesDisjoint(xs: seq<Msg>, ys: seq<Msg>) {
    forall id :: UpdatesOf(xs, id) == [] || UpdatesOf(ys, id) == []
  }

  ghost predicate DisjointWhenOverlapping(batches: seq<seq<Msg>>, calls: seq<Call>) {
    forall i: nat, j: nat :: i < j < |batches| && Overlap(calls, i, j) ==> UpdatesDisjoint(batches[i], batches[j])
  }

  /** Flushes that are in flight together only when they update different tickets are ordered. */
  lemma DisjointOverlapsAreOrdered(stored: set<TicketId>, batches: seq<seq<Msg>>, calls: seq<Call>)
    requires Complete(calls, |batches|) && DeletesFirst(calls) && DisjointWhenOverlapping(batches, calls)
    ensures Ordered(stored, batches, calls)
  {
    assert forall c :: c in calls ==> c.i < |batches|;
    forall id
      ensures OrderedFor(batches, calls, id)
    {
      DisjointOrderedFor(batches, calls, id);
    }
  }

  lemma DisjointOrderedFor(batches: seq<seq<Msg>>, calls: seq<Call>, id: TicketId)
    requires forall c :: c in calls ==> c.i < |batches|
    requires DeletesFirst(calls) && DisjointWhenOverlapping(batches, calls)
    ensures OrderedFor(batches, calls, id)
  {
    forall p, q | 0 <= p < q < |calls| && calls[p].Upds? && calls[q].Upds? && calls[q].i < calls[p].i
      ensures Weight(batches, calls[p], id) == [] || Weight(batches, calls[q], id) == []
    {
      assert calls[p] in calls;
      InvertedOverlap(calls, p, q);
      assert UpdatesDisjoint(batches[calls[q].i], batches[calls[p].i]);
    }
  }

  lemma InvertedOverlap(calls: seq<Call>, p: nat, q: nat)
    requires DeletesFirst(calls)
    requires p < q < |calls| && calls[p].Upds? && calls[q].Upds? && calls[q].i < calls[p].i
    ensures Overlap(calls, calls[q].i, calls[p].i)
  {
    var r :| 0 <= r < p && calls[r] == Dels(calls[p].i);
    assert calls[q] == Upds(calls[q].i);
  }
}
