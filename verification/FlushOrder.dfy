/**
 Flushes run in goroutines and may reach the store out of order.  Over all tickets and update
 contents, that is harmless exactly when flushes updating the same live ticket keep their order.
 */
module FlushOrder {
  import opened Wrappers
  import opened Tickets
  import opened StoreSpec
  import opened Flush
  import opened Pusher
  import opened Sequences
  import Stopping = StoppingFlush

  /** The same deletes and updates of the same ids, batch by batch, with any contents. */
  ghost predicate SameShapes(xs: seq<seq<Msg>>, ys: seq<seq<Msg>>) {
    |xs| == |ys| && forall k :: 0 <= k < |xs| ==> Stopping.SameShape(xs[k], ys[k])
  }

  lemma {:induction false} SameIdsSameCounts(us: seq<UpdateSet>, vs: seq<UpdateSet>, id: TicketId)
    requires Stopping.SameIds(us, vs)
    ensures |UpdatesOf(AsUpdates(us), id)| == |UpdatesOf(AsUpdates(vs), id)|
  {
    if us != [] {
      var n := |us| - 1;
      SameIdsSameCounts(us[..n], vs[..n], id);
      assert AsUpdates(us)[..n] == AsUpdates(us[..n]) && AsUpdates(vs)[..n] == AsUpdates(vs[..n]);
    }
  }

  lemma SameShapeSameCounts(xs: seq<Msg>, ys: seq<Msg>, id: TicketId)
    requires Stopping.SameShape(xs, ys)
    ensures |UpdatesOf(xs, id)| == |UpdatesOf(ys, id)|
    ensures Del(id) in xs <==> Del(id) in ys
  {
    SameIdsSameCounts(Updates(xs), Updates(ys), id);
    RegroupedParts(xs, id);
    RegroupedParts(ys, id);
  }

  lemma SameShapesSameOrder(stored: set<TicketId>, xs: seq<seq<Msg>>, ys: seq<seq<Msg>>, calls: seq<Call>)
    requires SameShapes(xs, ys) && Ordered(stored, xs, calls)
    ensures Ordered(stored, ys, calls)
  {
    forall id | Live(stored, ys, id)
      ensures OrderedFor(ys, calls, id)
    {
      InFlatten(xs, Del(id));
      InFlatten(ys, Del(id));
      forall k | 0 <= k < |xs|
        ensures |UpdatesOf(xs[k], id)| == |UpdatesOf(ys[k], id)|
        ensures Del(id) in xs[k] <==> Del(id) in ys[k]
      {
        SameShapeSameCounts(xs[k], ys[k], id);
      }
      assert OrderedFor(xs, calls, id);
      SameWeightsSameOrder(xs, ys, calls, id);
    }
  }

  lemma SameWeightsSameOrder(xs: seq<seq<Msg>>, ys: seq<seq<Msg>>, calls: seq<Call>, id: TicketId)
    requires |xs| == |ys| && OrderedFor(xs, calls, id)
    requires forall k :: 0 <= k < |xs| ==> |UpdatesOf(xs[k], id)| == |UpdatesOf(ys[k], id)|
    ensures OrderedFor(ys, calls, id)
  {
    assert forall c: Call :: |Weight(xs, c, id)| == |Weight(ys, c, id)|;
  }

  // ----- Probes: updates that do nothing but set nice -----

  /** A batch of the same shape whose updates of id set nice as given and do nothing else. */
  function Probed(batch: seq<Msg>, id: TicketId, nice: Option<int>): seq<Msg> {
    seq(|batch|, p requires 0 <= p < |batch| =>
      if batch[p].Del? then batch[p]
      else Upd(NoChange(batch[p].us.id).(nice := if batch[p].us.id == id then nice else None)))
  }

  lemma {:induction false} ProbedShape(batch: seq<Msg>, id: TicketId, nice: Option<int>)
    ensures Stopping.SameShape(Probed(batch, id, nice), batch)
  {
    if batch != [] {
      var n := |batch| - 1;
      ProbedShape(batch[..n], id, nice);
      assert Probed(batch, id, nice)[..n] == Probed(batch[..n], id, nice);
    }
  }

  /** Batch hi sets the nice of id to 2, batch lo to 1, the others leave it alone. */
  function Probes(batches: seq<seq<Msg>>, id: TicketId, lo: nat, hi: nat): (r: seq<seq<Msg>>)
    ensures |r| == |batches|
    ensures forall k :: 0 <= k < |batches| ==> r[k] == Probed(batches[k], id, ProbeNice(k, lo, hi))
  {
    seq(|batches|, k requires 0 <= k < |batches| => Probed(batches[k], id, ProbeNice(k, lo, hi)))
  }

  lemma ProbesShape(batches: seq<seq<Msg>>, id: TicketId, lo: nat, hi: nat)
    ensures SameShapes(Probes(batches, id, lo, hi), batches)
  {
    forall k | 0 <= k < |batches|
      ensures Stopping.SameShape(Probes(batches, id, lo, hi)[k], batches[k])
    {
      ProbedShape(batches[k], id, ProbeNice(k, lo, hi));
    }
  }

  function ProbeNice(k: nat, lo: nat, hi: nat): Option<int> {
    if k == hi then Some(2) else if k == lo then Some(1) else None
  }

  /** The nice of a ticket after updates, from the nice before. */
  function NiceAfter(us: seq<UpdateSet>, nice: int): int {
    if us == [] then nice else us[|us| - 1].nice.GetOr(NiceAfter(us[..|us| - 1], nice))
  }

  lemma {:induction false} UpdatedNice(t: Ticket, us: seq<UpdateSet>)
    ensures Updated(t, us).nice == NiceAfter(us, t.nice)
  {
    if us != [] { UpdatedNice(t, us[..|us| - 1]); }
  }

  lemma {:induction false} NiceAfterAppend(us: seq<UpdateSet>, vs: seq<UpdateSet>, nice: int)
    ensures NiceAfter(us + vs, nice) == NiceAfter(vs, NiceAfter(us, nice))
  {
    if vs == [] {
      assert us + vs == us;
    } else {
      NiceAfterAppend(us, vs[..|vs| - 1], nice);
      assert (us + vs)[..|us + vs| - 1] == us + vs[..|vs| - 1];
    }
  }

  lemma ProbedLast(batch: seq<Msg>, id: TicketId, value: Option<int>)
    requires batch != []
    ensures var prior, m := batch[..|batch| - 1], batch[|batch| - 1];
            UpdatesOf(Probed(batch, id, value), id) == UpdatesOf(Probed(prior, id, value), id)
              + if m.Upd? && m.us.id == id then [NoChange(id).(nice := value)] else []
  {
    assert Probed(batch, id, value)[..|batch| - 1] == Probed(batch[..|batch| - 1], id, value);
  }

  lemma {:induction false} ProbedNice(batch: seq<Msg>, id: TicketId, value: Option<int>, nice: int)
    ensures NiceAfter(UpdatesOf(Probed(batch, id, value), id), nice)
            == if UpdatesOf(batch, id) != [] then value.GetOr(nice) else nice
  {
    if batch != [] {
      var prior, m := batch[..|batch| - 1], batch[|batch| - 1];
      ProbedNice(prior, id, value, nice);
      ProbedLast(batch, id, value);
      if m.Upd? && m.us.id == id {
        LastSetsNice(UpdatesOf(Probed(prior, id, value), id), NoChange(id).(nice := value), nice);
      } else {
        assert UpdatesOf(Probed(batch, id, value), id) == UpdatesOf(Probed(prior, id, value), id);
      }
    }
  }

  lemma LastSetsNice(us: seq<UpdateSet>, u: UpdateSet, nice: int)
    ensures NiceAfter(us + [u], nice) == u.nice.GetOr(NiceAfter(us, nice))
  {
    assert (us + [u])[..|us + [u]| - 1] == us;
  }

  /** In batch order, the update of batch hi comes last. */
  lemma {:induction false} SequentialNice(batches: seq<seq<Msg>>, id: TicketId, lo: nat, hi: nat, n: nat)
    requires lo < hi < n <= |batches| && UpdatesOf(batches[hi], id) != []
    ensures NiceAfter(UpdatesOf(Flatten(Probes(batches, id, lo, hi)[..n]), id), 0) == 2
  {
    NextProbeNice(batches, id, lo, hi, n);
    if n - 1 > hi { SequentialNice(batches, id, lo, hi, n - 1); }
  }

  lemma NextProbeNice(batches: seq<seq<Msg>>, id: TicketId, lo: nat, hi: nat, n: nat)
    requires 0 < n <= |batches|
    ensures var probes := Probes(batches, id, lo, hi);
            NiceAfter(UpdatesOf(Flatten(probes[..n]), id), 0) ==
              var before := NiceAfter(UpdatesOf(Flatten(probes[..n - 1]), id), 0);
              if UpdatesOf(batches[n - 1], id) != [] then ProbeNice(n - 1, lo, hi).GetOr(before) else before
  {
    var probes := Probes(batches, id, lo, hi);
    UpdatesOfNextBatch(probes, n, id);
    var before := UpdatesOf(Flatten(probes[..n - 1]), id);
    NiceAfterAppend(before, UpdatesOf(probes[n - 1], id), 0);
    ProbedNice(batches[n - 1], id, ProbeNice(n - 1, lo, hi), NiceAfter(before, 0));
  }

  /** If the calls make the update of batch hi before that of batch lo, the latter comes last. */
  lemma {:induction false} InvertedNice(batches: seq<seq<Msg>>, calls: seq<Call>, id: TicketId,
                                        lo: nat, hi: nat, q: nat, n: nat)
    requires lo < hi < |batches| && q < n <= |calls| && calls[q] == Upds(lo)
    requires forall k :: q < k < |calls| ==> calls[k] != Upds(lo) && calls[k] != Upds(hi)
    requires UpdatesOf(batches[lo], id) != []
    ensures NiceAfter(Weights(Probes(batches, id, lo, hi), calls[..n], id), 0) == 1
  {
    NextCallNice(batches, calls, id, lo, hi, n);
    if n - 1 > q { InvertedNice(batches, calls, id, lo, hi, q, n - 1); }
  }

  lemma NextCallNice(batches: seq<seq<Msg>>, calls: seq<Call>, id: TicketId, lo: nat, hi: nat, n: nat)
    requires 0 < n <= |calls|
    ensures var probes, c := Probes(batches, id, lo, hi), calls[n - 1];
            NiceAfter(Weights(probes, calls[..n], id), 0) ==
              var before := NiceAfter(Weights(probes, calls[..n - 1], id), 0);
              if Weight(batches, c, id) != [] then ProbeNice(c.i, lo, hi).GetOr(before) else before
  {
    var probes, c := Probes(batches, id, lo, hi), calls[n - 1];
    assert calls[..n] == calls[..n - 1] + [c];
    WeightsSnoc(probes, calls[..n - 1], c, id);
    var before := Weights(probes, calls[..n - 1], id);
    NiceAfterAppend(before, Weight(probes, c, id), 0);
    if c.Upds? && c.i < |batches| {
      ProbedNice(batches[c.i], id, ProbeNice(c.i, lo, hi), NiceAfter(before, 0));
    }
  }

  /** Two flushes out of order on a live ticket have contents for which the store ends up wrong. */
  lemma InvertedFlushesDiffer(stored: set<TicketId>, batches: seq<seq<Msg>>, calls: seq<Call>,
                              id: TicketId, p: nat, q: nat)
    requires Complete(calls, |batches|) && Live(stored, batches, id)
    requires p < q < |calls| && calls[p].Upds? && calls[q].Upds? && calls[q].i < calls[p].i
    requires Weight(batches, calls[p], id) != [] && Weight(batches, calls[q], id) != []
    ensures var probes := Probes(batches, id, calls[q].i, calls[p].i);
            PerformAll(Stopping.Blank(stored), probes, calls) != ApplyAll(Stopping.Blank(stored), Flatten(probes))
  {
    var s, lo, hi := Stopping.Blank(stored), calls[q].i, calls[p].i;
    assert calls[p] == Upds(hi) && calls[p] in calls && calls[q] == Upds(lo);
    SequentialProbe(s, batches, id, lo, hi);
    InvertedProbe(s, batches, calls, id, lo, hi, q);
  }

  lemma SequentialProbe(s: State, batches: seq<seq<Msg>>, id: TicketId, lo: nat, hi: nat)
    requires Keyed(s) && id in s.data && s.data[id].nice == 0 && Del(id) !in Flatten(batches)
    requires lo < hi < |batches| && UpdatesOf(batches[hi], id) != []
    ensures var r := ApplyAll(s, Flatten(Probes(batches, id, lo, hi)));
            id in r.data && r.data[id].nice == 2
  {
    var probes := Probes(batches, id, lo, hi);
    ProbesDeleteNothing(batches, [], id, lo, hi);
    TicketAfterAll(s, Flatten(probes), id);
    UpdatedNice(s.data[id], UpdatesOf(Flatten(probes), id));
    SequentialNice(batches, id, lo, hi, |batches|);
    assert probes[..|batches|] == probes;
  }

  lemma InvertedProbe(s: State, batches: seq<seq<Msg>>, calls: seq<Call>, id: TicketId, lo: nat, hi: nat, q: nat)
    requires Keyed(s) && id in s.data && s.data[id].nice == 0 && Del(id) !in Flatten(batches)
    requires lo < hi < |batches| && q < |calls| && calls[q] == Upds(lo) && UpdatesOf(batches[lo], id) != []
    requires forall k :: q < k < |calls| ==> calls[k] != Upds(lo) && calls[k] != Upds(hi)
    ensures var r := PerformAll(s, Probes(batches, id, lo, hi), calls);
            id in r.data && r.data[id].nice == 1
  {
    var probes := Probes(batches, id, lo, hi);
    PerformAllAsMessages(s, probes, calls);
    ProbesDeleteNothing(batches, calls, id, lo, hi);
    TicketAfterAll(s, Messages(probes, calls), id);
    MessagesWeights(probes, calls, id);
    UpdatedNice(s.data[id], Weights(probes, calls, id));
    InvertedNice(batches, calls, id, lo, hi, q, |calls|);
    assert calls[..|calls|] == calls;
  }

  lemma ProbesDeleteNothing(batches: seq<seq<Msg>>, calls: seq<Call>, id: TicketId, lo: nat, hi: nat)
    requires Del(id) !in Flatten(batches)
    ensures Del(id) !in Flatten(Probes(batches, id, lo, hi))
    ensures Del(id) !in Messages(Probes(batches, id, lo, hi), calls)
  {
    var probes := Probes(batches, id, lo, hi);
    ProbesShape(batches, id, lo, hi);
    InFlatten(batches, Del(id));
    InFlatten(probes, Del(id));
    DeletedInMessages(probes, calls, id);
    forall k | 0 <= k < |batches|
      ensures Del(id) !in probes[k]
    {
      SameShapeSameCounts(probes[k], batches[k], id);
    }
  }

  /**
   For a set of stored ids, the shapes of the batches and the order in which their calls reached
   a store that passes over missing ids: the result is that of the messages one by one, for all tickets and all update
   contents, exactly when the calls are ordered.
   */
  lemma InterleavingIsSequentialIff(stored: set<TicketId>, batches: seq<seq<Msg>>, calls: seq<Call>)
    requires Complete(calls, |batches|)
    ensures Ordered(stored, batches, calls) <==>
              forall s: State, contents: seq<seq<Msg>> ::
                Keyed(s) && s.data.Keys == stored && SameShapes(contents, batches) ==>
                  PerformAll(s, contents, calls) == ApplyAll(s, Flatten(contents))
  {
    if Ordered(stored, batches, calls) {
      forall s: State, contents: seq<seq<Msg>> | Keyed(s) && s.data.Keys == stored && SameShapes(contents, batches)
        ensures PerformAll(s, contents, calls) == ApplyAll(s, Flatten(contents))
      {
        assert SameShapes(batches, contents);
        SameShapesSameOrder(stored, batches, contents, calls);
        InterleavedFlushesAreSequential(s, contents, calls);
      }
    } else {
      var id :| Live(stored, batches, id) && !OrderedFor(batches, calls, id);
      var p, q :| 0 <= p < q < |calls| && calls[p].Upds? && calls[q].Upds? && calls[q].i < calls[p].i
        && Weight(batches, calls[p], id) != [] && Weight(batches, calls[q], id) != [];
      InvertedFlushesDiffer(stored, batches, calls, id, p, q);
      ProbesShape(batches, id, calls[q].i, calls[p].i);
    }
  }

  // ----- Whatever the schedule -----

  /** No live ticket is updated by two of the batches. */
  ghost predicate LiveUpdatesApart(stored: set<TicketId>, batches: seq<seq<Msg>>) {
    forall id, i: nat, j: nat :: Live(stored, batches, id) && i < j < |batches| ==>
      UpdatesOf(batches[i], id) == [] || UpdatesOf(batches[j], id) == []
  }

  /** All deletes, then the updates of flush hi, then those of the others. */
  function LateFirst(n: nat, hi: nat): (calls: seq<Call>)
    requires hi < n
    ensures |calls| == 2 * n
    ensures forall k :: 0 <= k < n ==> calls[k] == Dels(k)
    ensures calls[n] == Upds(hi)
    ensures forall k: nat :: n < k < 2 * n ==> calls[k] == Upds(if k - n - 1 < hi then k - n - 1 else k - n)
  {
    seq(2 * n, k requires 0 <= k < 2 * n =>
      if k < n then Dels(k)
      else if k == n then Upds(hi)
      else if k - n - 1 < hi then Upds(k - n - 1)
      else Upds(k - n))
  }

  lemma LateFirstIsSchedule(n: nat, hi: nat)
    requires hi < n
    ensures Complete(LateFirst(n, hi), n) && DeletesFirst(LateFirst(n, hi))
  {
    var calls := LateFirst(n, hi);
    forall i: nat | i < n
      ensures Dels(i) in calls && Upds(i) in calls
    {
      assert calls[i] == Dels(i);
      assert calls[if i == hi then n else if i < hi then n + 1 + i else n + i] == Upds(i);
    }
    forall q | 0 <= q < |calls| && calls[q].Upds?
      ensures exists p :: 0 <= p < q && calls[p] == Dels(calls[q].i)
    {
      assert calls[calls[q].i] == Dels(calls[q].i);
    }
  }

  lemma LateFirstInverts(stored: set<TicketId>, batches: seq<seq<Msg>>, id: TicketId, lo: nat, hi: nat)
    requires Live(stored, batches, id) && lo < hi < |batches|
    requires UpdatesOf(batches[lo], id) != [] && UpdatesOf(batches[hi], id) != []
    ensures !Ordered(stored, batches, LateFirst(|batches|, hi))
  {
    var n := |batches|;
    var calls := LateFirst(n, hi);
    assert calls[n] == Upds(hi) && calls[n + 1 + lo] == Upds(lo);
    assert !OrderedFor(batches, calls, id);
  }

  lemma ApartIsOrdered(stored: set<TicketId>, batches: seq<seq<Msg>>, calls: seq<Call>)
    requires LiveUpdatesApart(stored, batches)
    ensures Ordered(stored, batches, calls)
  {
  }

  /**
   A condition on the batches alone: every schedule in which each flush deletes before it updates
   is ordered exactly when no live ticket is updated by two batches.
   */
  lemma EveryScheduleOrderedIff(stored: set<TicketId>, batches: seq<seq<Msg>>)
    ensures LiveUpdatesApart(stored, batches) <==>
              forall calls :: Complete(calls, |batches|) && DeletesFirst(calls) ==> Ordered(stored, batches, calls)
  {
    if LiveUpdatesApart(stored, batches) {
      forall calls
        ensures Ordered(stored, batches, calls)
      {
        ApartIsOrdered(stored, batches, calls);
      }
    } else {
      var id, lo: nat, hi: nat :| Live(stored, batches, id) && lo < hi < |batches|
        && UpdatesOf(batches[lo], id) != [] && UpdatesOf(batches[hi], id) != [];
      LateFirstIsSchedule(|batches|, hi);
      LateFirstInverts(stored, batches, id, lo, hi);
    }
  }

  /**
   So asynchronous flushes of these shapes, over a store that passes over missing ids, are harmless
   whatever the schedule, the tickets and the update contents, exactly when no live ticket is
   updated by two batches.
   */
  lemma AsyncFlushesAreSequentialIff(stored: set<TicketId>, batches: seq<seq<Msg>>)
    ensures LiveUpdatesApart(stored, batches) <==>
              forall calls, s: State, contents: seq<seq<Msg>> ::
                Complete(calls, |batches|) && DeletesFirst(calls)
                && Keyed(s) && s.data.Keys == stored && SameShapes(contents, batches) ==>
                  PerformAll(s, contents, calls) == ApplyAll(s, Flatten(contents))
  {
    EveryScheduleOrderedIff(stored, batches);
    if LiveUpdatesApart(stored, batches) {
      forall calls, s: State, contents: seq<seq<Msg>> | Complete(calls, |batches|) && DeletesFirst(calls)
          && Keyed(s) && s.data.Keys == stored && SameShapes(contents, batches)
        ensures PerformAll(s, contents, calls) == ApplyAll(s, Flatten(contents))
      {
        InterleavingIsSequentialIff(stored, batches, calls);
      }
    } else {
      var calls :| Complete(calls, |batches|) && DeletesFirst(calls) && !Ordered(stored, batches, calls);
      InterleavingIsSequentialIff(stored, batches, calls);
    }
  }
}
