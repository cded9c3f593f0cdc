/**
 Interleaved flushes over the memory store, which stops a batch of updates at the first missing
 id.  They are harmless exactly when the calls are ordered and no update of a ticket that survives
 stands behind one that does not find its ticket.
 */
module StoppingOrder {
  import opened Wrappers
  import opened Tickets
  import opened StoreSpec
  import opened Flush
  import opened Pusher
  import opened FlushOrder
  import opened Sequences

  function PerformStopping(s: State, batches: seq<seq<Msg>>, c: Call): State {
    if c.i >= |batches| then s
    else if c.Dels? then DeleteBatch(s, FlightOf(batches[c.i]).dels)
    else UpdateBatch(s, FlightOf(batches[c.i]).upds)
  }

  /** The memory store after the calls of all flushes, in the order they reached it. */
  function PerformAllStopping(s: State, batches: seq<seq<Msg>>, calls: seq<Call>): State {
    if calls == [] then s
    else PerformStopping(PerformAllStopping(s, batches, calls[..|calls| - 1]), batches, calls[|calls| - 1])
  }

  /** A ticket stored at the start is still stored after the calls. */
  predicate StoredAfter(stored: set<TicketId>, batches: seq<seq<Msg>>, calls: seq<Call>, id: TicketId) {
    id in stored && Del(id) !in Messages(batches, calls)
  }

  /** Call q, if it updates, has in front of each update of a surviving ticket only updates that find theirs. */
  ghost predicate UnhinderedAt(stored: set<TicketId>, batches: seq<seq<Msg>>, calls: seq<Call>, q: nat)
    requires q < |calls|
  {
    calls[q].Upds? && calls[q].i < |batches| ==>
      var us := Updates(batches[calls[q].i]);
      forall i, j :: 0 <= i < j < |us| && StoredAfter(stored, batches, calls, us[j].id) ==>
        StoredAfter(stored, batches, calls[..q], us[i].id)
  }

  ghost predicate Unhindered(stored: set<TicketId>, batches: seq<seq<Msg>>, calls: seq<Call>) {
    forall q :: 0 <= q < |calls| ==> UnhinderedAt(stored, batches, calls, q)
  }

  // ----- The messages that take effect -----

  /** The messages of a call that the store s comes to. */
  function Reached(s: State, batches: seq<seq<Msg>>, c: Call): seq<Msg> {
    if c.Upds? && c.i < |batches| then
      var us := Updates(batches[c.i]);
      AsUpdates(us[..Applied(s, us)])
    else CallMessages(batches, c)
  }

  function AllReached(s: State, batches: seq<seq<Msg>>, calls: seq<Call>): seq<Msg> {
    if calls == [] then []
    else
      var prior := calls[..|calls| - 1];
      AllReached(s, batches, prior) + Reached(PerformAllStopping(s, batches, prior), batches, calls[|calls| - 1])
  }

  lemma AllReachedSnoc(s: State, batches: seq<seq<Msg>>, prior: seq<Call>, c: Call)
    ensures AllReached(s, batches, prior + [c])
            == AllReached(s, batches, prior) + Reached(PerformAllStopping(s, batches, prior), batches, c)
  {
    assert (prior + [c])[..|prior + [c]| - 1] == prior;
  }

  lemma PerformStoppingAsMessages(s: State, batches: seq<seq<Msg>>, c: Call)
    ensures PerformStopping(s, batches, c) == ApplyAll(s, Reached(s, batches, c))
  {
    if c.i < |batches| {
      if c.Dels? {
        DeleteBatchAsMessages(s, Deletes(batches[c.i]));
      } else {
        var us := Updates(batches[c.i]);
        Stopping.StoppingIsPrefix(s, us);
        SkippingAsMessages(s, us[..Applied(s, us)]);
      }
    }
  }

  lemma {:induction false} PerformAllStoppingAsMessages(s: State, batches: seq<seq<Msg>>, calls: seq<Call>)
    ensures PerformAllStopping(s, batches, calls) == ApplyAll(s, AllReached(s, batches, calls))
  {
    if calls != [] {
      var prior, c := calls[..|calls| - 1], calls[|calls| - 1];
      var at := PerformAllStopping(s, batches, prior);
      PerformAllStoppingAsMessages(s, batches, prior);
      PerformStoppingAsMessages(at, batches, c);
      ApplyAllAppend(s, AllReached(s, batches, prior), Reached(at, batches, c));
    }
  }

  /** All deletes take effect. */
  lemma {:induction false} ReachedDeletes(s: State, batches: seq<seq<Msg>>, calls: seq<Call>, id: TicketId)
    ensures Del(id) in AllReached(s, batches, calls) <==> Del(id) in Messages(batches, calls)
  {
    if calls != [] {
      ReachedDeletes(s, batches, calls[..|calls| - 1], id);
    }
  }

  lemma StoppingStores(s: State, batches: seq<seq<Msg>>, calls: seq<Call>)
    requires Keyed(s)
    ensures var at := PerformAllStopping(s, batches, calls);
            Keyed(at) && forall id :: id in at.data <==> StoredAfter(s.data.Keys, batches, calls, id)
  {
    PerformAllStoppingAsMessages(s, batches, calls);
    ApplyAllKeyed(s, AllReached(s, batches, calls));
    forall id
      ensures id in PerformAllStopping(s, batches, calls).data <==> StoredAfter(s.data.Keys, batches, calls, id)
    {
      TicketAfterAll(s, AllReached(s, batches, calls), id);
      ReachedDeletes(s, batches, calls, id);
    }
  }

  // ----- Unhindered calls lose nothing -----

  lemma {:induction false} UpdatesOfPrefix(us: seq<UpdateSet>, n: nat, id: TicketId)
    requires n <= |us| && forall j :: n <= j < |us| ==> us[j].id != id
    ensures UpdatesOf(AsUpdates(us[..n]), id) == UpdatesOf(AsUpdates(us), id)
  {
    if n < |us| {
      var prior := us[..|us| - 1];
      UpdatesOfPrefix(prior, n, id);
      assert prior[..n] == us[..n];
      assert AsUpdates(us)[..|us| - 1] == AsUpdates(prior);
    } else {
      assert us[..n] == us;
    }
  }

  /** The updates of a surviving ticket that a call brings all take effect. */
  lemma UnhinderedReaches(s: State, batches: seq<seq<Msg>>, calls: seq<Call>, q: nat, id: TicketId)
    requires Keyed(s) && q < |calls| && UnhinderedAt(s.data.Keys, batches, calls, q)
    requires StoredAfter(s.data.Keys, batches, calls, id) && StoredAfter(s.data.Keys, batches, calls[..q], id)
    ensures UpdatesOf(Reached(PerformAllStopping(s, batches, calls[..q]), batches, calls[q]), id)
            == UpdatesOf(CallMessages(batches, calls[q]), id)
  {
    var at, c := PerformAllStopping(s, batches, calls[..q]), calls[q];
    if c.Upds? && c.i < |batches| {
      var us := Updates(batches[c.i]);
      var n := Applied(at, us);
      StoppingStores(s, batches, calls[..q]);
      Stopping.PrefixEndsAtMissing(at, us);
      forall j | n <= j < |us|
        ensures us[j].id != id
      {
        assert us[n].id !in at.data;
      }
      UpdatesOfPrefix(us, n, id);
    }
  }

  /** Of the updates of id that call p brings, all take effect. */
  ghost predicate ReachedAt(s: State, batches: seq<seq<Msg>>, calls: seq<Call>, id: TicketId, p: nat)
    requires p < |calls|
  {
    UpdatesOf(Reached(PerformAllStopping(s, batches, calls[..p]), batches, calls[p]), id)
    == UpdatesOf(CallMessages(batches, calls[p]), id)
  }

  ghost predicate ReachedThroughout(s: State, batches: seq<seq<Msg>>, calls: seq<Call>, id: TicketId) {
    forall p :: 0 <= p < |calls| ==> ReachedAt(s, batches, calls, id, p)
  }

  lemma {:induction false} AllUpdatesReached(s: State, batches: seq<seq<Msg>>, calls: seq<Call>, id: TicketId)
    requires ReachedThroughout(s, batches, calls, id)
    ensures UpdatesOf(AllReached(s, batches, calls), id) == UpdatesOf(Messages(batches, calls), id)
  {
    if calls != [] {
      var prior, c := calls[..|calls| - 1], calls[|calls| - 1];
      ReachedBefore(s, batches, prior, c, calls, id);
      AllUpdatesReached(s, batches, prior, id);
      ReachedLikeMessages(s, batches, prior, c, id);
    }
  }

  lemma ReachedBefore(s: State, batches: seq<seq<Msg>>, prior: seq<Call>, c: Call, calls: seq<Call>, id: TicketId)
    requires ReachedThroughout(s, batches, calls, id) && calls != []
    requires prior == calls[..|calls| - 1] && c == calls[|calls| - 1]
    ensures ReachedThroughout(s, batches, prior, id) && calls == prior + [c]
    ensures UpdatesOf(Reached(PerformAllStopping(s, batches, prior), batches, c), id)
            == UpdatesOf(CallMessages(batches, c), id)
  {
    assert ReachedAt(s, batches, calls, id, |calls| - 1);
    forall p | 0 <= p < |prior|
      ensures ReachedAt(s, batches, prior, id, p)
    {
      assert ReachedAt(s, batches, calls, id, p) && prior[..p] == calls[..p];
    }
  }

  lemma ReachedLikeMessages(s: State, batches: seq<seq<Msg>>, prior: seq<Call>, c: Call, id: TicketId)
    requires UpdatesOf(AllReached(s, batches, prior), id) == UpdatesOf(Messages(batches, prior), id)
    requires UpdatesOf(Reached(PerformAllStopping(s, batches, prior), batches, c), id)
             == UpdatesOf(CallMessages(batches, c), id)
    ensures UpdatesOf(AllReached(s, batches, prior + [c]), id) == UpdatesOf(Messages(batches, prior + [c]), id)
  {
    AllReachedSnoc(s, batches, prior, c);
    UpdatesOfAppend(AllReached(s, batches, prior), Reached(PerformAllStopping(s, batches, prior), batches, c), id);
    assert (prior + [c])[..|prior + [c]| - 1] == prior;
    UpdatesOfAppend(Messages(batches, prior), CallMessages(batches, c), id);
  }

  lemma SurvivesPrefix(batches: seq<seq<Msg>>, calls: seq<Call>, q: nat, id: TicketId)
    requires q <= |calls| && Del(id) !in Messages(batches, calls)
    ensures Del(id) !in Messages(batches, calls[..q])
  {
    DeletedInMessages(batches, calls, id);
    DeletedInMessages(batches, calls[..q], id);
  }

  /** Then stopping at missing ids ends like passing over them. */
  lemma UnhinderedStopsLikeSkips(s: State, batches: seq<seq<Msg>>, calls: seq<Call>)
    requires Keyed(s) && Unhindered(s.data.Keys, batches, calls)
    ensures PerformAllStopping(s, batches, calls) == PerformAll(s, batches, calls)
  {
    var reached, all := AllReached(s, batches, calls), Messages(batches, calls);
    PerformAllAsMessages(s, batches, calls);
    PerformAllStoppingAsMessages(s, batches, calls);
    forall id
      ensures SameFor(s.data.Keys, reached, all, id)
    {
      ReachedDeletes(s, batches, calls, id);
      if StoredAfter(s.data.Keys, batches, calls, id) {
        forall p | 0 <= p < |calls|
          ensures ReachedAt(s, batches, calls, id, p)
        {
          SurvivesPrefix(batches, calls, p, id);
          UnhinderedReaches(s, batches, calls, p, id);
        }
        AllUpdatesReached(s, batches, calls, id);
      }
    }
    SamePerTicketSameState(s, reached, all);
  }

  /** The pusher over the memory store refines applying the received messages one by one. */
  lemma PusherRefinesStopping(s: State, events: seq<Event>, workers: nat, calls: seq<Call>)
    requires Keyed(s) && workers > 0
    requires var batches := Batches(events, workers * 2);
             && Complete(calls, |batches|) && Ordered(s.data.Keys, batches, calls)
             && Unhindered(s.data.Keys, batches, calls)
    ensures PerformAllStopping(s, Batches(events, workers * 2), calls) == ApplyAll(s, Received(events))
  {
    UnhinderedStopsLikeSkips(s, Batches(events, workers * 2), calls);
    PusherRefinesSequential(s, events, workers, calls);
  }

  // ----- A hindered update can be lost -----

  /** In call q, update j of a surviving ticket stands behind update i, which does not find its ticket. */
  ghost predicate Hindered(stored: set<TicketId>, batches: seq<seq<Msg>>, calls: seq<Call>, q: nat, i: nat, j: nat) {
    && q < |calls| && calls[q].Upds? && calls[q].i < |batches|
    && i < j < |Updates(batches[calls[q].i])|
    && StoredAfter(stored, batches, calls, Updates(batches[calls[q].i])[j].id)
    && !StoredAfter(stored, batches, calls[..q], Updates(batches[calls[q].i])[i].id)
  }

  /** Batches of the same shapes whose updates do nothing, except that update j of batch k sets nice to 1. */
  function Marked(batches: seq<seq<Msg>>, k: nat, j: nat): (r: seq<seq<Msg>>)
    ensures |r| == |batches|
    ensures forall m :: 0 <= m < |batches| ==>
              r[m] == AsDeletes(Deletes(batches[m])) + AsUpdates(MarkedUpdates(batches, k, j, m))
  {
    seq(|batches|, m requires 0 <= m < |batches| =>
      AsDeletes(Deletes(batches[m])) + AsUpdates(MarkedUpdates(batches, k, j, m)))
  }

  function MarkedUpdates(batches: seq<seq<Msg>>, k: nat, j: nat, m: nat): seq<UpdateSet>
    requires m < |batches|
  {
    var us := Updates(batches[m]);
    Stopping.Probe(us, if m == k then j else |us|)
  }

  lemma MarkedParts(batches: seq<seq<Msg>>, k: nat, j: nat, m: nat)
    requires m < |batches|
    ensures Deletes(Marked(batches, k, j)[m]) == Deletes(batches[m])
    ensures Updates(Marked(batches, k, j)[m]) == MarkedUpdates(batches, k, j, m)
  {
    Stopping.DeletesShape(Deletes(batches[m]));
    Stopping.AppendUpdatesShape(AsDeletes(Deletes(batches[m])), MarkedUpdates(batches, k, j, m));
  }

  lemma MarkedShapes(batches: seq<seq<Msg>>, k: nat, j: nat)
    ensures SameShapes(Marked(batches, k, j), batches)
  {
    forall m | 0 <= m < |batches|
      ensures Stopping.SameShape(Marked(batches, k, j)[m], batches[m])
    {
      MarkedParts(batches, k, j, m);
    }
  }

  lemma SameShapesSameDeletes(xs: seq<seq<Msg>>, ys: seq<seq<Msg>>, calls: seq<Call>, id: TicketId)
    requires SameShapes(xs, ys)
    ensures Del(id) in Flatten(xs) <==> Del(id) in Flatten(ys)
    ensures Del(id) in Messages(xs, calls) <==> Del(id) in Messages(ys, calls)
  {
    forall m | 0 <= m < |xs|
      ensures Del(id) in xs[m] <==> Del(id) in ys[m]
    {
      SameShapeSameCounts(xs[m], ys[m], id);
    }
    InFlatten(xs, Del(id));
    InFlatten(ys, Del(id));
    DeletedInMessages(xs, calls, id);
    DeletedInMessages(ys, calls, id);
  }

  /** An update that sets nice, if at all, to 1. */
  predicate MarkOrNothing(u: UpdateSet) {
    u.nice == None || u.nice == Some(1)
  }

  lemma {:induction false} MarkShows(t: Ticket, us: seq<UpdateSet>)
    requires t.nice == 0 && forall u :: u in us ==> MarkOrNothing(u)
    ensures Updated(t, us).nice == if exists u :: u in us && u.nice.Some? then 1 else 0
  {
    if us != [] {
      var prior, last := us[..|us| - 1], us[|us| - 1];
      MarkShows(t, prior);
      assert us == prior + [last];
      assert MarkOrNothing(last);
    }
  }

  lemma {:induction false} InUpdatesOf(msgs: seq<Msg>, id: TicketId, u: UpdateSet)
    ensures u in UpdatesOf(msgs, id) <==> u.id == id && Upd(u) in msgs
  {
    if msgs != [] {
      InUpdatesOf(msgs[..|msgs| - 1], id, u);
      assert msgs == msgs[..|msgs| - 1] + [msgs[|msgs| - 1]];
    }
  }

  /** A message list without marks but those leaves a ticket of nice 0 marked or not. */
  lemma MarkAfterAll(s: State, msgs: seq<Msg>, id: TicketId)
    requires Keyed(s) && id in s.data && s.data[id].nice == 0 && Del(id) !in msgs
    requires forall u :: Upd(u) in msgs ==> MarkOrNothing(u)
    ensures id in ApplyAll(s, msgs).data
    ensures ApplyAll(s, msgs).data[id].nice
            == if exists u :: Upd(u) in msgs && u.id == id && u.nice.Some? then 1 else 0
  {
    TicketAfterAll(s, msgs, id);
    forall u
      ensures u in UpdatesOf(msgs, id) <==> u.id == id && Upd(u) in msgs
    {
      InUpdatesOf(msgs, id, u);
    }
    MarkShows(s.data[id], UpdatesOf(msgs, id));
  }

  lemma InMarked(batches: seq<seq<Msg>>, k: nat, j: nat, u: UpdateSet)
    ensures Upd(u) in Flatten(Marked(batches, k, j)) <==>
              exists m :: 0 <= m < |batches| && u in MarkedUpdates(batches, k, j, m)
  {
    var marked := Marked(batches, k, j);
    InFlatten(marked, Upd(u));
    forall m | 0 <= m < |batches|
      ensures Upd(u) in marked[m] <==> u in MarkedUpdates(batches, k, j, m)
    {
      InAsUpdates(MarkedUpdates(batches, k, j, m), u);
    }
  }

  lemma InAsUpdates(us: seq<UpdateSet>, u: UpdateSet)
    ensures Upd(u) in AsUpdates(us) <==> u in us
  {
    if u in us {
      var i :| 0 <= i < |us| && us[i] == u;
      assert AsUpdates(us)[i] == Upd(u);
    }
  }

  lemma MarkedSequentially(s: State, batches: seq<seq<Msg>>, k: nat, j: nat)
    requires Keyed(s) && k < |batches| && j < |Updates(batches[k])|
    requires var id := Updates(batches[k])[j].id;
             id in s.data && s.data[id].nice == 0 && Del(id) !in Flatten(Marked(batches, k, j))
    ensures var id, after := Updates(batches[k])[j].id, ApplyAll(s, Flatten(Marked(batches, k, j)));
            id in after.data && after.data[id].nice == 1
  {
    var marked, mark := Flatten(Marked(batches, k, j)), MarkedUpdates(batches, k, j, k)[j];
    forall u | Upd(u) in marked
      ensures MarkOrNothing(u)
    {
      InMarked(batches, k, j, u);
    }
    InMarked(batches, k, j, mark);
    assert Upd(mark) in marked && mark.nice.Some?;
    MarkAfterAll(s, marked, mark.id);
  }

  lemma {:induction false} InAllReached(s: State, batches: seq<seq<Msg>>, calls: seq<Call>, m: Msg) returns (p: nat)
    requires m in AllReached(s, batches, calls)
    ensures p < |calls| && m in Reached(PerformAllStopping(s, batches, calls[..p]), batches, calls[p])
  {
    var prior := calls[..|calls| - 1];
    if m in AllReached(s, batches, prior) {
      p := InAllReached(s, batches, prior, m);
      assert prior[..p] == calls[..p];
    } else {
      p := |calls| - 1;
    }
  }

  /** The memory store never comes to a mark that stands behind a missing id. */
  lemma MarkNotReached(s: State, batches: seq<seq<Msg>>, calls: seq<Call>, q: nat, i: nat, j: nat, u: UpdateSet)
    requires Keyed(s) && Complete(calls, |batches|) && Hindered(s.data.Keys, batches, calls, q, i, j)
    requires Upd(u) in AllReached(s, Marked(batches, calls[q].i, j), calls)
    ensures u.nice == None
  {
    var k := calls[q].i;
    var p := InAllReached(s, Marked(batches, k, j), calls, Upd(u));
    if calls[p] == calls[q] { MissingStops(s, batches, calls[..p], k, i, j); }
    MarkNotInCall(PerformAllStopping(s, Marked(batches, k, j), calls[..p]), batches, k, j, calls[p], u);
  }

  lemma MarkNotInCall(at: State, batches: seq<seq<Msg>>, k: nat, j: nat, c: Call, u: UpdateSet)
    requires Upd(u) in Reached(at, Marked(batches, k, j), c)
    requires c == Upds(k) && k < |batches| ==> Applied(at, MarkedUpdates(batches, k, j, k)) <= j
    ensures u.nice == None
  {
    ReachedUpdate(at, batches, k, j, c, u);
    var us := MarkedUpdates(batches, k, j, c.i);
    var x :| 0 <= x < Applied(at, us) && us[x] == u;
  }

  /** An update that a call comes to is one of those in front of the first missing id. */
  lemma ReachedUpdate(at: State, batches: seq<seq<Msg>>, k: nat, j: nat, c: Call, u: UpdateSet)
    requires Upd(u) in Reached(at, Marked(batches, k, j), c)
    ensures c.Upds? && c.i < |batches|
    ensures var us := MarkedUpdates(batches, k, j, c.i);
            exists x :: 0 <= x < Applied(at, us) && us[x] == u
  {
    if c.i < |batches| && c.Upds? {
      MarkedParts(batches, k, j, c.i);
      var us := MarkedUpdates(batches, k, j, c.i);
      InAsUpdates(us[..Applied(at, us)], u);
    }
  }

  lemma MissingStops(s: State, batches: seq<seq<Msg>>, calls: seq<Call>, k: nat, i: nat, j: nat)
    requires Keyed(s) && k < |batches| && i < |Updates(batches[k])|
    requires !StoredAfter(s.data.Keys, batches, calls, Updates(batches[k])[i].id)
    ensures Applied(PerformAllStopping(s, Marked(batches, k, j), calls), MarkedUpdates(batches, k, j, k)) <= i
  {
    var marked := Marked(batches, k, j);
    var at, id := PerformAllStopping(s, marked, calls), Updates(batches[k])[i].id;
    MarkedShapes(batches, k, j);
    SameShapesSameDeletes(marked, batches, calls, id);
    StoppingStores(s, marked, calls);
    Stopping.PrefixEndsAtMissing(at, MarkedUpdates(batches, k, j, k));
    assert MarkedUpdates(batches, k, j, k)[i].id == id;
  }

  lemma HinderedUnmarked(s: State, batches: seq<seq<Msg>>, calls: seq<Call>, q: nat, i: nat, j: nat)
    requires Keyed(s) && Complete(calls, |batches|) && Hindered(s.data.Keys, batches, calls, q, i, j)
    requires s.data[Updates(batches[calls[q].i])[j].id].nice == 0
    ensures var id := Updates(batches[calls[q].i])[j].id;
            var after := PerformAllStopping(s, Marked(batches, calls[q].i, j), calls);
            id in after.data && after.data[id].nice == 0
  {
    var marked, id := Marked(batches, calls[q].i, j), Updates(batches[calls[q].i])[j].id;
    MarkedShapes(batches, calls[q].i, j);
    SameShapesSameDeletes(marked, batches, calls, id);
    ReachedDeletes(s, marked, calls, id);
    PerformAllStoppingAsMessages(s, marked, calls);
    var reached := AllReached(s, marked, calls);
    forall u | Upd(u) in reached
      ensures u.nice == None
    {
      MarkNotReached(s, batches, calls, q, i, j, u);
    }
    MarkAfterAll(s, reached, id);
  }

  /** A hindered update has contents for which the memory store loses it. */
  lemma HinderedFlushLoses(stored: set<TicketId>, batches: seq<seq<Msg>>, calls: seq<Call>, q: nat, i: nat, j: nat)
    requires Complete(calls, |batches|) && Hindered(stored, batches, calls, q, i, j)
    ensures var s, marked := Stopping.Blank(stored), Marked(batches, calls[q].i, j);
            PerformAllStopping(s, marked, calls) != ApplyAll(s, Flatten(marked))
  {
    var s, k := Stopping.Blank(stored), calls[q].i;
    MarkedShapes(batches, k, j);
    SameShapesSameDeletes(Marked(batches, k, j), batches, calls, Updates(batches[k])[j].id);
    CompleteDeletes(batches, calls, Updates(batches[k])[j].id);
    MarkedSequentially(s, batches, k, j);
    HinderedUnmarked(s, batches, calls, q, i, j);
  }

  lemma CompleteDeletes(batches: seq<seq<Msg>>, calls: seq<Call>, id: TicketId)
    requires Complete(calls, |batches|)
    ensures Del(id) in Messages(batches, calls) <==> Del(id) in Flatten(batches)
  {
    DeletedInMessages(batches, calls, id);
    InFlatten(batches, Del(id));
    if m: nat :| m < |batches| && Del(id) in batches[m] {
      assert Dels(m) in calls;
    }
  }

  // ----- The exact condition for a schedule -----

  lemma SameShapesUnhindered(stored: set<TicketId>, xs: seq<seq<Msg>>, ys: seq<seq<Msg>>, calls: seq<Call>)
    requires SameShapes(ys, xs) && Unhindered(stored, xs, calls)
    ensures Unhindered(stored, ys, calls)
  {
    forall q | 0 <= q < |calls|
      ensures UnhinderedAt(stored, ys, calls, q)
    {
      assert UnhinderedAt(stored, xs, calls, q);
      forall id
        ensures StoredAfter(stored, xs, calls, id) <==> StoredAfter(stored, ys, calls, id)
        ensures StoredAfter(stored, xs, calls[..q], id) <==> StoredAfter(stored, ys, calls[..q], id)
      {
        SameShapesSameDeletes(ys, xs, calls, id);
        SameShapesSameDeletes(ys, xs, calls[..q], id);
      }
    }
  }

  lemma HinderedCallsDiffer(stored: set<TicketId>, batches: seq<seq<Msg>>, calls: seq<Call>)
    returns (s: State, contents: seq<seq<Msg>>)
    requires Complete(calls, |batches|) && !Unhindered(stored, batches, calls)
    ensures Keyed(s) && s.data.Keys == stored && SameShapes(contents, batches)
    ensures PerformAllStopping(s, contents, calls) != ApplyAll(s, Flatten(contents))
  {
    var q :| 0 <= q < |calls| && !UnhinderedAt(stored, batches, calls, q);
    var us := Updates(batches[calls[q].i]);
    var i, j :| 0 <= i < j < |us| && StoredAfter(stored, batches, calls, us[j].id)
      && !StoredAfter(stored, batches, calls[..q], us[i].id);
    s, contents := Stopping.Blank(stored), Marked(batches, calls[q].i, j);
    HinderedFlushLoses(stored, batches, calls, q, i, j);
    MarkedShapes(batches, calls[q].i, j);
  }

  lemma OrderedUnhinderedIsSequential(s: State, contents: seq<seq<Msg>>, batches: seq<seq<Msg>>, calls: seq<Call>)
    requires Keyed(s) && SameShapes(contents, batches) && Complete(calls, |batches|)
    requires Ordered(s.data.Keys, batches, calls) && Unhindered(s.data.Keys, batches, calls)
    ensures PerformAllStopping(s, contents, calls) == ApplyAll(s, Flatten(contents))
  {
    SameShapesUnhindered(s.data.Keys, batches, contents, calls);
    UnhinderedStopsLikeSkips(s, contents, calls);
    InterleavingIsSequentialIff(s.data.Keys, batches, calls);
  }

  /** The witness for calls out of order over a store that passes over missing ids serves here too. */
  lemma DisorderedCallsDiffer(stored: set<TicketId>, batches: seq<seq<Msg>>, calls: seq<Call>)
    returns (s: State, contents: seq<seq<Msg>>)
    requires Complete(calls, |batches|) && Unhindered(stored, batches, calls) && !Ordered(stored, batches, calls)
    ensures Keyed(s) && s.data.Keys == stored && SameShapes(contents, batches)
    ensures PerformAllStopping(s, contents, calls) != ApplyAll(s, Flatten(contents))
  {
    InterleavingIsSequentialIff(stored, batches, calls);
    s, contents :| Keyed(s) && s.data.Keys == stored && SameShapes(contents, batches)
      && PerformAll(s, contents, calls) != ApplyAll(s, Flatten(contents));
    SameShapesUnhindered(stored, batches, contents, calls);
    UnhinderedStopsLikeSkips(s, contents, calls);
  }

  /**
   For a set of stored ids, the shapes of the batches and the order in which their calls reached
   the memory store: the result is that of the messages one by one, for all tickets and all update
   contents, exactly when the calls are ordered and unhindered.
   */
  lemma StoppingInterleavingIsSequentialIff(stored: set<TicketId>, batches: seq<seq<Msg>>, calls: seq<Call>)
    requires Complete(calls, |batches|)
    ensures Ordered(stored, batches, calls) && Unhindered(stored, batches, calls) <==>
              forall s: State, contents: seq<seq<Msg>> ::
                Keyed(s) && s.data.Keys == stored && SameShapes(contents, batches) ==>
                  PerformAllStopping(s, contents, calls) == ApplyAll(s, Flatten(contents))
  {
    if !Unhindered(stored, batches, calls) {
      var s, contents := HinderedCallsDiffer(stored, batches, calls);
    } else if !Ordered(stored, batches, calls) {
      var s, contents := DisorderedCallsDiffer(stored, batches, calls);
    } else {
      forall s: State, contents: seq<seq<Msg>> | Keyed(s) && s.data.Keys == stored && SameShapes(contents, batches)
        ensures PerformAllStopping(s, contents, calls) == ApplyAll(s, Flatten(contents))
      {
        OrderedUnhinderedIsSequential(s, contents, batches, calls);
      }
    }
  }

  // ----- Whatever the schedule -----

  /** In each batch the updates of live tickets come before the others. */
  ghost predicate LiveUpdatesInFront(stored: set<TicketId>, batches: seq<seq<Msg>>) {
    forall k :: 0 <= k < |batches| ==> LiveInFront(stored, batches, Updates(batches[k]))
  }

  ghost predicate LiveInFront(stored: set<TicketId>, batches: seq<seq<Msg>>, us: seq<UpdateSet>) {
    forall i, j :: 0 <= i < j < |us| && Live(stored, batches, us[j].id) ==> Live(stored, batches, us[i].id)
  }

  lemma InFrontIsUnhindered(stored: set<TicketId>, batches: seq<seq<Msg>>, calls: seq<Call>)
    requires Complete(calls, |batches|) && LiveUpdatesInFront(stored, batches)
    ensures Unhindered(stored, batches, calls)
  {
    forall q | 0 <= q < |calls|
      ensures UnhinderedAt(stored, batches, calls, q)
    {
      forall id
        ensures StoredAfter(stored, batches, calls, id) <==> Live(stored, batches, id)
        ensures Live(stored, batches, id) ==> StoredAfter(stored, batches, calls[..q], id)
      {
        CompleteDeletes(batches, calls, id);
        if Live(stored, batches, id) { SurvivesPrefix(batches, calls, q, id); }
      }
      if calls[q].Upds? && calls[q].i < |batches| {
        assert LiveInFront(stored, batches, Updates(batches[calls[q].i]));
      }
    }
  }

  /** With all deletes first, only live tickets are stored when the updates begin. */
  lemma LateFirstDeletes(stored: set<TicketId>, batches: seq<seq<Msg>>, k: nat, id: TicketId)
    requires k < |batches| && !Live(stored, batches, id)
    ensures !StoredAfter(stored, batches, LateFirst(|batches|, k)[..|batches|], id)
  {
    if id in stored {
      var deletes := LateFirst(|batches|, k)[..|batches|];
      InFlatten(batches, Del(id));
      var m: nat :| m < |batches| && Del(id) in batches[m];
      assert deletes[m] == Dels(m);
      DeletedInMessages(batches, deletes, id);
    }
  }

  lemma LateFirstHinders(stored: set<TicketId>, batches: seq<seq<Msg>>, k: nat)
    requires k < |batches| && !LiveInFront(stored, batches, Updates(batches[k]))
    ensures !Unhindered(stored, batches, LateFirst(|batches|, k))
  {
    var n, us, calls := |batches|, Updates(batches[k]), LateFirst(|batches|, k);
    var i, j :| 0 <= i < j < |us| && Live(stored, batches, us[j].id) && !Live(stored, batches, us[i].id);
    LateFirstIsSchedule(n, k);
    CompleteDeletes(batches, calls, us[j].id);
    LateFirstDeletes(stored, batches, k, us[i].id);
    assert calls[n] == Upds(k);
    HinderedIsNotUnhindered(stored, batches, calls, n, i, j);
  }

  lemma HinderedIsNotUnhindered(stored: set<TicketId>, batches: seq<seq<Msg>>, calls: seq<Call>, q: nat, i: nat, j: nat)
    requires Hindered(stored, batches, calls, q, i, j)
    ensures !Unhindered(stored, batches, calls)
  {
    assert !UnhinderedAt(stored, batches, calls, q);
  }

  /**
   So asynchronous flushes of these shapes to the memory store are harmless, whatever the schedule,
   the tickets and the update contents, exactly when no live ticket is updated by two batches and
   in each batch the updates of live tickets come before the others.
   */
  lemma AsyncStoppingFlushesAreSequentialIff(stored: set<TicketId>, batches: seq<seq<Msg>>)
    ensures LiveUpdatesApart(stored, batches) && LiveUpdatesInFront(stored, batches) <==>
              forall calls, s: State, contents: seq<seq<Msg>> ::
                Complete(calls, |batches|) && DeletesFirst(calls)
                && Keyed(s) && s.data.Keys == stored && SameShapes(contents, batches) ==>
                  PerformAllStopping(s, contents, calls) == ApplyAll(s, Flatten(contents))
  {
    EveryScheduleOrderedIff(stored, batches);
    if !LiveUpdatesInFront(stored, batches) {
      var k :| 0 <= k < |batches| && !LiveInFront(stored, batches, Updates(batches[k]));
      LateFirstIsSchedule(|batches|, k);
      LateFirstHinders(stored, batches, k);
      StoppingInterleavingIsSequentialIff(stored, batches, LateFirst(|batches|, k));
    } else if !LiveUpdatesApart(stored, batches) {
      var calls :| Complete(calls, |batches|) && DeletesFirst(calls) && !Ordered(stored, batches, calls);
      StoppingInterleavingIsSequentialIff(stored, batches, calls);
    } else {
      forall calls, s: State, contents: seq<seq<Msg>> | Complete(calls, |batches|) && DeletesFirst(calls)
          && Keyed(s) && s.data.Keys == stored && SameShapes(contents, batches)
        ensures PerformAllStopping(s, contents, calls) == ApplyAll(s, Flatten(contents))
      {
        InFrontIsUnhindered(stored, batches, calls);
        StoppingInterleavingIsSequentialIff(stored, batches, calls);
      }
    }
  }
}
