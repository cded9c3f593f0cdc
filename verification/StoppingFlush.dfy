/**
 The memory store stops a batch of updates at the first missing id.  A flush still equals its
 messages one by one, whatever the tickets and update sets hold, exactly when no update of a
 ticket that is stored and not deleted by the batch stands behind an update of one that is not.
 */
module StoppingFlush {
  import opened Wrappers
  import opened Tickets
  import opened StoreSpec
  import opened Runs
  import opened Flush

  /** No update of a stored id stands behind an update of a missing one. */
  predicate Unobstructed(stored: set<TicketId>, us: seq<UpdateSet>) {
    forall i, j :: 0 <= i < j < |us| && us[i].id !in stored ==> us[j].id !in stored
  }

  lemma {:induction false} SkippingKeyed(s: State, us: seq<UpdateSet>)
    requires Keyed(s)
    ensures Keyed(UpdateBatchSkipping(s, us)) && UpdateBatchSkipping(s, us).data.Keys == s.data.Keys
  {
    if us != [] { SkippingKeyed(s, us[..|us| - 1]); }
  }

  /** Stopping applies exactly a prefix of the batch. */
  lemma {:induction false} StoppingIsPrefix(s: State, us: seq<UpdateSet>)
    ensures UpdateBatch(s, us) == UpdateBatchSkipping(s, us[..Applied(s, us)])
  {
    if us != [] {
      var prior := us[..|us| - 1];
      var n := Applied(s, prior);
      StoppingIsPrefix(s, prior);
      LastOfBatch(s, us);
      if Applied(s, us) == |us| {
        assert prior[..n] == prior && us[..|us|] == us;
      } else {
        assert us[..n] == prior[..n];
      }
    }
  }

  /** That prefix ends before the first missing id. */
  lemma {:induction false} PrefixEndsAtMissing(s: State, us: seq<UpdateSet>)
    requires Keyed(s)
    ensures forall k :: 0 <= k < Applied(s, us) ==> us[k].id in s.data
    ensures Applied(s, us) < |us| ==> us[Applied(s, us)].id !in s.data
  {
    if us != [] {
      var prior := us[..|us| - 1];
      PrefixEndsAtMissing(s, prior);
      UpdateBatchKeyed(s, prior);
      LastOfBatch(s, us);
      assert forall k :: 0 <= k < |prior| ==> prior[k] == us[k];
    }
  }

  /** What the last update of a batch adds to the ones before it. */
  lemma LastOfBatch(s: State, us: seq<UpdateSet>)
    requires us != []
    ensures var prior, last := us[..|us| - 1], us[|us| - 1];
            var at, n := UpdateBatch(s, prior), Applied(s, prior);
            if n == |prior| && last.id in at.data
            then Applied(s, us) == |us| && UpdateBatch(s, us) == ApplyUpdate(at, last)
            else Applied(s, us) == n && UpdateBatch(s, us) == at
  {
  }

  lemma {:induction false} MissingTailSkipped(s: State, us: seq<UpdateSet>, n: nat)
    requires Keyed(s) && n <= |us| && forall k :: n <= k < |us| ==> us[k].id !in s.data
    ensures UpdateBatchSkipping(s, us) == UpdateBatchSkipping(s, us[..n])
  {
    if n == |us| {
      assert us[..n] == us;
    } else {
      var prior := us[..|us| - 1];
      MissingTailSkipped(s, prior, n);
      SkippingKeyed(s, prior);
      assert prior[..n] == us[..n];
    }
  }

  lemma UnobstructedStopsLikeSkips(s: State, us: seq<UpdateSet>)
    requires Keyed(s) && Unobstructed(s.data.Keys, us)
    ensures UpdateBatch(s, us) == UpdateBatchSkipping(s, us)
  {
    StoppingIsPrefix(s, us);
    PrefixEndsAtMissing(s, us);
    MissingTailSkipped(s, us, Applied(s, us));
  }

  // ----- An obstructed update can be lost -----

  /** Updates of the same ids that change nothing, except that the one at j sets nice to 1. */
  function Probe(us: seq<UpdateSet>, j: nat): (vs: seq<UpdateSet>)
    ensures |vs| == |us|
    ensures forall k :: 0 <= k < |us| ==>
              vs[k] == NoChange(us[k].id).(nice := if k == j then Some(1) else None)
  {
    seq(|us|, k requires 0 <= k < |us| => NoChange(us[k].id).(nice := if k == j then Some(1) else None))
  }

  /** A store with a pending ticket of nice 0 under each of the given ids. */
  function Blank(ids: set<TicketId>): (s: State)
    ensures Keyed(s) && s.data.Keys == ids && forall id :: id in ids ==> s.data[id].nice == 0
  {
    State(
      map id | id in ids :: Ticket(id, Pending, Tube("default"), None, 0, 0, "job", 0, None, 0, None, None, 0),
      map[])
  }

  lemma SkippingSnoc(s: State, us: seq<UpdateSet>, u: UpdateSet)
    ensures UpdateBatchSkipping(s, us + [u]) == UpdateOrSkip(UpdateBatchSkipping(s, us), u)
  {
    assert (us + [u])[..|us + [u]| - 1] == us;
  }

  lemma {:induction false} ProbeNice(s: State, us: seq<UpdateSet>, j: nat, n: nat)
    requires Keyed(s) && j < |us| && n <= |us| && us[j].id in s.data && s.data[us[j].id].nice == 0
    ensures us[j].id in UpdateBatchSkipping(s, Probe(us, j)[..n]).data
    ensures UpdateBatchSkipping(s, Probe(us, j)[..n]).data[us[j].id].nice == if j < n then 1 else 0
  {
    if n > 0 {
      var prior, v := Probe(us, j)[..n - 1], Probe(us, j)[n - 1];
      ProbeNice(s, us, j, n - 1);
      SkippingKeyed(s, prior);
      assert Probe(us, j)[..n] == prior + [v];
      SkippingSnoc(s, prior, v);
    }
  }

  lemma ObstructedLosesProbe(s: State, us: seq<UpdateSet>, i: nat, j: nat)
    requires Keyed(s) && i < j < |us| && us[i].id !in s.data
    requires us[j].id in s.data && s.data[us[j].id].nice == 0
    ensures UpdateBatch(s, Probe(us, j)) != UpdateBatchSkipping(s, Probe(us, j))
  {
    var vs := Probe(us, j);
    StoppingIsPrefix(s, vs);
    PrefixEndsAtMissing(s, vs);
    assert vs[i].id !in s.data;
    ProbeNice(s, us, j, Applied(s, vs));
    ProbeNice(s, us, j, |us|);
    assert vs[..|us|] == vs;
  }

  // ----- The flush -----

  ghost predicate SameIds(us: seq<UpdateSet>, vs: seq<UpdateSet>) {
    |us| == |vs| && forall i :: 0 <= i < |us| ==> us[i].id == vs[i].id
  }

  /** Deletes the same ids and updates the same ids, in the same order, with any contents. */
  ghost predicate SameShape(xs: seq<Msg>, ys: seq<Msg>) {
    Deletes(xs) == Deletes(ys) && SameIds(Updates(xs), Updates(ys))
  }

  /** The ids still stored after the deletes of the batch. */
  function Kept(stored: set<TicketId>, batch: seq<Msg>): set<TicketId> {
    set id | id in stored && id !in Deletes(batch)
  }

  lemma StoppingFlushIsSequential(s: State, batch: seq<Msg>)
    requires Keyed(s) && Unobstructed(Kept(s.data.Keys, batch), Updates(batch))
    ensures FlushStopping(s, batch) == ApplyAll(s, batch)
  {
    var d := DeleteBatch(s, Deletes(batch));
    DeleteBatchEffect(s, Deletes(batch));
    assert d.data.Keys == Kept(s.data.Keys, batch);
    UnobstructedStopsLikeSkips(d, Updates(batch));
    FlushSkippingIsSequential(s, batch);
  }

  lemma {:induction false} DeletesShape(dels: seq<TicketId>)
    ensures Deletes(AsDeletes(dels)) == dels && Updates(AsDeletes(dels)) == []
  {
    if dels != [] {
      DeletesShape(dels[..|dels| - 1]);
      assert AsDeletes(dels)[..|dels| - 1] == AsDeletes(dels[..|dels| - 1]);
    }
  }

  lemma {:induction false} UpdatesShape(us: seq<UpdateSet>)
    ensures Deletes(AsUpdates(us)) == [] && Updates(AsUpdates(us)) == us
  {
    if us != [] {
      UpdatesShape(us[..|us| - 1]);
      assert AsUpdates(us)[..|us| - 1] == AsUpdates(us[..|us| - 1]);
    }
  }

  lemma AppendUpdatesShape(msgs: seq<Msg>, us: seq<UpdateSet>)
    ensures Deletes(msgs + AsUpdates(us)) == Deletes(msgs)
    ensures Updates(msgs + AsUpdates(us)) == Updates(msgs) + us
  {
    SplitAppend(msgs, AsUpdates(us));
    UpdatesShape(us);
  }

  /** A flush of the given deletes and updates, both ways. */
  lemma RegroupedFlush(s: State, dels: seq<TicketId>, us: seq<UpdateSet>)
    requires Keyed(s)
    ensures var batch, d := AsDeletes(dels) + AsUpdates(us), DeleteBatch(s, dels);
            && Deletes(batch) == dels && Updates(batch) == us
            && FlushStopping(s, batch) == UpdateBatch(d, us)
            && ApplyAll(s, batch) == UpdateBatchSkipping(d, us)
  {
    DeletesShape(dels);
    AppendUpdatesShape(AsDeletes(dels), us);
    FlushSkippingIsSequential(s, AsDeletes(dels) + AsUpdates(us));
  }

  lemma BlankAfterDeletes(stored: set<TicketId>, batch: seq<Msg>)
    ensures var d := DeleteBatch(Blank(stored), Deletes(batch));
            && Keyed(d) && d.data.Keys == Kept(stored, batch)
            && forall id :: id in d.data ==> d.data[id].nice == 0
  {
    DeleteBatchEffect(Blank(stored), Deletes(batch));
  }

  /** An obstructed batch has a store and a batch of its shape for which the flush loses an update. */
  lemma ObstructedFlushLoses(s: State, batch: seq<Msg>) returns (s': State, batch': seq<Msg>)
    requires Keyed(s) && !Unobstructed(Kept(s.data.Keys, batch), Updates(batch))
    ensures Keyed(s') && s'.data.Keys == s.data.Keys && SameShape(batch', batch)
    ensures FlushStopping(s', batch') != ApplyAll(s', batch')
  {
    var us := Updates(batch);
    var i, j :| 0 <= i < j < |us| && us[i].id !in Kept(s.data.Keys, batch) && us[j].id in Kept(s.data.Keys, batch);
    s' := Blank(s.data.Keys);
    batch' := AsDeletes(Deletes(batch)) + AsUpdates(Probe(us, j));
    BlankAfterDeletes(s.data.Keys, batch);
    RegroupedFlush(s', Deletes(batch), Probe(us, j));
    ObstructedLosesProbe(DeleteBatch(s', Deletes(batch)), us, i, j);
  }

  /**
   For a set of stored ids and the shape of a batch: the memory store's flush agrees with the
   messages applied one by one, for all tickets and all update contents, exactly when no live
   update is obstructed.
   */
  lemma StoppingFlushIsSequentialIff(s: State, batch: seq<Msg>)
    requires Keyed(s)
    ensures Unobstructed(Kept(s.data.Keys, batch), Updates(batch)) <==>
              forall s': State, batch': seq<Msg> ::
                Keyed(s') && s'.data.Keys == s.data.Keys && SameShape(batch', batch) ==>
                  FlushStopping(s', batch') == ApplyAll(s', batch')
  {
    if Unobstructed(Kept(s.data.Keys, batch), Updates(batch)) {
      forall s': State, batch': seq<Msg> | Keyed(s') && s'.data.Keys == s.data.Keys && SameShape(batch', batch)
        ensures FlushStopping(s', batch') == ApplyAll(s', batch')
      {
        StoppingFlushIsSequential(s', batch');
      }
    } else {
      var s', batch' := ObstructedFlushLoses(s, batch);
    }
  }
}
