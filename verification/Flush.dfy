/**
 The pusher's flush applies all deletes of a batch before all its updates.  Applying a message
 list is given a closed form, ticket by ticket, and the order of a list matters only through
 which ids it deletes and the updates it holds for each id.
 */
module Flush {
  import opened Tickets
  import opened StoreSpec

  /** A message of the outcome channel: no update set means delete. */
  datatype Msg = Del(id: TicketId) | Upd(us: UpdateSet)

  function Deletes(msgs: seq<Msg>): seq<TicketId> {
    if msgs == [] then []
    else
      var m := msgs[|msgs| - 1];
      Deletes(msgs[..|msgs| - 1]) + if m.Del? then [m.id] else []
  }

  function Updates(msgs: seq<Msg>): seq<UpdateSet> {
    if msgs == [] then []
    else
      var m := msgs[|msgs| - 1];
      Updates(msgs[..|msgs| - 1]) + if m.Upd? then [m.us] else []
  }

  /** Splitting goes message by message, so both parts keep the order of the batch. */
  lemma {:induction false} SplitAppend(xs: seq<Msg>, ys: seq<Msg>)
    ensures Deletes(xs + ys) == Deletes(xs) + Deletes(ys)
    ensures Updates(xs + ys) == Updates(xs) + Updates(ys)
  {
    if ys == [] {
      assert xs + ys == xs;
    } else {
      SplitAppend(xs, ys[..|ys| - 1]);
      assert (xs + ys)[..|xs + ys| - 1] == xs + ys[..|ys| - 1];
    }
  }

  lemma SplitOne(m: Msg)
    ensures Deletes([m]) == match m { case Del(id) => [id] case Upd(_) => [] }
    ensures Updates([m]) == match m { case Del(_) => [] case Upd(us) => [us] }
  {
    assert [m][..0] == [];
  }

  /** The loop of flush that splits a batch. */
  method Split(batch: seq<Msg>) returns (dels: seq<TicketId>, upds: seq<UpdateSet>)
    ensures dels == Deletes(batch) && upds == Updates(batch)
  {
    dels, upds := [], [];
    for i := 0 to |batch|
      invariant dels == Deletes(batch[..i]) && upds == Updates(batch[..i])
    {
      assert batch[..i + 1][..i] == batch[..i];
      var m := batch[i];
      if m.Del? {
        dels := dels + [m.id];
      } else {
        upds := upds + [m.us];
      }
    }
    assert batch[..|batch|] == batch;
  }

  // ----- One message at a time -----

  function Apply(s: State, m: Msg): State {
    match m
    case Del(id) => DeleteOne(s, id)
    case Upd(us) => UpdateOrSkip(s, us)
  }

  function ApplyAll(s: State, msgs: seq<Msg>): State {
    if msgs == [] then s else Apply(ApplyAll(s, msgs[..|msgs| - 1]), msgs[|msgs| - 1])
  }

  /** The updates of a list that are for id. */
  function UpdatesOf(msgs: seq<Msg>, id: TicketId): seq<UpdateSet> {
    if msgs == [] then []
    else
      var m := msgs[|msgs| - 1];
      UpdatesOf(msgs[..|msgs| - 1], id) + if m.Upd? && m.us.id == id then [m.us] else []
  }

  function Updated(t: Ticket, us: seq<UpdateSet>): Ticket {
    if us == [] then t else UpdateOne(Updated(t, us[..|us| - 1]), us[|us| - 1])
  }

  /** Some of the updates leave the ticket terminal. */
  predicate Ends(t: Ticket, us: seq<UpdateSet>) {
    us != [] && (Ends(t, us[..|us| - 1]) || Updated(t, us).status.Terminal())
  }

  /** The messages take b out of every dep set. */
  predicate ReleasedBy(s: State, msgs: seq<Msg>, b: TicketId) {
    b in s.data && (Del(b) in msgs || Ends(s.data[b], UpdatesOf(msgs, b)))
  }

  lemma UpdatedSnoc(t: Ticket, us: seq<UpdateSet>, u: UpdateSet)
    ensures Updated(t, us + [u]) == UpdateOne(Updated(t, us), u)
    ensures Ends(t, us + [u]) <==> Ends(t, us) || Updated(t, us + [u]).status.Terminal()
  {
    assert (us + [u])[..|us + [u]| - 1] == us;
  }

  lemma UpdatesOfSnoc(msgs: seq<Msg>, m: Msg, id: TicketId)
    ensures UpdatesOf(msgs + [m], id) ==
              if m.Upd? && m.us.id == id then UpdatesOf(msgs, id) + [m.us] else UpdatesOf(msgs, id)
  {
    assert (msgs + [m])[..|msgs + [m]| - 1] == msgs;
  }

  lemma {:induction false} ApplyAllKeyed(s: State, msgs: seq<Msg>)
    requires Keyed(s)
    ensures Keyed(ApplyAll(s, msgs))
  {
    if msgs != [] { ApplyAllKeyed(s, msgs[..|msgs| - 1]); }
  }

  /** Applying a list removes the tickets it deletes and folds, into each other one, its own updates. */
  lemma {:induction false} TicketAfterAll(s: State, msgs: seq<Msg>, id: TicketId)
    requires Keyed(s)
    ensures var r := ApplyAll(s, msgs);
            && (id in r.data <==> id in s.data && Del(id) !in msgs)
            && (id in r.data ==> r.data[id] == Updated(s.data[id], UpdatesOf(msgs, id)))
  {
    if msgs != [] {
      var prior, m := msgs[..|msgs| - 1], msgs[|msgs| - 1];
      assert msgs == prior + [m];
      TicketAfterAll(s, prior, id);
      ApplyAllKeyed(s, prior);
      UpdatesOfSnoc(prior, m, id);
      if m.Upd? && id in s.data { UpdatedSnoc(s.data[id], UpdatesOf(prior, id), m.us); }
    }
  }

  /** Applying a list drops the dep sets of deleted tickets and, from the others, released tickets. */
  lemma {:induction false} DepSetAfterAll(s: State, msgs: seq<Msg>, f: TicketId, b: TicketId)
    requires Keyed(s)
    ensures var r := ApplyAll(s, msgs);
            && (f in r.deps <==> f in s.deps && !(f in s.data && Del(f) in msgs))
            && (f in r.deps ==> (b in r.deps[f] <==> b in s.deps[f] && !ReleasedBy(s, msgs, b)))
  {
    if msgs != [] {
      var prior, m := msgs[..|msgs| - 1], msgs[|msgs| - 1];
      assert msgs == prior + [m];
      DepSetAfterAll(s, prior, f, b);
      ApplyAllKeyed(s, prior);
      TicketAfterAll(s, prior, f);
      TicketAfterAll(s, prior, b);
      UpdatesOfSnoc(prior, m, b);
      if m.Upd? && b in s.data { UpdatedSnoc(s.data[b], UpdatesOf(prior, b), m.us); }
    }
  }

  /**
   Two lists delete the same ids and, for each stored id they do not delete, hold the same
   updates in the same order.
   */
  ghost predicate SamePerTicket(stored: set<TicketId>, xs: seq<Msg>, ys: seq<Msg>) {
    forall id :: SameFor(stored, xs, ys, id)
  }

  ghost predicate SameFor(stored: set<TicketId>, xs: seq<Msg>, ys: seq<Msg>, id: TicketId) {
    && (Del(id) in xs <==> Del(id) in ys)
    && (id in stored && Del(id) !in xs ==> UpdatesOf(xs, id) == UpdatesOf(ys, id))
  }

  lemma SamePerTicketSameState(s: State, xs: seq<Msg>, ys: seq<Msg>)
    requires Keyed(s) && SamePerTicket(s.data.Keys, xs, ys)
    ensures ApplyAll(s, xs) == ApplyAll(s, ys)
  {
    var x, y := ApplyAll(s, xs), ApplyAll(s, ys);
    forall id
      ensures (id in x.data <==> id in y.data) && (id in x.data ==> x.data[id] == y.data[id])
    {
      assert SameFor(s.data.Keys, xs, ys, id);
      TicketAfterAll(s, xs, id);
      TicketAfterAll(s, ys, id);
    }
    forall f
      ensures (f in x.deps <==> f in y.deps) && (f in x.deps ==> x.deps[f] == y.deps[f])
    {
      assert SameFor(s.data.Keys, xs, ys, f);
      DepSetAfterAll(s, xs, f, f);
      DepSetAfterAll(s, ys, f, f);
      if f in x.deps {
        forall b
          ensures b in x.deps[f] <==> b in y.deps[f]
        {
          assert SameFor(s.data.Keys, xs, ys, b);
          DepSetAfterAll(s, xs, f, b);
          DepSetAfterAll(s, ys, f, b);
        }
      }
    }
    assert x.data == y.data;
    assert x.deps == y.deps;
  }

  // ----- A flush -----

  function AsDeletes(ids: seq<TicketId>): (msgs: seq<Msg>)
    ensures |msgs| == |ids| && forall i :: 0 <= i < |ids| ==> msgs[i] == Del(ids[i])
  {
    seq(|ids|, i requires 0 <= i < |ids| => Del(ids[i]))
  }

  function AsUpdates(us: seq<UpdateSet>): (msgs: seq<Msg>)
    ensures |msgs| == |us| && forall i :: 0 <= i < |us| ==> msgs[i] == Upd(us[i])
  {
    seq(|us|, i requires 0 <= i < |us| => Upd(us[i]))
  }

  /** Deletes first, then updates that pass over missing ids. */
  function FlushSkipping(s: State, batch: seq<Msg>): State {
    UpdateBatchSkipping(DeleteBatch(s, Deletes(batch)), Updates(batch))
  }

  /** Deletes first, then updates that stop at the first missing id, as the memory store does. */
  function FlushStopping(s: State, batch: seq<Msg>): State {
    UpdateBatch(DeleteBatch(s, Deletes(batch)), Updates(batch))
  }

  lemma {:induction false} ApplyAllAppend(s: State, xs: seq<Msg>, ys: seq<Msg>)
    ensures ApplyAll(s, xs + ys) == ApplyAll(ApplyAll(s, xs), ys)
  {
    if ys == [] {
      assert xs + ys == xs;
    } else {
      ApplyAllAppend(s, xs, ys[..|ys| - 1]);
      assert (xs + ys)[..|xs + ys| - 1] == xs + ys[..|ys| - 1];
    }
  }

  lemma {:induction false} UpdatesOfAppend(xs: seq<Msg>, ys: seq<Msg>, id: TicketId)
    ensures UpdatesOf(xs + ys, id) == UpdatesOf(xs, id) + UpdatesOf(ys, id)
  {
    if ys == [] {
      assert xs + ys == xs;
    } else {
      UpdatesOfAppend(xs, ys[..|ys| - 1], id);
      assert (xs + ys)[..|xs + ys| - 1] == xs + ys[..|ys| - 1];
    }
  }

  lemma {:induction false} DeleteBatchAsMessages(s: State, ids: seq<TicketId>)
    ensures DeleteBatch(s, ids) == ApplyAll(s, AsDeletes(ids))
  {
    if ids != [] {
      DeleteBatchAsMessages(s, ids[..|ids| - 1]);
      assert AsDeletes(ids)[..|ids| - 1] == AsDeletes(ids[..|ids| - 1]);
    }
  }

  lemma {:induction false} SkippingAsMessages(s: State, us: seq<UpdateSet>)
    ensures UpdateBatchSkipping(s, us) == ApplyAll(s, AsUpdates(us))
  {
    if us != [] {
      SkippingAsMessages(s, us[..|us| - 1]);
      assert AsUpdates(us)[..|us| - 1] == AsUpdates(us[..|us| - 1]);
    }
  }

  /** The messages of a batch in the order a flush applies them. */
  function Regrouped(batch: seq<Msg>): seq<Msg> {
    AsDeletes(Deletes(batch)) + AsUpdates(Updates(batch))
  }

  lemma {:induction false} RegroupedParts(batch: seq<Msg>, id: TicketId)
    ensures id in Deletes(batch) <==> Del(id) in batch
    ensures UpdatesOf(AsUpdates(Updates(batch)), id) == UpdatesOf(batch, id)
  {
    if batch != [] {
      var prior, m := batch[..|batch| - 1], batch[|batch| - 1];
      RegroupedParts(prior, id);
      assert batch == prior + [m];
      if m.Upd? {
        assert AsUpdates(Updates(batch)) == AsUpdates(Updates(prior)) + [Upd(m.us)];
        UpdatesOfSnoc(AsUpdates(Updates(prior)), m, id);
      } else {
        assert Updates(batch) == Updates(prior);
      }
      UpdatesOfSnoc(prior, m, id);
    }
  }

  lemma {:induction false} DeletesHoldNoUpdates(ids: seq<TicketId>, id: TicketId)
    ensures UpdatesOf(AsDeletes(ids), id) == []
  {
    if ids != [] {
      DeletesHoldNoUpdates(ids[..|ids| - 1], id);
      assert AsDeletes(ids)[..|ids| - 1] == AsDeletes(ids[..|ids| - 1]);
    }
  }

  lemma RegroupedSamePerTicket(stored: set<TicketId>, batch: seq<Msg>)
    ensures SamePerTicket(stored, Regrouped(batch), batch)
  {
    forall id
      ensures SameFor(stored, Regrouped(batch), batch, id)
    {
      RegroupedParts(batch, id);
      var dels, upds := AsDeletes(Deletes(batch)), AsUpdates(Updates(batch));
      UpdatesOfAppend(dels, upds, id);
      DeletesHoldNoUpdates(Deletes(batch), id);
      if id in Deletes(batch) {
        var i :| 0 <= i < |Deletes(batch)| && Deletes(batch)[i] == id;
        assert Regrouped(batch)[i] == Del(id);
      }
    }
  }

  /** Where missing ids are passed over, a flush equals its messages applied one by one in order. */
  lemma FlushSkippingIsSequential(s: State, batch: seq<Msg>)
    requires Keyed(s)
    ensures FlushSkipping(s, batch) == ApplyAll(s, batch)
    ensures FlushSkipping(s, batch) == ApplyAll(s, Regrouped(batch))
  {
    var dels, upds := AsDeletes(Deletes(batch)), AsUpdates(Updates(batch));
    DeleteBatchAsMessages(s, Deletes(batch));
    SkippingAsMessages(DeleteBatch(s, Deletes(batch)), Updates(batch));
    ApplyAllAppend(s, dels, upds);
    RegroupedSamePerTicket(s.data.Keys, batch);
    SamePerTicketSameState(s, Regrouped(batch), batch);
  }
}
