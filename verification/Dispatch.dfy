/**
 After a poll with tubes enabled: the polled slice is filtered over its own backing array,
 and tickets of tubes no longer subscribed to are put back with their run time from before.
 */
module Dispatch {
  import opened Wrappers
  import opened Backoff
  import opened Tickets
  import opened StoreSpec
  import opened Runs
  import opened Polling
  import Stopping = StoppingFlush

  function Subscribed(ts: seq<Ticket>, tubes: set<Tube>): (r: seq<Ticket>)
    ensures |r| <= |ts|
  {
    if ts == [] then []
    else
      var t := ts[|ts| - 1];
      Subscribed(ts[..|ts| - 1], tubes) + if t.tube in tubes then [t] else []
  }

  function Unsubscribed(ts: seq<Ticket>, tubes: set<Tube>): seq<Ticket> {
    if ts == [] then []
    else
      var t := ts[|ts| - 1];
      Unsubscribed(ts[..|ts| - 1], tubes) + if t.tube in tubes then [] else [t]
  }

  lemma FilterSnoc(ts: seq<Ticket>, t: Ticket, tubes: set<Tube>)
    ensures Subscribed(ts + [t], tubes) == Subscribed(ts, tubes) + if t.tube in tubes then [t] else []
    ensures Unsubscribed(ts + [t], tubes) == Unsubscribed(ts, tubes) + if t.tube in tubes then [] else [t]
  {
    assert (ts + [t])[..|ts + [t]| - 1] == ts;
  }

  /** Filtering goes ticket by ticket, so dispatch and put-back keep the order of the poll. */
  lemma {:induction false} FilterAppend(xs: seq<Ticket>, ys: seq<Ticket>, tubes: set<Tube>)
    ensures Subscribed(xs + ys, tubes) == Subscribed(xs, tubes) + Subscribed(ys, tubes)
    ensures Unsubscribed(xs + ys, tubes) == Unsubscribed(xs, tubes) + Unsubscribed(ys, tubes)
  {
    if ys == [] {
      assert xs + ys == xs;
    } else {
      var prior, t := ys[..|ys| - 1], ys[|ys| - 1];
      FilterAppend(xs, prior, tubes);
      FilterSnoc(xs + prior, t, tubes);
      assert xs + ys == xs + prior + [t];
    }
  }

  function PutBack(t: Ticket): UpdateSet {
    NoChange(t.id).(runat := Some(t.readyAt))
  }

  function PutBacks(ts: seq<Ticket>): (us: seq<UpdateSet>)
    ensures |us| == |ts| && forall i :: 0 <= i < |ts| ==> us[i] == PutBack(ts[i])
  {
    seq(|ts|, i requires 0 <= i < |ts| => PutBack(ts[i]))
  }

  /** Keeps the subscribed tickets at the front of the array; n of them, to be dispatched. */
  method FilterInPlace(polled: array<Ticket>, tubes: set<Tube>) returns (n: nat, putBack: seq<UpdateSet>)
    modifies polled
    ensures n <= polled.Length && polled[..n] == Subscribed(old(polled[..]), tubes)
    ensures putBack == PutBacks(Unsubscribed(old(polled[..]), tubes))
  {
    n, putBack := 0, [];
    ghost var was := polled[..];
    for i := 0 to polled.Length
      invariant n <= i && polled[..n] == Subscribed(was[..i], tubes)
      invariant polled[i..] == was[i..]
      invariant putBack == PutBacks(Unsubscribed(was[..i], tubes))
    {
      assert was[..i + 1][..i] == was[..i];
      assert polled[i] == was[i] by { assert polled[i..][0] == was[i..][0]; }
      ghost var rest := polled[i + 1..];
      assert rest == was[i + 1..] by { assert polled[i..][1..] == was[i..][1..]; }
      if polled[i].tube in tubes {
        polled[n] := polled[i];
        assert polled[..n + 1] == polled[..n] + [was[i]];
        n := n + 1;
      } else {
        var readyAt := polled[i].readyAt;
        putBack := putBack + [NoChange(polled[i].id).(runat := Some(readyAt))];
      }
      assert polled[i + 1..] == rest;
    }
    assert was[..polled.Length] == was;
  }

  /** Every polled ticket is dispatched or put back, exactly once. */
  lemma {:induction false} NothingDropped(ts: seq<Ticket>, tubes: set<Tube>)
    ensures multiset(Subscribed(ts, tubes)) + multiset(Unsubscribed(ts, tubes)) == multiset(ts)
    ensures forall t :: t in Subscribed(ts, tubes) <==> t in ts && t.tube in tubes
    ensures forall t :: t in Unsubscribed(ts, tubes) <==> t in ts && t.tube !in tubes
  {
    if ts != [] {
      NothingDropped(ts[..|ts| - 1], tubes);
      assert ts == ts[..|ts| - 1] + [ts[|ts| - 1]];
    }
  }

  // ----- Putting back -----

  ghost predicate AllPending(s: State, ts: seq<Ticket>) {
    forall i :: 0 <= i < |ts| ==> IsPending(s, ts[i].id)
  }

  /** The time the last put-back of id asks for. */
  function ReadyAtOf(ts: seq<Ticket>, id: TicketId): (r: Option<Time>)
    ensures r.Some? ==> exists i :: 0 <= i < |ts| && ts[i].id == id && r.value == ts[i].readyAt
    ensures r.None? ==> forall i :: 0 <= i < |ts| ==> ts[i].id != id
  {
    if ts == [] then None
    else if ts[|ts| - 1].id == id then Some(ts[|ts| - 1].readyAt)
    else ReadyAtOf(ts[..|ts| - 1], id)
  }

  lemma PutBacksSnoc(s: State, ts: seq<Ticket>)
    requires ts != []
    ensures var prior, t := ts[..|ts| - 1], ts[|ts| - 1];
            UpdateBatchSkipping(s, PutBacks(ts))
            == UpdateOrSkip(UpdateBatchSkipping(s, PutBacks(prior)), PutBack(t))
  {
    var prior, t := ts[..|ts| - 1], ts[|ts| - 1];
    assert PutBacks(ts) == PutBacks(prior) + [PutBack(t)];
    Stopping.SkippingSnoc(s, PutBacks(prior), PutBack(t));
  }

  /** Putting back changes the run time of the given tickets and no other field or ticket. */
  lemma {:induction false} PutBackAt(s: State, ts: seq<Ticket>, id: TicketId)
    requires Keyed(s) && id in s.data
    ensures var after := UpdateBatchSkipping(s, PutBacks(ts));
            id in after.data && after.data[id] == s.data[id].(runat := ReadyAtOf(ts, id).GetOr(s.data[id].runat))
  {
    if ts != [] {
      PutBackAt(s, ts[..|ts| - 1], id);
      Stopping.SkippingKeyed(s, PutBacks(ts[..|ts| - 1]));
      PutBacksSnoc(s, ts);
    }
  }

  lemma {:induction false} PutBackKeepsDeps(s: State, ts: seq<Ticket>)
    requires Keyed(s) && AllPending(s, ts)
    ensures UpdateBatchSkipping(s, PutBacks(ts)).deps == s.deps
  {
    if ts != [] {
      var prior, t := ts[..|ts| - 1], ts[|ts| - 1];
      PutBackKeepsDeps(s, prior);
      PutBackAt(s, prior, t.id);
      Stopping.SkippingKeyed(s, PutBacks(prior));
      PutBacksSnoc(s, ts);
      assert IsPending(s, t.id);
    }
  }

  /** The memory store, finding all of them stored, does not stop. */
  lemma PutBackDoesNotStop(s: State, ts: seq<Ticket>)
    requires Keyed(s) && forall i :: 0 <= i < |ts| ==> ts[i].id in s.data
    ensures UpdateBatch(s, PutBacks(ts)) == UpdateBatchSkipping(s, PutBacks(ts))
  {
    Stopping.UnobstructedStopsLikeSkips(s, PutBacks(ts));
  }

  /** The store after a poll and the put-back of what it handed out for tubes not in tubes. */
  function PollThenPutBack(s: State, req: PollRequest, ks: seq<TicketId>, tubes: set<Tube>): State
    requires forall i :: 0 <= i < |ks| ==> ks[i] in s.data
  {
    UpdateBatch(Poll(s, req, ks), PutBacks(Unsubscribed(Handed(s, ks), tubes)))
  }

  /** Where a poll and its put-back leave one ticket. */
  function AfterPutBack(s: State, req: PollRequest, ks: seq<TicketId>, tubes: set<Tube>, id: TicketId): Ticket
    requires id in s.data
  {
    var t := s.data[id];
    if id !in ks then t
    else if t.tube in tubes then Leased(t, req)
    else t.(attempts := t.attempts + 1, readyAt := t.runat)
  }

  /**
   A put-back right after the poll undoes the lease: a ticket of a tube not subscribed to gets
   back its run time from before, and only its attempts and ready time have changed.  Dispatched
   tickets stay leased and nothing else is touched.
   */
  lemma PutBackRestores(s: State, req: PollRequest, ks: seq<TicketId>, tubes: set<Tube>)
    requires Keyed(s) && ValidPicks(s, req, ks)
    requires forall i :: 0 <= i < |ks| ==> ks[i] in s.data
    ensures var after := PollThenPutBack(s, req, ks, tubes);
            && after.deps == s.deps && after.data.Keys == s.data.Keys
            && forall id :: id in s.data ==> after.data[id] == AfterPutBack(s, req, ks, tubes, id)
  {
    var polled, back := Poll(s, req, ks), Unsubscribed(Handed(s, ks), tubes);
    PutBacksPending(s, req, ks, tubes);
    PutBackDoesNotStop(polled, back);
    PutBackKeepsDeps(polled, back);
    Stopping.SkippingKeyed(polled, PutBacks(back));
    forall id | id in s.data
      ensures UpdateBatchSkipping(polled, PutBacks(back)).data[id] == AfterPutBack(s, req, ks, tubes, id)
    {
      PutBackAt(polled, back, id);
      PutBackTime(s, ks, tubes, id);
    }
  }

  lemma PutBacksPending(s: State, req: PollRequest, ks: seq<TicketId>, tubes: set<Tube>)
    requires Keyed(s) && ValidPicks(s, req, ks)
    requires forall i :: 0 <= i < |ks| ==> ks[i] in s.data
    ensures var polled := Poll(s, req, ks);
            && Keyed(polled) && polled.deps == s.deps && polled.data.Keys == s.data.Keys
            && forall id :: id in s.data ==>
                 polled.data[id] == if id in ks then Leased(s.data[id], req) else s.data[id]
    ensures AllPending(Poll(s, req, ks), Unsubscribed(Handed(s, ks), tubes))
  {
    var back := Unsubscribed(Handed(s, ks), tubes);
    assert Distinct(ks);
    PollEffect(s, req, ks);
    forall i | 0 <= i < |back|
      ensures IsPending(Poll(s, req, ks), back[i].id)
    {
      PutBackIsHanded(s, ks, tubes, back[i]);
      var k :| 0 <= k < |ks| && ks[k] == back[i].id;
      assert !PollsNothing(req) && ks[k] in EligibleKeys(s, req);
    }
  }

  /** A ticket put back is the copy handed out for one of the keys, in a tube not subscribed to. */
  lemma PutBackIsHanded(s: State, ks: seq<TicketId>, tubes: set<Tube>, t: Ticket)
    requires Keyed(s) && forall i :: 0 <= i < |ks| ==> ks[i] in s.data
    requires t in Unsubscribed(Handed(s, ks), tubes)
    ensures t.id in ks && t.id in s.data && t == ReadyCopy(s.data[t.id]) && t.tube !in tubes
  {
    NothingDropped(Handed(s, ks), tubes);
    var k :| 0 <= k < |ks| && Handed(s, ks)[k] == t;
  }

  lemma PutBackTime(s: State, ks: seq<TicketId>, tubes: set<Tube>, id: TicketId)
    requires Keyed(s) && id in s.data && forall i :: 0 <= i < |ks| ==> ks[i] in s.data
    ensures ReadyAtOf(Unsubscribed(Handed(s, ks), tubes), id)
            == if id in ks && s.data[id].tube !in tubes then Some(s.data[id].runat) else None
  {
    var back := Unsubscribed(Handed(s, ks), tubes);
    var r := ReadyAtOf(back, id);
    NothingDropped(Handed(s, ks), tubes);
    if r.Some? {
      var i :| 0 <= i < |back| && back[i].id == id && r.value == back[i].readyAt;
      PutBackIsHanded(s, ks, tubes, back[i]);
    } else if id in ks {
      var k :| 0 <= k < |ks| && ks[k] == id;
      assert Handed(s, ks)[k] in Handed(s, ks);
    }
  }

  // ----- Putting back later -----

  ghost predicate DistinctIds(ts: seq<Ticket>) {
    forall i, j :: 0 <= i < j < |ts| ==> ts[i].id != ts[j].id
  }

  /** A put-back that reaches the memory store at any later time takes effect up to the first missing ticket. */
  lemma PutBackLater(s: State, ts: seq<Ticket>, id: TicketId)
    requires Keyed(s) && id in s.data
    ensures var n, after := Applied(s, PutBacks(ts)), UpdateBatch(s, PutBacks(ts));
            && (forall i :: 0 <= i < n ==> ts[i].id in s.data)
            && (n < |ts| ==> ts[n].id !in s.data)
            && after.data.Keys == s.data.Keys
            && after.data[id] == s.data[id].(runat := ReadyAtOf(ts[..n], id).GetOr(s.data[id].runat))
  {
    var n := Applied(s, PutBacks(ts));
    Stopping.StoppingIsPrefix(s, PutBacks(ts));
    Stopping.PrefixEndsAtMissing(s, PutBacks(ts));
    assert PutBacks(ts)[..n] == PutBacks(ts[..n]);
    assert forall i :: 0 <= i < |ts| ==> PutBacks(ts)[i].id == ts[i].id;
    UpdateBatchKeyed(s, PutBacks(ts));
    PutBackAt(s, ts[..n], id);
  }

  /** Every ticket put back that is still stored runs at its ready time again. */
  ghost predicate AllReturned(s: State, ts: seq<Ticket>) {
    forall j :: 0 <= j < |ts| && ts[j].id in s.data ==>
      var after := UpdateBatch(s, PutBacks(ts)).data;
      ts[j].id in after && after[ts[j].id].runat == ts[j].readyAt
  }

  lemma ReadyAtOfFirst(ts: seq<Ticket>, n: nat, j: nat)
    requires DistinctIds(ts) && n <= |ts| && j < |ts|
    ensures ReadyAtOf(ts[..n], ts[j].id) == if j < n then Some(ts[j].readyAt) else None
  {
    var first := ts[..n];
    var r := ReadyAtOf(first, ts[j].id);
    if r.Some? {
      var i :| 0 <= i < |first| && first[i].id == ts[j].id && r.value == first[i].readyAt;
      assert ts[i].id == ts[j].id;
    }
  }

  lemma ReturnedAt(s: State, ts: seq<Ticket>, j: nat)
    requires Keyed(s) && DistinctIds(ts) && j < |ts| && ts[j].id in s.data
    ensures var n, after := Applied(s, PutBacks(ts)), UpdateBatch(s, PutBacks(ts)).data;
            ts[j].id in after && after[ts[j].id].runat == if j < n then ts[j].readyAt else s.data[ts[j].id].runat
  {
    PutBackLater(s, ts, ts[j].id);
    ReadyAtOfFirst(ts, Applied(s, PutBacks(ts)), j);
  }

  /** That is so exactly when no stored ticket behind a missing one runs at another time than its ready time. */
  lemma AllReturnedIff(s: State, ts: seq<Ticket>)
    requires Keyed(s) && DistinctIds(ts)
    ensures AllReturned(s, ts) <==>
              forall i, j :: 0 <= i < j < |ts| && ts[i].id !in s.data && ts[j].id in s.data ==>
                s.data[ts[j].id].runat == ts[j].readyAt
  {
    var n := Applied(s, PutBacks(ts));
    Stopping.PrefixEndsAtMissing(s, PutBacks(ts));
    assert forall i :: 0 <= i < |ts| ==> PutBacks(ts)[i].id == ts[i].id;
    forall j: nat | j < |ts| && ts[j].id in s.data
      ensures var after := UpdateBatch(s, PutBacks(ts)).data;
              ts[j].id in after && after[ts[j].id].runat == if j < n then ts[j].readyAt else s.data[ts[j].id].runat
    {
      ReturnedAt(s, ts, j);
    }
  }

  lemma {:induction false} UnsubscribedDistinct(ts: seq<Ticket>, tubes: set<Tube>)
    requires DistinctIds(ts)
    ensures DistinctIds(Unsubscribed(ts, tubes))
  {
    if ts != [] {
      var prior, t := ts[..|ts| - 1], ts[|ts| - 1];
      UnsubscribedDistinct(prior, tubes);
      NothingDropped(prior, tubes);
      forall i | 0 <= i < |Unsubscribed(prior, tubes)|
        ensures Unsubscribed(prior, tubes)[i].id != t.id
      {
        assert Unsubscribed(prior, tubes)[i] in prior;
      }
    }
  }

  /**
   Other callers deleted some tickets between a poll with a positive lease and its put-back: none of
   the tickets left stays leased exactly when none stands behind a deleted one.
   */
  lemma PutBackAfterDeletesIff(s: State, req: PollRequest, ks: seq<TicketId>, tubes: set<Tube>, gone: seq<TicketId>)
    requires Keyed(s) && ValidPicks(s, req, ks) && PositiveLease(req)
    requires forall i :: 0 <= i < |ks| ==> ks[i] in s.data
    ensures var back := Unsubscribed(Handed(s, ks), tubes);
            AllReturned(DeleteBatch(Poll(s, req, ks), gone), back) <==>
              forall i, j :: 0 <= i < j < |back| && back[i].id in gone ==> back[j].id in gone
  {
    var back, at := Unsubscribed(Handed(s, ks), tubes), DeleteBatch(Poll(s, req, ks), gone);
    PutBacksPending(s, req, ks, tubes);
    DeleteBatchEffect(Poll(s, req, ks), gone);
    assert DistinctIds(Handed(s, ks));
    UnsubscribedDistinct(Handed(s, ks), tubes);
    AllReturnedIff(at, back);
    forall i | 0 <= i < |back|
      ensures back[i].id in at.data <==> back[i].id !in gone
      ensures back[i].id in at.data ==> at.data[back[i].id].runat != back[i].readyAt
    {
      StillLeased(s, req, ks, tubes, back[i]);
    }
  }

  lemma StillLeased(s: State, req: PollRequest, ks: seq<TicketId>, tubes: set<Tube>, t: Ticket)
    requires Keyed(s) && ValidPicks(s, req, ks) && PositiveLease(req)
    requires forall i :: 0 <= i < |ks| ==> ks[i] in s.data
    requires t in Unsubscribed(Handed(s, ks), tubes)
    ensures t.id in Poll(s, req, ks).data && Poll(s, req, ks).data[t.id].runat > t.readyAt
  {
    PutBackIsHanded(s, ks, tubes, t);
    PutBacksPending(s, req, ks, tubes);
    var k: nat :| k < |ks| && ks[k] == t.id;
    HandedDeadlinePassed(s, req, ks, k);
    BackoffDelayNonNegative(req.backoffBase, s.data[t.id].attempts, req.maxBackoffDelay);
  }
}
