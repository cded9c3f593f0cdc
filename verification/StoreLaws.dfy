/**
 What the calls of the store do, told in tickets, fields and dep sets only, and which calls a
 ticket owes its existence and its fields to.
 */
module StoreLaws {
  import opened Wrappers
  import opened Backoff
  import opened Tickets
  import opened StoreSpec
  import opened Runs
  import Stopping = StoppingFlush

  // ----- Put, PutAfterGroup -----

  /** A put stores its ticket as pending, over one of the same id if there is one, and touches nothing else. */
  lemma PutStores(s: State, t: Ticket)
    requires t.id != NO_ID
    ensures var after := Put(s, t);
            && after.deps == s.deps && after.data.Keys == s.data.Keys + {t.id}
            && after.data[t.id] == t.(status := Pending)
            && forall id :: id in s.data && id != t.id ==> after.data[id] == s.data[id]
  {
  }

  /** Without an id, or with a stored one for a finalizer, nothing happens. */
  lemma RejectedPutsChangeNothing(s: State, t: Ticket, g: GroupId)
    ensures t.id == TicketId("") ==> Put(s, t) == s
    ensures t.id == TicketId("") || t.id in s.data ==> PutAfterGroup(s, t, g) == s
  {
  }

  /**
   A new finalizer is stored as pending and made to wait for exactly the other stored tickets that
   are pending and in the group; a ticket without a group is in none.
   */
  lemma PutAfterGroupStores(s: State, t: Ticket, g: GroupId)
    requires t.id != NO_ID && t.id !in s.data
    ensures var after := PutAfterGroup(s, t, g);
            && after.data.Keys == s.data.Keys + {t.id}
            && after.data[t.id] == t.(status := Pending)
            && (forall id :: id in s.data ==> after.data[id] == s.data[id])
            && (forall f :: f != t.id ==> (f in after.deps <==> f in s.deps))
            && (forall f :: f != t.id && f in s.deps ==> after.deps[f] == s.deps[f])
            && (t.id in after.deps ==> t.id in s.deps || after.deps[t.id] != {})
            && (forall b :: Waits(after.deps, t.id, b) <==>
                  || Waits(s.deps, t.id, b)
                  || (b in s.data && b != t.id && s.data[b].status.Pending? && s.data[b].groupId == Some(g)))
  {
    var captured := Captured(s, t, g);
    forall b
      ensures b in captured <==>
                b in s.data && b != t.id && s.data[b].status.Pending? && s.data[b].groupId == Some(g)
    {
      GroupMembersIff(s, g, b);
    }
    assert forall f :: f != t.id ==> (f in Wire(s.deps, t.id, captured) <==> f in s.deps);
  }

  /** What CountPendingInGroup counts. */
  lemma GroupMembersIff(s: State, g: GroupId, id: TicketId)
    ensures id in GroupMembers(s, g) <==>
              id in s.data && s.data[id].status.Pending? && s.data[id].groupId == Some(g)
  {
  }

  // ----- Delete, DeleteBatch -----

  /** A delete takes its ticket and its dep set away, and the id out of every other dep set. */
  lemma DeleteRemoves(s: State, id: TicketId)
    ensures var after := Delete(s, id);
            && after.data.Keys == s.data.Keys - {id}
            && (forall k :: k in after.data ==> after.data[k] == s.data[k])
            && after.deps.Keys == s.deps.Keys - {id}
            && forall f, b :: f in after.deps ==> (b in after.deps[f] <==> b in s.deps[f] && b != id)
  {
  }

  /** A batch does so for its stored ids and leaves the dep sets of and with the others alone. */
  lemma {:induction false} DeleteBatchRemovesDeps(s: State, ids: seq<TicketId>, f: TicketId, b: TicketId)
    ensures var after := DeleteBatch(s, ids);
            && (f in after.deps <==> f in s.deps && !(f in ids && f in s.data))
            && (f in after.deps ==> (b in after.deps[f] <==> b in s.deps[f] && !(b in ids && b in s.data)))
  {
    if ids != [] {
      var prior, last := ids[..|ids| - 1], ids[|ids| - 1];
      DeleteBatchRemovesDeps(s, prior, f, b);
      DeleteBatchEffect(s, prior);
      assert ids == prior + [last];
    }
  }

  /**
   The report of a batch has one entry for each stored id, in the order of first mention, describing
   the ticket as it was.
   */
  lemma {:induction false} DeleteReportsInOrder(s: State, ids: seq<TicketId>) returns (at: seq<nat>)
    ensures |at| == |DeleteInfos(s, ids)|
    ensures forall i, j :: 0 <= i < j < |at| ==> at[i] < at[j]
    ensures forall p: nat :: p in at <==> p < |ids| && ids[p] in s.data && ids[p] !in ids[..p]
    ensures forall i :: 0 <= i < |at| ==>
              && at[i] < |ids| && ids[at[i]] in s.data
              && DeleteInfos(s, ids)[i] == Describing(s.data[ids[at[i]]])
  {
    if ids == [] {
      at := [];
    } else {
      var n := |ids| - 1;
      var prior := ids[..n];
      var before := DeleteReportsInOrder(s, prior);
      DeleteBatchEffect(s, prior);
      assert forall p :: 0 <= p <= n ==> prior[..p] == ids[..p];
      at := before + if ids[n] in s.data && ids[n] !in prior then [n] else [];
      assert forall p :: p in before ==> p < n;
    }
  }

  function Describing(t: Ticket): TransitionInfo {
    TransitionInfo(t.id, t.typ, t.tube, t.status)
  }

  // ----- UpdateBatch, Update -----

  /**
   One update overwrites the fields it gives and keeps the others; the run time is the reading of
   the clock plus the backoff if there is one, whatever else is asked for.  A ticket that ends up
   terminal leaves every dep set.
   */
  lemma UpdateSetsFields(s: State, us: UpdateSet)
    requires Keyed(s) && us.id in s.data
    ensures var was, after := s.data[us.id], UpdateBatch(s, [us]);
            && after.data.Keys == s.data.Keys
            && (forall id :: id in s.data && id != us.id ==> after.data[id] == s.data[id])
            && var now := after.data[us.id];
               && now.status == us.status.GetOr(was.status)
               && now.nice == us.nice.GetOr(was.nice)
               && now.tube == us.tube.GetOr(was.tube)
               && (if us.groupId.Some? then now.groupId == us.groupId else now.groupId == was.groupId)
               && (if us.payload.Some? then now.payload == us.payload else now.payload == was.payload)
               && (if us.errorReason.Some? then now.errorReason == us.errorReason
                   else now.errorReason == was.errorReason)
               && now == was.(status := now.status, nice := now.nice, tube := now.tube, groupId := now.groupId,
                              payload := now.payload, errorReason := now.errorReason, runat := now.runat)
               && (match us.backoff
                   case Some(b) => now.runat == us.at + BackoffDelay(b.base, was.attempts, b.maxDelay) + b.jitter
                   case None => now.runat == us.runat.GetOr(was.runat))
               && (now.status.Pending? ==> after.deps == s.deps)
               && (!now.status.Pending? ==>
                     && after.deps.Keys == s.deps.Keys
                     && forall f, b :: f in s.deps ==> (b in after.deps[f] <==> b in s.deps[f] && b != us.id))
  {
    assert [us][..0] == [];
    assert UpdateBatch(s, [us]) == ApplyUpdate(s, us);
  }

  /** The report of a batch that was applied describes, in order, each ticket as its update left it. */
  lemma {:induction false} UpdateReports(s: State, us: seq<UpdateSet>, i: nat)
    requires Keyed(s) && Applied(s, us) == |us| && i < |us|
    ensures |UpdateInfos(s, us)| == |us|
    ensures var at := UpdateBatch(s, us[..i + 1]);
            us[i].id in at.data && UpdateInfos(s, us)[i] == Describing(at.data[us[i].id])
  {
    var prior := us[..|us| - 1];
    Stopping.LastOfBatch(s, us);
    UpdateBatchKeyed(s, prior);
    if i < |prior| {
      UpdateReports(s, prior, i);
      assert prior[..i + 1] == us[..i + 1];
    } else {
      UpdateReportsLength(s, prior);
      assert us[..i + 1] == us;
    }
  }

  lemma {:induction false} UpdateReportsLength(s: State, us: seq<UpdateSet>)
    requires Applied(s, us) == |us|
    ensures |UpdateInfos(s, us)| == |us|
  {
    if us != [] { UpdateReportsLength(s, us[..|us| - 1]); }
  }

  /** Update stores what the function returns for the stored ticket, and nothing on an error. */
  lemma UpdateStores(s: State, id: TicketId, fn: UpdateFunc)
    ensures Update(s, id, fn).deps == s.deps && Update(s, id, fn).data.Keys == s.data.Keys
    ensures forall k :: k in s.data && k != id ==> Update(s, id, fn).data[k] == s.data[k]
    ensures id in s.data ==>
              Update(s, id, fn).data[id]
              == match fn(s.data[id]) { case Success(t) => t case Failure(_) => s.data[id] }
  {
  }

  // ----- Expiry -----

  /** What may expire, how many go, and that nothing else changes; a negative limit is none. */
  lemma ExpiryTakes(s: State, limit: int, now: Time, removed: set<TicketId>)
    requires ValidExpiry(s, limit, now, removed)
    ensures forall id :: id in removed ==> id in s.data && !s.data[id].status.Pending? && s.data[id].runat <= now
    ensures limit >= 0 ==> |removed| <= limit
    ensures limit < 0 || |removed| < limit ==>
              forall id :: id in s.data && !s.data[id].status.Pending? && s.data[id].runat <= now ==> id in removed
    ensures Expire(s, removed).deps == s.deps && Expire(s, removed).data.Keys == s.data.Keys - removed
    ensures forall id :: id in Expire(s, removed).data ==> Expire(s, removed).data[id] == s.data[id]
  {
    var all := Expirable(s, now);
    if limit < 0 || |removed| < limit {
      forall id | id in s.data && !s.data[id].status.Pending? && s.data[id].runat <= now
        ensures id in removed
      {
        assert id in all;
        if id !in removed { SubsetCount(removed + {id}, all); }
      }
    }
  }

  // ----- What a ticket owes to which call -----

  /** The call submits a ticket under id. */
  predicate Submits(step: Step, id: TicketId) {
    (step.PutStep? || step.PutAfterGroupStep?) && step.t.id == id && id != TicketId("")
  }

  /** A ticket appears exactly by a submission under its id, as submitted but pending. */
  lemma AppearsExactlyBy(s: State, step: Step, id: TicketId)
    requires Keyed(s) && Enabled(s, step) && id !in s.data
    ensures id in Next(s, step).data <==> Submits(step, id)
    ensures Submits(step, id) ==> Next(s, step).data[id] == step.t.(status := Pending)
  {
    match step {
      case DeleteBatchStep(ids) => DeleteBatchEffect(s, ids);
      case UpdateBatchStep(us) => UpdateBatchKeyed(s, us);
      case PollStep(req, ks) => if ks != [] { PollEffect(s, req, ks); }
      case _ =>
    }
  }

  /** The call overwrites or edits the ticket under id, or hands it out. */
  predicate Touches(step: Step, id: TicketId) {
    match step
    case PutStep(t) => t.id == id
    case UpdateBatchStep(us) => exists i :: 0 <= i < |us| && us[i].id == id
    case UpdateStep(k, _) => k == id
    case PollStep(_, ks) => id in ks
    case _ => false
  }

  lemma {:induction false} UpdateBatchLeaves(s: State, us: seq<UpdateSet>, id: TicketId)
    requires Keyed(s) && id in s.data && !Touches(UpdateBatchStep(us), id)
    ensures id in UpdateBatch(s, us).data && UpdateBatch(s, us).data[id] == s.data[id]
  {
    if us != [] {
      var prior, last := us[..|us| - 1], us[|us| - 1];
      assert forall i :: 0 <= i < |prior| ==> prior[i] == us[i];
      UpdateBatchLeaves(s, prior, id);
      UpdateBatchKeyed(s, prior);
      assert us[|us| - 1] == last;
    }
  }

  /** A ticket that stays changes only by a call that names it or hands it out. */
  lemma ChangesOnlyBy(s: State, step: Step, id: TicketId)
    requires Keyed(s) && Enabled(s, step) && id in s.data && id in Next(s, step).data
    requires Next(s, step).data[id] != s.data[id]
    ensures Touches(step, id)
  {
    match step {
      case DeleteBatchStep(ids) => DeleteBatchEffect(s, ids);
      case UpdateBatchStep(us) => if !Touches(step, id) { UpdateBatchLeaves(s, us, id); }
      case PollStep(req, ks) => if ks != [] { PollEffect(s, req, ks); }
      case _ =>
    }
  }
}
