/**
 When a finalizer waits for a ticket: from the submission that captured the ticket until the
 ticket is deleted, is made terminal by an UpdateBatch, or the finalizer itself is deleted.
 */
module Finalizers {
  import opened Wrappers
  import opened Tickets
  import opened StoreSpec
  import opened Runs

  /** Submission of finalizer f finds b pending in its group. */
  ghost predicate Captures(s: State, step: Step, f: TicketId, b: TicketId) {
    && step.PutAfterGroupStep?
    && step.t.id == f && f != NO_ID && f !in s.data
    && b in s.data && b != f && s.data[b].status.Pending? && s.data[b].groupId == Some(step.g)
  }

  /** Some update of the batch that gets applied leaves b in a terminal status. */
  ghost predicate EndsIn(s: State, us: seq<UpdateSet>, b: TicketId) {
    exists i :: 0 <= i < Applied(s, us) && EndsAt(s, us, b, i)
  }

  ghost predicate EndsAt(s: State, us: seq<UpdateSet>, b: TicketId, i: nat)
    requires i < |us|
  {
    var after := UpdateBatch(s, us[..i + 1]);
    us[i].id == b && b in after.data && after.data[b].status.Terminal()
  }

  ghost predicate Releases(s: State, step: Step, f: TicketId, b: TicketId) {
    match step
    case DeleteStep(id) => id == b || id == f
    case DeleteBatchStep(ids) => (b in ids && b in s.data) || (f in ids && f in s.data)
    case UpdateBatchStep(us) => EndsIn(s, us, b)
    case _ => false
  }

  lemma {:induction false} DeleteBatchReleases(s: State, ids: seq<TicketId>, f: TicketId, b: TicketId)
    ensures Waits(DeleteBatch(s, ids).deps, f, b) <==>
              Waits(s.deps, f, b) && !Releases(s, DeleteBatchStep(ids), f, b)
  {
    if ids != [] {
      var prior, last := ids[..|ids| - 1], ids[|ids| - 1];
      DeleteBatchReleases(s, prior, f, b);
      DeleteBatchEffect(s, prior);
      assert ids == prior + [last];
    }
  }

  lemma {:induction false} UpdateBatchReleases(s: State, us: seq<UpdateSet>, f: TicketId, b: TicketId)
    requires Keyed(s)
    ensures Waits(UpdateBatch(s, us).deps, f, b) <==> Waits(s.deps, f, b) && !EndsIn(s, us, b)
  {
    if us != [] {
      var prior := us[..|us| - 1];
      UpdateBatchReleases(s, prior, f, b);
      UpdateBatchKeyed(s, prior);
      EndsInSplit(s, us, b);
      LastUpdateReleases(s, us, f, b);
    }
  }

  lemma LastUpdateReleases(s: State, us: seq<UpdateSet>, f: TicketId, b: TicketId)
    requires us != [] && Keyed(UpdateBatch(s, us[..|us| - 1]))
    ensures Waits(UpdateBatch(s, us).deps, f, b) <==>
              && Waits(UpdateBatch(s, us[..|us| - 1]).deps, f, b)
              && !(Applied(s, us) == |us| && EndsAt(s, us, b, |us| - 1))
  {
    var at, last := UpdateBatch(s, us[..|us| - 1]), us[|us| - 1];
    assert us[..|us| - 1 + 1] == us;
    if Applied(s, us) == |us| {
      ApplyUpdateReleases(at, last, f, b);
      assert UpdateBatch(s, us) == ApplyUpdate(at, last);
    }
  }

  lemma ApplyUpdateReleases(s: State, us: UpdateSet, f: TicketId, b: TicketId)
    requires Keyed(s) && us.id in s.data
    ensures var after := ApplyUpdate(s, us);
            Waits(after.deps, f, b) <==>
              Waits(s.deps, f, b) && !(us.id == b && b in after.data && after.data[b].status.Terminal())
  {
  }

  lemma EndsInSplit(s: State, us: seq<UpdateSet>, b: TicketId)
    requires us != []
    ensures EndsIn(s, us, b) <==>
              EndsIn(s, us[..|us| - 1], b) || (Applied(s, us) == |us| && EndsAt(s, us, b, |us| - 1))
  {
    var prior := us[..|us| - 1];
    forall i: nat | i < |prior|
      ensures EndsAt(s, us, b, i) <==> EndsAt(s, prior, b, i)
    {
      assert prior[..i + 1] == us[..i + 1];
    }
    assert us[..|us|] == us;
  }

  /** One step changes what a finalizer waits for exactly by capturing and releasing. */
  lemma WaitsStep(s: State, step: Step, f: TicketId, b: TicketId)
    requires Keyed(s) && Enabled(s, step)
    ensures Waits(Next(s, step).deps, f, b) <==>
              (Waits(s.deps, f, b) && !Releases(s, step, f, b)) || Captures(s, step, f, b)
  {
    match step {
      case DeleteBatchStep(ids) => DeleteBatchReleases(s, ids, f, b);
      case UpdateBatchStep(us) => UpdateBatchReleases(s, us, f, b);
      case PollStep(req, ks) => if ks != [] { PollEffect(s, req, ks); }
      case _ =>
    }
  }

  /** b was captured for f at step i and nothing between i and j released it. */
  ghost predicate HeldSince(states: seq<State>, steps: seq<Step>, i: nat, j: nat, f: TicketId, b: TicketId)
    requires |states| == |steps| + 1 && j <= |steps|
  {
    && i < j && Captures(states[i], steps[i], f, b)
    && forall k :: i < k < j ==> !Releases(states[k], steps[k], f, b)
  }

  /** At every point of a run from the empty store, f waits for exactly the tickets held for it. */
  lemma {:induction false} WaitsIffHeld(states: seq<State>, steps: seq<Step>, j: nat, f: TicketId, b: TicketId)
    requires IsRun(states, steps) && KeepsIds(states, steps) && states[0] == EMPTY && j <= |steps|
    ensures Waits(states[j].deps, f, b) <==> exists i :: HeldSince(states, steps, i, j, f, b)
  {
    if j > 0 {
      var p: nat := j - 1;
      WaitsIffHeld(states, steps, p, f, b);
      KeyedAlong(states, steps, p);
      WaitsStep(states[p], steps[p], f, b);
      if Captures(states[p], steps[p], f, b) {
        assert HeldSince(states, steps, p, j, f, b);
      }
      if i: nat :| HeldSince(states, steps, i, p, f, b) {
        assert !Releases(states[p], steps[p], f, b) ==> HeldSince(states, steps, i, j, f, b);
      }
      if i: nat :| HeldSince(states, steps, i, j, f, b) {
        assert i < p ==> HeldSince(states, steps, i, p, f, b);
      }
    }
  }

  /** Something between i and j released b, captured for f at step i. */
  ghost predicate ReleasedSince(states: seq<State>, steps: seq<Step>, i: nat, j: nat, f: TicketId, b: TicketId)
    requires |states| == |steps| + 1 && j <= |steps|
  {
    exists k :: i < k < j && Releases(states[k], steps[k], f, b)
  }

  /** Every ticket that was captured for f before step j has been released since. */
  ghost predicate AllReleased(states: seq<State>, steps: seq<Step>, j: nat, f: TicketId)
    requires |states| == |steps| + 1 && j <= |steps|
  {
    forall i: nat, b :: i < j && Captures(states[i], steps[i], f, b) ==> ReleasedSince(states, steps, i, j, f, b)
  }

  /** A finalizer is unblocked exactly when every ticket it ever captured has been released since. */
  lemma UnblockedIffAllReleased(states: seq<State>, steps: seq<Step>, j: nat, f: TicketId)
    requires IsRun(states, steps) && KeepsIds(states, steps) && states[0] == EMPTY && j <= |steps|
    ensures Blockers(states[j].deps, f) == {} <==> AllReleased(states, steps, j, f)
  {
    if Blockers(states[j].deps, f) == {} {
      forall i: nat, b | i < j && Captures(states[i], steps[i], f, b)
        ensures ReleasedSince(states, steps, i, j, f, b)
      {
        WaitsIffHeld(states, steps, j, f, b);
        assert !Waits(states[j].deps, f, b);
        assert !HeldSince(states, steps, i, j, f, b);
      }
    } else {
      var b :| b in Blockers(states[j].deps, f);
      assert Waits(states[j].deps, f, b);
      WaitsIffHeld(states, steps, j, f, b);
      var i: nat :| HeldSince(states, steps, i, j, f, b);
      assert !ReleasedSince(states, steps, i, j, f, b);
    }
  }

  /** So a poll never returns a finalizer before every ticket it captured has been released. */
  lemma NeverReleasedEarly(states: seq<State>, steps: seq<Step>, j: nat, f: TicketId)
    requires IsRun(states, steps) && KeepsIds(states, steps) && states[0] == EMPTY
    requires j < |steps| && Returns(steps[j], f)
    ensures AllReleased(states, steps, j, f)
  {
    KeyedAlong(states, steps, j);
    UnblockedIffAllReleased(states, steps, j, f);
    var n :| 0 <= n < |steps[j].ks| && steps[j].ks[n] == f;
    assert f in EligibleKeys(states[j], steps[j].req);
  }

  // ----- When a finalizer can be returned -----

  /** No stored ticket is pending and carries the group. */
  ghost predicate NoPendingMember(s: State, g: GroupId) {
    forall b :: b in s.data && s.data[b].status.Pending? ==> s.data[b].groupId != Some(g)
  }

  lemma NothingCapturedIff(s: State, t: Ticket, g: GroupId)
    requires t.id !in s.data
    ensures Captured(s, t, g) == {} <==> NoPendingMember(s, g)
  {
    forall b
      ensures b in Captured(s, t, g) <==> b in s.data && s.data[b].status.Pending? && s.data[b].groupId == Some(g)
    {
      assert b in GroupMembers(s, g) <==> b in s.data && PendingInGroup(s, b, g);
    }
  }

  /**
   A new finalizer waits for the pending members of its group and for whatever an earlier
   ticket of the same id, since expired, was still waiting for.  A poll can return it at once
   exactly when it is due, in a requested tube, and both are empty.
   */
  lemma FinalizerBlockers(s: State, t: Ticket, g: GroupId, req: PollRequest)
    requires t.id != NO_ID && t.id !in s.data
    ensures var after := PutAfterGroup(s, t, g);
            && IsPending(after, t.id)
            && Blockers(after.deps, t.id) == Captured(s, t, g) + Blockers(s.deps, t.id)
            && (Eligible(after, req, after.data[t.id]) <==>
                 && t.runat <= req.now && t.tube in req.requestTubes
                 && NoPendingMember(s, g) && Blockers(s.deps, t.id) == {})
  {
    assert Blockers(PutAfterGroup(s, t, g).deps, t.id) == Captured(s, t, g) + Blockers(s.deps, t.id);
    NothingCapturedIff(s, t, g);
  }

  /**
   At any point of a run, a poll can return a stored ticket exactly when it is pending, due, in a
   requested tube, and everything ever captured for it has been released.
   */
  lemma EligibleIffReleased(states: seq<State>, steps: seq<Step>, j: nat, f: TicketId, req: PollRequest)
    requires IsRun(states, steps) && KeepsIds(states, steps) && states[0] == EMPTY && j <= |steps|
    requires f in states[j].data
    ensures var t := states[j].data[f];
            Eligible(states[j], req, t) <==>
              && t.status.Pending? && t.runat <= req.now && t.tube in req.requestTubes
              && AllReleased(states, steps, j, f)
  {
    KeyedAlong(states, steps, j);
    UnblockedIffAllReleased(states, steps, j, f);
  }

  /**
   The documented promise of immediate eligibility, over runs: a finalizer submitted at step j can
   be returned at once exactly when it is due, in a requested tube, no member of its group is
   pending, and what earlier submissions under its id captured has been released.
   */
  lemma FinalizerEligibleAtOnceIff(states: seq<State>, steps: seq<Step>, j: nat, req: PollRequest)
    requires IsRun(states, steps) && KeepsIds(states, steps) && states[0] == EMPTY && j < |steps|
    requires steps[j].PutAfterGroupStep? && steps[j].t.id != NO_ID && steps[j].t.id !in states[j].data
    ensures var t, g := steps[j].t, steps[j].g;
            && t.id in states[j + 1].data
            && (Eligible(states[j + 1], req, states[j + 1].data[t.id]) <==>
                 && t.runat <= req.now && t.tube in req.requestTubes
                 && NoPendingMember(states[j], g) && AllReleased(states, steps, j, t.id))
  {
    FinalizerBlockers(states[j], steps[j].t, steps[j].g, req);
    UnblockedIffAllReleased(states, steps, j, steps[j].t.id);
  }
}
