/**
 Runs of the store: any sequence of calls, each with the choices it leaves open (which tied
 tickets a poll takes, which expired tickets an expiry removes) as part of the step.
 */
module Runs {
  import opened Backoff
  import opened Tickets
  import opened StoreSpec

  datatype Step =
    | PutStep(t: Ticket)
    | PutAfterGroupStep(t: Ticket, g: GroupId)
    | DeleteStep(id: TicketId)
    | DeleteBatchStep(ids: seq<TicketId>)
    | UpdateBatchStep(us: seq<UpdateSet>)
    | UpdateStep(id: TicketId, fn: UpdateFunc)
    | PollStep(req: PollRequest, ks: seq<TicketId>)
    | ExpireStep(limit: int, now: Time, removed: set<TicketId>)

  ghost predicate Enabled(s: State, step: Step) {
    match step
    case PollStep(req, ks) => ValidPicks(s, req, ks)
    case ExpireStep(limit, now, removed) => ValidExpiry(s, limit, now, removed)
    case _ => true
  }

  ghost function Next(s: State, step: Step): State
    requires Enabled(s, step)
  {
    match step
    case PutStep(t) => Put(s, t)
    case PutAfterGroupStep(t, g) => PutAfterGroup(s, t, g)
    case DeleteStep(id) => Delete(s, id)
    case DeleteBatchStep(ids) => DeleteBatch(s, ids)
    case UpdateBatchStep(us) => UpdateBatch(s, us)
    case UpdateStep(id, fn) => Update(s, id, fn)
    case PollStep(req, ks) => Poll(s, req, ks)
    case ExpireStep(_, _, removed) => Expire(s, removed)
  }

  ghost predicate IsRun(states: seq<State>, steps: seq<Step>) {
    && |states| == |steps| + 1
    && forall i :: 0 <= i < |steps| ==> Enabled(states[i], steps[i]) && states[i + 1] == Next(states[i], steps[i])
  }

  /** The step is a poll that hands out id. */
  predicate Returns(step: Step, id: TicketId) {
    step.PollStep? && id in step.ks
  }

  /** The update function, if it runs and succeeds, leaves the id alone. */
  ghost predicate KeepsId(s: State, step: Step) {
    step.UpdateStep? && step.id in s.data && step.fn(s.data[step.id]).Success?
    ==> step.fn(s.data[step.id]).value.id == step.id
  }

  ghost predicate KeepsIds(states: seq<State>, steps: seq<Step>)
    requires |states| == |steps| + 1
  {
    forall i :: 0 <= i < |steps| ==> KeepsId(states[i], steps[i])
  }

  // ----- Operations on stores keyed by id -----

  /** A poll of a keyed store rewrites exactly the tickets it hands out. */
  lemma {:induction false} PollEffect(s: State, req: PollRequest, ks: seq<TicketId>)
    requires Keyed(s) && Distinct(ks) && forall i :: 0 <= i < |ks| ==> ks[i] in s.data
    ensures Poll(s, req, ks).deps == s.deps
    ensures Poll(s, req, ks).data == map id | id in s.data :: if id in ks then Leased(s.data[id], req) else s.data[id]
  {
    if ks != [] {
      var prior, last := ks[..|ks| - 1], ks[|ks| - 1];
      PollEffect(s, req, prior);
      assert ks == prior + [last];
    }
  }

  lemma {:induction false} UpdateBatchKeyed(s: State, us: seq<UpdateSet>)
    requires Keyed(s)
    ensures Keyed(UpdateBatch(s, us)) && UpdateBatch(s, us).data.Keys == s.data.Keys
    ensures UpdateBatch(s, us).deps.Keys == s.deps.Keys
  {
    if us != [] { UpdateBatchKeyed(s, us[..|us| - 1]); }
  }

  /** DeleteBatch removes the given tickets and leaves the others as they are. */
  lemma {:induction false} DeleteBatchEffect(s: State, ids: seq<TicketId>)
    ensures DeleteBatch(s, ids).data == map id | id in s.data && id !in ids :: s.data[id]
  {
    if ids != [] {
      DeleteBatchEffect(s, ids[..|ids| - 1]);
      assert ids == ids[..|ids| - 1] + [ids[|ids| - 1]];
    }
  }

  /** Keys and ids go on agreeing exactly when no update function changes the id. */
  lemma KeyedStepIff(s: State, step: Step)
    requires Keyed(s) && Enabled(s, step)
    ensures Keyed(Next(s, step)) <==> KeepsId(s, step)
  {
    match step {
      case DeleteBatchStep(ids) => DeleteBatchEffect(s, ids);
      case UpdateBatchStep(us) => UpdateBatchKeyed(s, us);
      case UpdateStep(id, fn) =>
        if id in s.data && fn(s.data[id]).Success? { assert id in Update(s, id, fn).data; }
      case PollStep(req, ks) => if ks != [] { PollEffect(s, req, ks); }
      case _ =>
    }
  }

  lemma {:induction false} KeyedAlong(states: seq<State>, steps: seq<Step>, i: nat)
    requires IsRun(states, steps) && KeepsIds(states, steps) && Keyed(states[0]) && i <= |steps|
    ensures Keyed(states[i])
  {
    if i > 0 {
      KeyedAlong(states, steps, i - 1);
      KeyedStepIff(states[i - 1], steps[i - 1]);
    }
  }

  /** DeleteBatch reports exactly the stored tickets of the batch, as they were before the call. */
  lemma {:induction false} DeleteReports(s: State, ids: seq<TicketId>, info: TransitionInfo)
    ensures info in DeleteInfos(s, ids) <==> exists id :: id in ids && id in s.data && info == Info(s.data[id])
  {
    if ids != [] {
      var prior, last := ids[..|ids| - 1], ids[|ids| - 1];
      DeleteReports(s, prior, info);
      DeleteBatchEffect(s, prior);
      assert ids == prior + [last];
    }
  }
}
