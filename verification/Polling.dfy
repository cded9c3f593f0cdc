/** What polls guarantee over runs: selection, leases, no starvation, attempts, and no loss. */
module Polling {
  import opened Backoff
  import opened Tickets
  import opened StoreSpec
  import opened Runs

  // ----- One poll -----

  /**
   A poll hands out the first min(limit, eligible) eligible tickets in poll order, leases those
   and leaves every other ticket and every dep set alone.
   */
  lemma PollSelectsTop(s: State, req: PollRequest, ks: seq<TicketId>)
    requires Keyed(s) && ValidPicks(s, req, ks) && req.limit > 0
    ensures Distinct(ks) && |ks| == Min(req.limit, |EligibleKeys(s, req)|)
    ensures forall k :: k in ks ==> k in s.data && Eligible(s, req, s.data[k])
    ensures forall i, j :: 0 <= i < j < |ks| ==> !Before(s.data[ks[j]], s.data[ks[i]])
    ensures forall e, k :: e in s.data && Eligible(s, req, s.data[e]) && e !in ks && k in ks
              ==> !Before(s.data[e], s.data[k])
    ensures Poll(s, req, ks).deps == s.deps && Poll(s, req, ks).data.Keys == s.data.Keys
    ensures forall k :: k in s.data ==>
              Poll(s, req, ks).data[k] == if k in ks then Leased(s.data[k], req) else s.data[k]
  {
    if PollsNothing(req) {
      assert EligibleKeys(s, req) == {};
    }
    PollEffect(s, req, ks);
  }

  /** The ticket may be handed out: pending, due, in a requested tube, its dep set missing or empty. */
  predicate Ready(s: State, req: PollRequest, t: Ticket) {
    && t.status.Pending? && t.runat <= req.now && t.tube in req.requestTubes
    && (t.id !in s.deps || s.deps[t.id] == {})
  }

  /** a runs before b, or at the same time with a nice at most as high. */
  predicate AtOrAhead(a: Ticket, b: Ticket) {
    a.runat < b.runat || (a.runat == b.runat && a.nice <= b.nice)
  }

  /**
   Tickets are handed out earliest first and, at the same time, lowest nice first.  Only ready ones
   are, limit of them unless there are fewer, and a ready one left out is behind them all.
   */
  lemma PollOrder(s: State, req: PollRequest, ks: seq<TicketId>)
    requires ValidPicks(s, req, ks)
    ensures forall k :: k in ks ==> k in s.data && Ready(s, req, s.data[k])
    ensures forall i, j :: 0 <= i < j < |ks| ==> ks[i] != ks[j] && AtOrAhead(s.data[ks[i]], s.data[ks[j]])
    ensures req.limit <= 0 ==> ks == []
    ensures req.limit > 0 ==>
              forall e :: e in s.data && Ready(s, req, s.data[e]) && e !in ks ==>
                |ks| == req.limit && forall k :: k in ks ==> AtOrAhead(s.data[k], s.data[e])
    ensures req.limit > 0 ==> |ks| <= req.limit
  {
    if !PollsNothing(req) {
      forall e | e in s.data && Ready(s, req, s.data[e]) && e !in ks
        ensures |ks| == req.limit && forall k :: k in ks ==> AtOrAhead(s.data[k], s.data[e])
      {
        assert e in EligibleKeys(s, req);
        FullWhenPassingOver(s, req, ks, e);
      }
    }
  }

  lemma FullWhenPassingOver(s: State, req: PollRequest, ks: seq<TicketId>, id: TicketId)
    requires TopPicks(s, req, ks) && id in EligibleKeys(s, req) && id !in ks
    ensures |ks| == req.limit
  {
    DistinctCount(ks);
    if |ks| < req.limit {
      SubsetCount(Keys(ks) + {id}, EligibleKeys(s, req));
    }
  }

  /** Any two answers to the same poll agree, place by place, on run time and nice. */
  lemma PicksAgreeUpToTies(s: State, req: PollRequest, ks: seq<TicketId>, js: seq<TicketId>)
    requires ValidPicks(s, req, ks) && ValidPicks(s, req, js)
    ensures |ks| == |js|
    ensures forall i :: 0 <= i < |ks| ==>
              && ks[i] in s.data && js[i] in s.data
              && s.data[ks[i]].runat == s.data[js[i]].runat && s.data[ks[i]].nice == s.data[js[i]].nice
  {
    if !PollsNothing(req) {
      forall i | 0 <= i < |ks|
        ensures !Before(s.data[ks[i]], s.data[js[i]]) && !Before(s.data[js[i]], s.data[ks[i]])
      {
        NoEarlierPick(s, req, ks, js, i);
        NoEarlierPick(s, req, js, ks, i);
      }
    }
  }

  /** Otherwise the first i + 1 picks of one answer would all be among the first i of the other. */
  lemma NoEarlierPick(s: State, req: PollRequest, ks: seq<TicketId>, js: seq<TicketId>, i: nat)
    requires TopPicks(s, req, ks) && TopPicks(s, req, js) && i < |ks|
    ensures !Before(s.data[ks[i]], s.data[js[i]])
  {
    if Before(s.data[ks[i]], s.data[js[i]]) {
      forall k | k in Keys(ks[..i + 1])
        ensures k in Keys(js[..i])
      {
        var n :| 0 <= n <= i && ks[n] == k;
        assert Before(s.data[k], s.data[js[i]]);
        assert k in js;
        var m :| 0 <= m < |js| && js[m] == k;
        assert m < i;
        assert js[..i][m] == k;
      }
      DistinctCount(ks[..i + 1]);
      DistinctCount(js[..i]);
      SubsetCount(Keys(ks[..i + 1]), Keys(js[..i]));
    }
  }

  // ----- Leases -----

  /**
   What a poll returns is a copy made before the lease was written: its run time, which the caller
   takes as the deadline of the handler, has passed by the time of the poll, and by a positive
   lease the stored ticket runs later than it, by the TTR and the backoff of the attempts so far.
   */
  lemma HandedDeadlinePassed(s: State, req: PollRequest, ks: seq<TicketId>, i: nat)
    requires Keyed(s) && ValidPicks(s, req, ks) && i < |ks|
    ensures ks[i] in s.data && ks[i] in Poll(s, req, ks).data
    ensures var was, handed, stored := s.data[ks[i]], Handed(s, ks)[i], Poll(s, req, ks).data[ks[i]];
            var lease := BackoffDelay(req.backoffBase, was.attempts, req.maxBackoffDelay) + req.ttr;
            && handed == was.(readyAt := was.runat) && was.runat <= req.now
            && stored == was.(readyAt := was.runat, runat := req.now + lease, attempts := was.attempts + 1)
            && (lease > 0 <==> handed.runat <= req.now < stored.runat)
  {
    assert ks[i] in EligibleKeys(s, req);
    PollEffect(s, req, ks);
  }

  ghost predicate ReschedulesInBatch(us: seq<UpdateSet>, id: TicketId) {
    exists i :: 0 <= i < |us| && us[i].id == id && (us[i].runat.Some? || us[i].backoff.Some?)
  }

  /** The step may set the run time of id, or is a poll with a negative delay that returns it. */
  ghost predicate MayReschedule(s: State, step: Step, id: TicketId) {
    match step
    case PutStep(t) => t.id == id
    case PutAfterGroupStep(t, _) => t.id == id && id !in s.data
    case UpdateStep(k, _) => k == id
    case UpdateBatchStep(us) => ReschedulesInBatch(us, id)
    case PollStep(req, ks) => id in ks && id in s.data && PollDelay(req, s.data[id].attempts) < 0
    case _ => false
  }

  /** id, if still stored, does not run before time until. */
  ghost predicate HiddenUntil(s: State, id: TicketId, until: Time) {
    id in s.data ==> s.data[id].runat >= until
  }

  lemma {:induction false} UpdateBatchKeepsRunat(s: State, us: seq<UpdateSet>, id: TicketId)
    requires Keyed(s) && id in s.data && !ReschedulesInBatch(us, id)
    ensures id in UpdateBatch(s, us).data && UpdateBatch(s, us).data[id].runat == s.data[id].runat
  {
    if us != [] {
      var prior, last := us[..|us| - 1], us[|us| - 1];
      assert forall i :: 0 <= i < |prior| ==> prior[i] == us[i];
      UpdateBatchKeepsRunat(s, prior, id);
      UpdateBatchKeyed(s, prior);
      assert last == us[|us| - 1];
    }
  }

  lemma HiddenStep(s: State, step: Step, id: TicketId, until: Time)
    requires Keyed(s) && Enabled(s, step) && KeepsId(s, step)
    requires HiddenUntil(s, id, until) && !MayReschedule(s, step, id)
    ensures HiddenUntil(Next(s, step), id, until)
  {
    match step {
      case DeleteBatchStep(ids) =>
        DeleteBatchEffect(s, ids);
      case UpdateBatchStep(us) =>
        UpdateBatchKeyed(s, us);
        if id in s.data { UpdateBatchKeepsRunat(s, us, id); }
      case PollStep(req, ks) =>
        if ks != [] { PollSelectsTop(s, req, ks); }
      case _ =>
    }
  }

  lemma {:induction false} HiddenAlong(states: seq<State>, steps: seq<Step>, i: nat, j: nat, id: TicketId, until: Time)
    requires IsRun(states, steps) && KeepsIds(states, steps) && Keyed(states[0]) && i <= j <= |steps|
    requires HiddenUntil(states[i], id, until)
    requires forall k :: i <= k < j ==> !MayReschedule(states[k], steps[k], id)
    ensures HiddenUntil(states[j], id, until)
    decreases j
  {
    if i < j {
      HiddenAlong(states, steps, i, j - 1, id, until);
      KeyedAlong(states, steps, j - 1);
      HiddenStep(states[j - 1], steps[j - 1], id, until);
    }
  }

  /**
   Two polls return the same ticket, and nothing between them rescheduled it: the second comes
   at least the TTR plus the backoff of the first later.
   */
  lemma LeaseExclusion(states: seq<State>, steps: seq<Step>, i: nat, j: nat, id: TicketId)
    requires IsRun(states, steps) && KeepsIds(states, steps) && Keyed(states[0])
    requires i < j < |steps| && Returns(steps[i], id) && Returns(steps[j], id)
    requires forall k :: i < k < j ==> !MayReschedule(states[k], steps[k], id)
    ensures id in states[i].data
    ensures var first := steps[i].req;
            steps[j].req.now >= first.now + first.ttr
              + BackoffDelay(first.backoffBase, states[i].data[id].attempts, first.maxBackoffDelay)
  {
    KeyedAlong(states, steps, i);
    KeyedAlong(states, steps, j);
    PollSelectsTop(states[i], steps[i].req, steps[i].ks);
    PollSelectsTop(states[j], steps[j].req, steps[j].ks);
    var until := steps[i].req.now + PollDelay(steps[i].req, states[i].data[id].attempts);
    HiddenAlong(states, steps, i + 1, j, id, until);
  }

  // ----- No starvation -----

  /** The pending tickets other than id at or before it in poll order. */
  ghost function Ahead(s: State, id: TicketId): set<TicketId>
    requires id in s.data
  {
    set k | k in s.data && k != id && s.data[k].status.Pending? && !Before(s.data[id], s.data[k])
  }

  /** A poll that asks for t's tube when t is due. */
  predicate Serves(step: Step, t: Ticket) {
    && step.PollStep? && step.req.limit > 0
    && t.tube in step.req.requestTubes && t.runat <= step.req.now
  }

  /** Every ticket such a poll returns gets a run time after the poll. */
  predicate PositiveLease(req: PollRequest) {
    req.ttr > 0 && req.backoffBase >= 0.0 && req.maxBackoffDelay >= 0
  }

  /** The step leaves the ticket under id as it is, unblocked, with nothing new ahead of it. */
  ghost predicate Harmless(s: State, step: Step, id: TicketId)
    requires Enabled(s, step) && id in s.data
  {
    var after := Next(s, step);
    && id in after.data && after.data[id] == s.data[id]
    && Blockers(after.deps, id) == {}
    && Ahead(after, id) <= Ahead(s, id)
  }

  /** Ticket t under id is pending and blocked by nothing. */
  ghost predicate Waiting(s: State, id: TicketId, t: Ticket) {
    id in s.data && s.data[id] == t && t.status.Pending? && Blockers(s.deps, id) == {}
  }

  /** A poll that passes over a due ticket takes limit tickets from ahead of it. */
  lemma PassedOver(s: State, req: PollRequest, ks: seq<TicketId>, id: TicketId, t: Ticket)
    requires Keyed(s) && ValidPicks(s, req, ks) && Waiting(s, id, t)
    requires Serves(PollStep(req, ks), t) && PositiveLease(req) && id !in ks
    ensures Waiting(Poll(s, req, ks), id, t)
    ensures |Ahead(Poll(s, req, ks), id)| == |Ahead(s, id)| - req.limit
  {
    PollSelectsTop(s, req, ks);
    var after := Poll(s, req, ks);
    var eligible := EligibleKeys(s, req);
    assert id in eligible;
    FullWhenPassingOver(s, req, ks, id);
    DistinctCount(ks);
    forall k | k in ks
      ensures k in Ahead(s, id) && k !in Ahead(after, id)
    {
      assert !Before(s.data[id], s.data[k]);
      BackoffDelayNonNegative(req.backoffBase, s.data[k].attempts, req.maxBackoffDelay);
      assert after.data[k].runat > req.now;
    }
    assert Ahead(after, id) == Ahead(s, id) - Keys(ks);
  }

  /** The limits of the first n steps that serve t, added up. */
  ghost function Served(steps: seq<Step>, n: nat, t: Ticket): nat
    requires n <= |steps|
  {
    if n == 0 then 0
    else Served(steps, n - 1, t) + if Serves(steps[n - 1], t) then steps[n - 1].req.limit else 0
  }

  /** Step i either serves t without returning it, or is harmless to it. */
  ghost predicate Overlooks(states: seq<State>, steps: seq<Step>, id: TicketId, t: Ticket, i: nat)
    requires IsRun(states, steps) && i < |steps|
  {
    if Serves(steps[i], t) then PositiveLease(steps[i].req) && id !in steps[i].ks
    else Waiting(states[i], id, t) ==> Harmless(states[i], steps[i], id)
  }

  lemma {:induction false} OverlookedAlong(states: seq<State>, steps: seq<Step>, id: TicketId, t: Ticket, n: nat)
    requires IsRun(states, steps) && KeepsIds(states, steps) && Keyed(states[0]) && n <= |steps|
    requires Waiting(states[0], id, t)
    requires forall i :: 0 <= i < n ==> Overlooks(states, steps, id, t, i)
    ensures Waiting(states[n], id, t)
    ensures Served(steps, n, t) + |Ahead(states[n], id)| <= |Ahead(states[0], id)|
  {
    if n > 0 {
      OverlookedAlong(states, steps, id, t, n - 1);
      KeyedAlong(states, steps, n - 1);
      var s, step := states[n - 1], steps[n - 1];
      assert Overlooks(states, steps, id, t, n - 1);
      if Serves(step, t) {
        PassedOver(s, step.req, step.ks, id, t);
      } else {
        SubsetCount(Ahead(states[n], id), Ahead(s, id));
      }
    }
  }

  /**
   A due, unblocked ticket with k pending tickets at or before it cannot be passed over by
   polls whose limits add up to more than k, whatever harmless steps come between them.
   */
  lemma NoStarvation(states: seq<State>, steps: seq<Step>, id: TicketId, t: Ticket)
    requires IsRun(states, steps) && KeepsIds(states, steps) && Keyed(states[0])
    requires Waiting(states[0], id, t)
    requires forall i :: 0 <= i < |steps| ==>
               if Serves(steps[i], t) then PositiveLease(steps[i].req)
               else Waiting(states[i], id, t) ==> Harmless(states[i], steps[i], id)
    requires Served(steps, |steps|, t) > |Ahead(states[0], id)|
    ensures exists i :: 0 <= i < |steps| && Returns(steps[i], id)
  {
    if forall i :: 0 <= i < |steps| ==> !Returns(steps[i], id) {
      assert forall i :: 0 <= i < |steps| ==> Overlooks(states, steps, id, t, i);
      OverlookedAlong(states, steps, id, t, |steps|);
    }
  }

  /** The update leaves its ticket terminal, or does not touch its place, or puts it behind t. */
  predicate StaysBehind(us: UpdateSet, t: Ticket) {
    || (us.status.Some? && us.status.value.Terminal())
    || (us.status.None? && us.runat.None? && us.backoff.None? && us.nice.None?)
    || (us.backoff.None? && us.runat.Some? && us.runat.value > t.runat)
    || (us.backoff.Some? && us.backoff.value.base >= 0.0 && us.backoff.value.maxDelay >= 0
        && us.at + us.backoff.value.jitter > t.runat)
  }

  /** The same of an update function, for every ticket it may be given. */
  ghost predicate KeepsBehind(fn: UpdateFunc, t: Ticket) {
    forall u :: fn(u).Success? ==>
      var v := fn(u).value;
      v.status.Terminal() || Before(t, v) || (v.status == u.status && v.runat == u.runat && v.nice == u.nice)
  }

  /**
   A call that has no business with the ticket t under id, as far as its arguments show: it names
   another id and puts nothing at or before t, or it is an expiry, or a poll that does not serve t.
   */
  ghost predicate Bystander(step: Step, id: TicketId, t: Ticket) {
    match step
    case PutStep(u) => u.id == NO_ID || (u.id != id && Before(t, u))
    case PutAfterGroupStep(u, _) => u.id == NO_ID || u.id == id || Before(t, u)
    case DeleteStep(k) => k != id
    case DeleteBatchStep(ids) => id !in ids
    case UpdateBatchStep(us) => forall i :: 0 <= i < |us| ==> us[i].id != id && StaysBehind(us[i], t)
    case UpdateStep(k, fn) => k != id && KeepsBehind(fn, t)
    case PollStep(req, _) => !Serves(step, t) && PositiveLease(req)
    case ExpireStep(_, _, _) => true
  }

  /** The ticket under id is still waiting, with no more tickets ahead of it than before. */
  ghost predicate Undisturbed(s: State, after: State, id: TicketId, t: Ticket)
    requires id in s.data
  {
    Waiting(after, id, t) && Ahead(after, id) <= Ahead(s, id)
  }

  lemma DeleteBatchUndisturbed(s: State, ids: seq<TicketId>, id: TicketId, t: Ticket)
    requires Waiting(s, id, t) && id !in ids
    ensures Undisturbed(s, DeleteBatch(s, ids), id, t)
  {
    DeleteBatchEffect(s, ids);
    DeleteBatchAddsNoBlocker(s, ids, id);
  }

  lemma {:induction false} DeleteBatchAddsNoBlocker(s: State, ids: seq<TicketId>, id: TicketId)
    ensures Blockers(DeleteBatch(s, ids).deps, id) <= Blockers(s.deps, id)
  {
    if ids != [] { DeleteBatchAddsNoBlocker(s, ids[..|ids| - 1], id); }
  }

  lemma ApplyUpdateUndisturbed(s: State, us: UpdateSet, id: TicketId, t: Ticket)
    requires Keyed(s) && Waiting(s, id, t) && us.id in s.data && us.id != id && StaysBehind(us, t)
    ensures Undisturbed(s, ApplyUpdate(s, us), id, t)
  {
    var x := s.data[us.id];
    if us.backoff.Some? && us.backoff.value.base >= 0.0 && us.backoff.value.maxDelay >= 0 {
      BackoffDelayNonNegative(us.backoff.value.base, x.attempts, us.backoff.value.maxDelay);
    }
    assert UpdateOne(x, us).status.Pending? && !Before(t, UpdateOne(x, us)) ==>
        x.status.Pending? && !Before(t, x);
  }

  lemma {:induction false} UpdateBatchUndisturbed(s: State, us: seq<UpdateSet>, id: TicketId, t: Ticket)
    requires Keyed(s) && Waiting(s, id, t) && Bystander(UpdateBatchStep(us), id, t)
    ensures Undisturbed(s, UpdateBatch(s, us), id, t)
  {
    if us != [] {
      var prior, last := us[..|us| - 1], us[|us| - 1];
      assert forall i :: 0 <= i < |prior| ==> prior[i] == us[i];
      UpdateBatchUndisturbed(s, prior, id, t);
      UpdateBatchKeyed(s, prior);
      if last.id in UpdateBatch(s, prior).data {
        ApplyUpdateUndisturbed(UpdateBatch(s, prior), last, id, t);
      }
    }
  }

  lemma PollUndisturbed(s: State, req: PollRequest, ks: seq<TicketId>, id: TicketId, t: Ticket)
    requires Keyed(s) && Waiting(s, id, t) && ValidPicks(s, req, ks) && Bystander(PollStep(req, ks), id, t)
    ensures Undisturbed(s, Poll(s, req, ks), id, t)
  {
    if ks != [] {
      PollSelectsTop(s, req, ks);
      forall k | k in ks
        ensures Before(t, Leased(s.data[k], req)) || !Before(t, s.data[k])
      {
        BackoffDelayNonNegative(req.backoffBase, s.data[k].attempts, req.maxBackoffDelay);
      }
    }
  }

  lemma BystanderIsHarmless(s: State, step: Step, id: TicketId, t: Ticket)
    requires Keyed(s) && Enabled(s, step) && Waiting(s, id, t) && Bystander(step, id, t)
    ensures Harmless(s, step, id)
  {
    match step {
      case DeleteBatchStep(ids) => DeleteBatchUndisturbed(s, ids, id, t);
      case UpdateBatchStep(us) => UpdateBatchUndisturbed(s, us, id, t);
      case PollStep(req, ks) => PollUndisturbed(s, req, ks, id, t);
      case _ =>
    }
  }

  /** The same with the other calls judged by their arguments alone. */
  lemma NoStarvationAmongBystanders(states: seq<State>, steps: seq<Step>, id: TicketId, t: Ticket)
    requires IsRun(states, steps) && KeepsIds(states, steps) && Keyed(states[0])
    requires Waiting(states[0], id, t)
    requires forall i :: 0 <= i < |steps| ==>
               if Serves(steps[i], t) then PositiveLease(steps[i].req) else Bystander(steps[i], id, t)
    requires Served(steps, |steps|, t) > |Ahead(states[0], id)|
    ensures exists i :: 0 <= i < |steps| && Returns(steps[i], id)
  {
    forall i | 0 <= i < |steps| && !Serves(steps[i], t) && Waiting(states[i], id, t)
      ensures Harmless(states[i], steps[i], id)
    {
      KeyedAlong(states, steps, i);
      BystanderIsHarmless(states[i], steps[i], id, t);
    }
    NoStarvation(states, steps, id, t);
  }

  /** With one limit throughout, floor(k / limit) + 1 polls in a row are enough. */
  lemma ReturnedWithinBound(states: seq<State>, steps: seq<Step>, id: TicketId, t: Ticket, limit: int)
    requires IsRun(states, steps) && Keyed(states[0]) && Waiting(states[0], id, t) && limit > 0
    requires forall i :: 0 <= i < |steps| ==>
               Serves(steps[i], t) && steps[i].req.limit == limit && PositiveLease(steps[i].req)
    requires |steps| == |Ahead(states[0], id)| / limit + 1
    ensures exists i :: 0 <= i < |steps| && Returns(steps[i], id)
  {
    ServedByEqualLimits(steps, |steps|, t, limit);
    RoundedUp(|Ahead(states[0], id)|, limit);
    NoStarvation(states, steps, id, t);
  }

  lemma RoundedUp(k: nat, limit: int)
    requires limit > 0
    ensures (k / limit + 1) * limit > k
  {
  }

  lemma {:induction false} ServedByEqualLimits(steps: seq<Step>, n: nat, t: Ticket, limit: int)
    requires n <= |steps|
    requires forall i :: 0 <= i < |steps| ==> Serves(steps[i], t) && steps[i].req.limit == limit
    ensures Served(steps, n, t) == n * limit
  {
    if n > 0 {
      ServedByEqualLimits(steps, n - 1, t, limit);
    }
  }

  // ----- Attempts and loss -----

  /** The step may replace the ticket under id by another. */
  predicate Replaces(s: State, step: Step, id: TicketId) {
    match step
    case PutStep(t) => t.id == id
    case PutAfterGroupStep(t, _) => t.id == id && id !in s.data
    case UpdateStep(k, _) => k == id
    case _ => false
  }

  function PollsReturning(steps: seq<Step>, n: nat, id: TicketId): nat
    requires n <= |steps|
  {
    if n == 0 then 0 else PollsReturning(steps, n - 1, id) + if Returns(steps[n - 1], id) then 1 else 0
  }

  lemma {:induction false} UpdateBatchKeepsAttempts(s: State, us: seq<UpdateSet>, id: TicketId)
    requires Keyed(s) && id in s.data
    ensures id in UpdateBatch(s, us).data && UpdateBatch(s, us).data[id].attempts == s.data[id].attempts
  {
    if us != [] {
      UpdateBatchKeepsAttempts(s, us[..|us| - 1], id);
      UpdateBatchKeyed(s, us[..|us| - 1]);
    }
  }

  /** A step that does not replace a ticket adds one attempt if it returns it, and none otherwise. */
  lemma AttemptsStep(s: State, step: Step, id: TicketId)
    requires Keyed(s) && Enabled(s, step) && KeepsId(s, step) && !Replaces(s, step, id)
    requires id in Next(s, step).data
    ensures id in s.data
    ensures Next(s, step).data[id].attempts == s.data[id].attempts + if Returns(step, id) then 1 else 0
  {
    match step {
      case DeleteBatchStep(ids) => DeleteBatchEffect(s, ids);
      case UpdateBatchStep(us) =>
        UpdateBatchKeyed(s, us);
        UpdateBatchKeepsAttempts(s, us, id);
      case PollStep(req, ks) => if ks != [] { PollSelectsTop(s, req, ks); }
      case _ =>
    }
  }

  /** A ticket's attempts are its first count plus the number of polls that returned it. */
  lemma {:induction false} AttemptsCountPolls(states: seq<State>, steps: seq<Step>, n: nat, id: TicketId)
    requires IsRun(states, steps) && KeepsIds(states, steps) && Keyed(states[0]) && n <= |steps|
    requires forall i :: 0 <= i < n ==> !Replaces(states[i], steps[i], id)
    requires id in states[n].data
    ensures id in states[0].data
    ensures states[n].data[id].attempts == states[0].data[id].attempts + PollsReturning(steps, n, id)
  {
    if n > 0 {
      KeyedAlong(states, steps, n - 1);
      AttemptsStep(states[n - 1], steps[n - 1], id);
      AttemptsCountPolls(states, steps, n - 1, id);
    }
  }

  /**
   A ticket leaves the store exactly by a delete that names it or by an expiry that picks it, and
   an expiry picks no pending ticket and none whose run time is still to come.
   */
  lemma RemovedExactlyBy(s: State, step: Step, id: TicketId)
    requires Keyed(s) && Enabled(s, step) && id in s.data
    ensures id !in Next(s, step).data <==>
              || step == DeleteStep(id)
              || (step.DeleteBatchStep? && id in step.ids)
              || (step.ExpireStep? && id in step.removed)
    ensures step.ExpireStep? && id in step.removed ==> !IsPending(s, id) && s.data[id].runat <= step.now
  {
    match step {
      case DeleteBatchStep(ids) => DeleteBatchEffect(s, ids);
      case UpdateBatchStep(us) => UpdateBatchKeyed(s, us);
      case PollStep(req, ks) => if ks != [] { PollSelectsTop(s, req, ks); }
      case _ =>
    }
  }
}
