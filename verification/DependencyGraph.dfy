/**
 The graph of finalizers and the tickets they wait for.  It stays acyclic and points at
 pending tickets only, so some pending ticket can always run.
 */
module DependencyGraph {
  import opened Wrappers
  import opened Backoff
  import opened Tickets
  import opened StoreSpec
  import opened Runs

  type Rank = TicketId -> nat

  ghost predicate IsBlocker(deps: Deps, b: TicketId) {
    exists f :: Waits(deps, f, b)
  }

  /** Only stored pending tickets block others. */
  ghost predicate BlockersPending(s: State) {
    forall f, b :: Waits(s.deps, f, b) ==> IsPending(s, b)
  }

  ghost predicate RankedBy(deps: Deps, rank: Rank) {
    forall f, b :: Waits(deps, f, b) ==> rank(b) < rank(f)
  }

  ghost predicate Ranked(deps: Deps) {
    exists rank :: RankedBy(deps, rank)
  }

  ghost predicate Sound(s: State) {
    BlockersPending(s) && Ranked(s.deps)
  }

  /** A walk from finalizer to blocker, again and again. */
  ghost predicate Walk(deps: Deps, p: seq<TicketId>) {
    forall i, j :: 0 <= i && j == i + 1 < |p| ==> Waits(deps, p[i], p[j])
  }

  ghost predicate Acyclic(deps: Deps) {
    forall p :: Walk(deps, p) && |p| > 1 ==> p[0] != p[|p| - 1]
  }

  lemma {:induction false} WalkDescends(deps: Deps, rank: Rank, p: seq<TicketId>)
    requires RankedBy(deps, rank) && Walk(deps, p) && |p| > 1
    ensures rank(p[|p| - 1]) < rank(p[0])
  {
    var q := p[..|p| - 1];
    assert Waits(deps, p[|p| - 2], p[|p| - 1]);
    if |q| > 1 {
      assert forall i :: 0 <= i < |q| ==> q[i] == p[i];
      WalkDescends(deps, rank, q);
    }
  }

  lemma RankedIsAcyclic(deps: Deps)
    requires Ranked(deps)
    ensures Acyclic(deps)
  {
    var rank :| RankedBy(deps, rank);
    forall p | Walk(deps, p) && |p| > 1
      ensures p[0] != p[|p| - 1]
    {
      WalkDescends(deps, rank, p);
    }
  }

  // ----- Every step keeps the graph sound, except an update that strands a finalizer -----

  /** No edge was added. */
  ghost predicate Shrinks(deps: Deps, after: Deps) {
    forall f, b :: Waits(after, f, b) ==> Waits(deps, f, b)
  }

  lemma ShrinkingKeepsRank(deps: Deps, after: Deps)
    requires Ranked(deps) && Shrinks(deps, after)
    ensures Ranked(after)
  {
    var rank :| RankedBy(deps, rank);
    assert RankedBy(after, rank);
  }

  lemma {:induction false} RankBound(ids: set<TicketId>, rank: Rank) returns (bound: nat)
    ensures forall b :: b in ids ==> rank(b) < bound
  {
    if ids == {} {
      bound := 0;
    } else {
      var b :| b in ids;
      var rest := RankBound(ids - {b}, rank);
      bound := if rest <= rank(b) then rank(b) + 1 else rest;
    }
  }

  lemma WireWaits(deps: Deps, f: TicketId, captured: set<TicketId>, x: TicketId, b: TicketId)
    ensures Waits(Wire(deps, f, captured), x, b) <==> Waits(deps, x, b) || (x == f && b in captured)
  {
  }

  /** New edges from an id that nothing waits for close no cycle. */
  lemma WiringKeepsRank(deps: Deps, f: TicketId, captured: set<TicketId>)
    requires Ranked(deps) && !IsBlocker(deps, f) && f !in captured
    ensures Ranked(Wire(deps, f, captured))
  {
    var rank :| RankedBy(deps, rank);
    var own := Blockers(deps, f) + captured;
    var bound := RankBound(own, rank);
    var lifted: Rank := id => if id == f then bound else rank(id);
    forall x, b | Waits(Wire(deps, f, captured), x, b)
      ensures lifted(b) < lifted(x)
    {
      WireWaits(deps, f, captured, x, b);
    }
    assert RankedBy(Wire(deps, f, captured), lifted);
  }

  lemma PutAfterGroupSound(s: State, t: Ticket, g: GroupId)
    requires Sound(s)
    ensures Sound(PutAfterGroup(s, t, g))
  {
    if t.id != NO_ID && t.id !in s.data {
      var captured := Captured(s, t, g);
      WiringKeepsRank(s.deps, t.id, captured);
      forall f, b | Waits(Wire(s.deps, t.id, captured), f, b)
        ensures IsPending(s, b)
      {
        WireWaits(s.deps, t.id, captured, f, b);
      }
    }
  }

  lemma DeleteSound(s: State, id: TicketId)
    requires Sound(s)
    ensures Sound(Delete(s, id))
  {
    ShrinkingKeepsRank(s.deps, RemoveDep(s.deps, id));
  }

  lemma {:induction false} DeleteBatchSound(s: State, ids: seq<TicketId>)
    requires Sound(s)
    ensures Sound(DeleteBatch(s, ids))
  {
    if ids != [] {
      DeleteBatchSound(s, ids[..|ids| - 1]);
      DeleteSound(DeleteBatch(s, ids[..|ids| - 1]), ids[|ids| - 1]);
    }
  }

  lemma ApplyUpdateSound(s: State, us: UpdateSet)
    requires Sound(s) && us.id in s.data
    ensures Sound(ApplyUpdate(s, us))
  {
    ShrinkingKeepsRank(s.deps, ClearBlocker(s.deps, s.data[us.id].id));
  }

  lemma {:induction false} UpdateBatchSound(s: State, us: seq<UpdateSet>)
    requires Sound(s)
    ensures Sound(UpdateBatch(s, us))
  {
    if us != [] {
      var prior, last := us[..|us| - 1], us[|us| - 1];
      UpdateBatchSound(s, prior);
      if last.id in UpdateBatch(s, prior).data {
        ApplyUpdateSound(UpdateBatch(s, prior), last);
      }
    }
  }

  /** A poll writes pending tickets only. */
  lemma {:induction false} PollKeepsPending(s: State, req: PollRequest, ks: seq<TicketId>)
    requires forall i :: 0 <= i < |ks| ==> ks[i] in s.data && s.data[ks[i]].status.Pending?
    ensures Poll(s, req, ks).deps == s.deps
    ensures forall id :: IsPending(s, id) ==> IsPending(Poll(s, req, ks), id)
  {
    if ks != [] { PollKeepsPending(s, req, ks[..|ks| - 1]); }
  }

  /** The update function does not take a ticket that others wait for out of pending. */
  ghost predicate Tame(s: State, step: Step) {
    step.UpdateStep? && step.id in s.data && step.fn(s.data[step.id]).Success? ==>
      step.fn(s.data[step.id]).value.status.Pending? || !IsBlocker(s.deps, step.id)
  }

  /**
   A step keeps the graph ranked and pointing at stored pending tickets exactly when it is tame;
   only Update can fail to be.  What ids the tickets carry does not matter.
   */
  lemma SoundStepIff(s: State, step: Step)
    requires Sound(s) && Enabled(s, step)
    ensures Sound(Next(s, step)) <==> Tame(s, step)
  {
    match step {
      case PutStep(t) =>
      case PutAfterGroupStep(t, g) => PutAfterGroupSound(s, t, g);
      case DeleteStep(id) => DeleteSound(s, id);
      case DeleteBatchStep(ids) => DeleteBatchSound(s, ids);
      case UpdateBatchStep(us) => UpdateBatchSound(s, us);
      case UpdateStep(id, fn) => UpdateSoundIff(s, id, fn);
      case PollStep(req, ks) => PollKeepsPending(s, req, ks);
      case ExpireStep(_, _, removed) =>
    }
  }

  lemma UpdateSoundIff(s: State, id: TicketId, fn: UpdateFunc)
    requires Sound(s)
    ensures Sound(Update(s, id, fn)) <==> Tame(s, UpdateStep(id, fn))
  {
    if id in s.data && fn(s.data[id]).Success? {
      var after := Update(s, id, fn);
      assert after.data[id] == fn(s.data[id]).value;
      if IsBlocker(s.deps, id) {
        var f :| Waits(s.deps, f, id);
        assert Waits(after.deps, f, id);
        assert BlockersPending(after) ==> IsPending(after, id);
      }
    }
  }

  ghost predicate AllTame(states: seq<State>, steps: seq<Step>)
    requires |states| == |steps| + 1
  {
    forall i :: 0 <= i < |steps| ==> Tame(states[i], steps[i])
  }

  lemma {:induction false} SoundAlong(states: seq<State>, steps: seq<Step>, i: nat)
    requires IsRun(states, steps) && AllTame(states, steps) && Sound(states[0]) && i <= |steps|
    ensures Sound(states[i])
  {
    if i > 0 {
      SoundAlong(states, steps, i - 1);
      SoundStepIff(states[i - 1], steps[i - 1]);
    }
  }

  lemma EmptySound()
    ensures Sound(EMPTY)
  {
    var rank: Rank := id => 0;
    assert RankedBy(EMPTY.deps, rank);
  }

  // ----- No deadlock -----

  lemma {:induction false} LeastRank(ids: set<TicketId>, rank: Rank) returns (least: TicketId)
    requires ids != {}
    ensures least in ids && forall k :: k in ids ==> rank(least) <= rank(k)
  {
    least :| least in ids;
    var rest := ids - {least};
    if rest != {} {
      var other := LeastRank(rest, rank);
      if rank(other) < rank(least) { least := other; }
    }
  }

  /** A pending ticket of least rank waits for nothing. */
  lemma FreeTicketExists(s: State)
    requires Sound(s) && exists id :: IsPending(s, id)
    ensures exists free :: IsPending(s, free) && Blockers(s.deps, free) == {}
  {
    var rank :| RankedBy(s.deps, rank);
    var pending := set id | id in s.data && IsPending(s, id);
    var id :| IsPending(s, id);
    assert id in pending;
    var free := LeastRank(pending, rank);
    assert forall b :: Waits(s.deps, free, b) ==> b in pending;
    assert Blockers(s.deps, free) == {} by {
      assert forall b :: b in Blockers(s.deps, free) ==> Waits(s.deps, free, b);
    }
  }

  /**
   In every state of every run from the empty store whose updates are tame: the graph has no
   cycle, blockers are stored and pending, and if anything is pending then something pending
   is blocked by nothing.
   */
  lemma NoDeadlock(states: seq<State>, steps: seq<Step>, i: nat)
    requires IsRun(states, steps) && AllTame(states, steps) && states[0] == EMPTY && i <= |steps|
    ensures Acyclic(states[i].deps) && BlockersPending(states[i])
    ensures (exists id :: IsPending(states[i], id)) ==>
              exists free :: IsPending(states[i], free) && Blockers(states[i].deps, free) == {}
    ensures KeepsIds(states, steps) ==> Keyed(states[i])
  {
    EmptySound();
    SoundAlong(states, steps, i);
    RankedIsAcyclic(states[i].deps);
    if exists id :: IsPending(states[i], id) { FreeTicketExists(states[i]); }
    if KeepsIds(states, steps) { KeyedAlong(states, steps, i); }
  }

  /** So a poll late enough, for the right tubes, hands out at least one ticket. */
  lemma PollMakesProgress(s: State, req: PollRequest, ks: seq<TicketId>)
    requires Sound(s) && Keyed(s) && ValidPicks(s, req, ks) && req.limit > 0
    requires exists id :: IsPending(s, id)
    requires forall id :: IsPending(s, id) ==> s.data[id].runat <= req.now && s.data[id].tube in req.requestTubes
    ensures ks != []
  {
    FreeTicketExists(s);
    var free :| IsPending(s, free) && Blockers(s.deps, free) == {};
    var eligible := EligibleKeys(s, req);
    assert Eligible(s, req, s.data[free]) && free in eligible;
    assert |eligible| > 0;
  }

  // ----- Two runs that go against the documented behaviour -----

  const MarkDone: UpdateFunc := (t: Ticket) => Success(t.(status := Done))

  /** The pending member m of group g, then f as the finalizer of g. */
  ghost predicate MemberAndFinalizer(m: Ticket, f: Ticket, g: GroupId) {
    m.id != NO_ID && f.id != NO_ID && m.id != f.id && m.status.Pending? && f.status.Pending? && m.groupId == Some(g)
  }

  lemma MemberThenFinalizer(m: Ticket, f: Ticket, g: GroupId)
    requires MemberAndFinalizer(m, f, g)
    ensures PutAfterGroup(Put(EMPTY, m), f, g) == State(map[m.id := m, f.id := f], map[f.id := {m.id}])
  {
    var s := Put(EMPTY, m);
    assert PendingInGroup(s, m.id, g);
    assert Captured(s, f, g) == {m.id};
    assert Blockers(s.deps, f.id) + {m.id} == {m.id};
  }

  /**
   Update takes a blocker m to Done without releasing its finalizer f.  Once m expires and its
   id is submitted again as the finalizer of f's group h, the two wait for each other for ever.
   */
  lemma StrandingUpdateDeadlocks(m: Ticket, f: Ticket, g: GroupId, h: GroupId, now: Time)
    requires MemberAndFinalizer(m, f, g) && f.groupId == Some(h) && m.runat <= now
    ensures var s2 := PutAfterGroup(Put(EMPTY, m), f, g);
            var s3 := Update(s2, m.id, MarkDone);
            var last := PutAfterGroup(Expire(s3, {m.id}), m, h);
            && ValidExpiry(s3, -1, now, {m.id})
            && last.data == map[m.id := m, f.id := f]
            && Blockers(last.deps, m.id) == {f.id} && Blockers(last.deps, f.id) == {m.id}
            && !Acyclic(last.deps)
  {
    MemberThenFinalizer(m, f, g);
    StrandedMemberExpires(m, f, now);
    ResubmissionClosesCycle(m, f, h);
  }

  lemma StrandedMemberExpires(m: Ticket, f: Ticket, now: Time)
    requires m.id != f.id && f.status.Pending? && m.runat <= now
    ensures var s3 := Update(State(map[m.id := m, f.id := f], map[f.id := {m.id}]), m.id, MarkDone);
            ValidExpiry(s3, -1, now, {m.id}) && Expire(s3, {m.id}) == State(map[f.id := f], map[f.id := {m.id}])
  {
    var s3 := Update(State(map[m.id := m, f.id := f], map[f.id := {m.id}]), m.id, MarkDone);
    assert Expirable(s3, now) == {m.id};
    assert Expire(s3, {m.id}).data == map[f.id := f];
  }

  lemma ResubmissionClosesCycle(m: Ticket, f: Ticket, h: GroupId)
    requires m.id != NO_ID && m.id != f.id && m.status.Pending? && f.status.Pending? && f.groupId == Some(h)
    ensures var last := PutAfterGroup(State(map[f.id := f], map[f.id := {m.id}]), m, h);
            && last.data == map[m.id := m, f.id := f]
            && Blockers(last.deps, m.id) == {f.id} && Blockers(last.deps, f.id) == {m.id}
            && !Acyclic(last.deps)
  {
    var s := State(map[f.id := f], map[f.id := {m.id}]);
    assert PendingInGroup(s, f.id, h);
    assert Captured(s, m, h) == {f.id};
    assert Blockers(s.deps, m.id) + {f.id} == {f.id};
    var cycle := [m.id, f.id, m.id];
    assert Walk(PutAfterGroup(s, m, h).deps, cycle);
  }

  lemma SingleUpdate(s: State, us: UpdateSet)
    requires us.id in s.data
    ensures UpdateBatch(s, [us]) == ApplyUpdate(s, us)
  {
    assert [us][..0] == [];
  }

  /**
   Expiry leaves a dep set behind: a finalizer that was cancelled and expired, then submitted
   again for a group with no pending member, is not immediately eligible.
   */
  lemma ExpiredFinalizerStaysBlocked(m: Ticket, f: Ticket, g: GroupId, empty: GroupId, now: Time)
    requires MemberAndFinalizer(m, f, g) && empty != g && f.runat <= now
    ensures var s2 := PutAfterGroup(Put(EMPTY, m), f, g);
            var s3 := UpdateBatch(s2, [NoChange(f.id).(status := Some(Cancelled))]);
            var s4 := Expire(s3, {f.id});
            var last := PutAfterGroup(s4, f, empty);
            && ValidExpiry(s3, -1, now, {f.id})
            && f.id !in s4.data && GroupMembers(s4, empty) == {}
            && IsPending(last, f.id) && Waits(last.deps, f.id, m.id)
  {
    MemberThenFinalizer(m, f, g);
    var s2 := PutAfterGroup(Put(EMPTY, m), f, g);
    var cancel := NoChange(f.id).(status := Some(Cancelled));
    SingleUpdate(s2, cancel);
    var s3 := UpdateBatch(s2, [cancel]);
    assert Expirable(s3, now) == {f.id};
    assert Waits(s3.deps, f.id, m.id);
    assert Captured(Expire(s3, {f.id}), f, empty) == {};
  }
}
