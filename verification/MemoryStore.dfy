/** The in-memory store: two maps changed in place, each method proved against StoreSpec. */
module MemoryStore {
  import opened Wrappers
  import opened Backoff
  import opened Tickets
  import Spec = StoreSpec
  import TubeSet

  type State = Spec.State

  /** ready[i] is a copy of the ticket stored under ks[i]. */
  ghost predicate Copies(data: map<TicketId, Ticket>, ready: seq<Ticket>, ks: seq<TicketId>) {
    && |ready| == |ks|
    && forall i :: 0 <= i < |ks| ==> ks[i] in data && ready[i] == data[ks[i]]
  }

  ghost predicate SortedByRunat(ready: seq<Ticket>) {
    forall i, j :: 0 <= i < j < |ready| ==> !Before(ready[j], ready[i])
  }

  /** The run time branch of updateOne. */
  method Reschedule(ticket: Ticket, us: UpdateSet) returns (t: Ticket)
    ensures t == ticket.(runat := UpdatedRunat(ticket, us))
  {
    t := ticket;
    if us.backoff.Some? {
      var delay := BackoffDelay(us.backoff.value.base, t.attempts, us.backoff.value.maxDelay) + us.backoff.value.jitter;
      t := t.(runat := us.at + delay);
    } else if us.runat.Some? {
      t := t.(runat := us.runat.value);
    }
  }

  /** updateOne: every field the update set gives, one after the other. */
  method Overwrite(ticket: Ticket, us: UpdateSet) returns (t: Ticket)
    ensures t == UpdateOne(ticket, us)
  {
    t := ticket;
    if us.status.Some? {
      t := t.(status := us.status.value);
    }
    if us.nice.Some? {
      t := t.(nice := us.nice.value);
    }
    t := Reschedule(t, us);
    if us.payload.Some? {
      t := t.(payload := us.payload);
    }
    if us.errorReason.Some? {
      t := t.(errorReason := us.errorReason);
    }
    if us.tube.Some? {
      t := t.(tube := us.tube.value);
    }
    if us.groupId.Some? {
      t := t.(groupId := us.groupId);
    }
  }

  lemma WireMore(deps: Spec.Deps, f: TicketId, captured: set<TicketId>, b: TicketId)
    ensures var wired := Spec.Wire(deps, f, captured);
            Spec.Wire(deps, f, captured + {b}) == wired[f := Spec.Blockers(wired, f) + {b}]
  {
    var own := Spec.Blockers(deps, f);
    if captured == {} {
      assert captured + {b} == {b};
    } else {
      assert own + (captured + {b}) == own + captured + {b};
    }
  }

  /** The copy of a chosen ticket to hand out, and the one to store. */
  method LeaseOne(chosen: Ticket, req: PollRequest) returns (handed: Ticket, t: Ticket)
    ensures handed == ReadyCopy(chosen) && t == Leased(chosen, req)
  {
    handed := chosen.(readyAt := chosen.runat);
    t := handed;
    var delay := BackoffDelay(req.backoffBase, t.attempts, req.maxBackoffDelay) + req.ttr;
    t := t.(runat := req.now + delay);
    t := t.(attempts := t.attempts + 1);
  }

  lemma PollNext(s: State, req: PollRequest, ks: seq<TicketId>, i: nat)
    requires i < |ks| && forall j :: 0 <= j < |ks| ==> ks[j] in s.data
    ensures var at, t := Spec.Poll(s, req, ks[..i]), s.data[ks[i]];
            Spec.Poll(s, req, ks[..i + 1]) == at.(data := at.data[t.id := Leased(t, req)])
  {
    assert ks[..i + 1][..i] == ks[..i];
  }

  /** Once an id is missing, the rest of the batch is not applied. */
  lemma {:induction false} StopsAtMissing(s: State, us: seq<UpdateSet>, i: nat)
    requires i < |us| && Spec.Applied(s, us[..i]) == i
    requires us[i].id !in Spec.UpdateBatch(s, us[..i]).data
    ensures Spec.Applied(s, us) == i
    ensures Spec.UpdateBatch(s, us) == Spec.UpdateBatch(s, us[..i])
  {
    var prior := us[..|us| - 1];
    if i < |prior| {
      assert prior[..i] == us[..i];
      StopsAtMissing(s, prior, i);
    } else {
      assert prior == us[..i];
    }
  }

  /** Part of the store visited: the expired tickets found, in order, are reported and gone. */
  ghost predicate Expiring(s: State, now: Time, data: map<TicketId, Ticket>, todo: set<TicketId>,
                           infos: seq<TransitionInfo>, order: seq<TicketId>) {
    && todo <= s.data.Keys && data == s.data - Spec.Keys(order)
    && Spec.Distinct(order) && |infos| == |order|
    && (forall k :: k in order ==> k in Spec.Expirable(s, now) && k !in todo)
    && (forall k :: k in Spec.Expirable(s, now) ==> k in order || k in todo)
    && (forall i :: 0 <= i < |order| ==> order[i] in s.data && infos[i] == Info(s.data[order[i]]))
  }

  /** Visiting one more ticket, which goes if it has expired. */
  lemma ExpiringStep(s: State, now: Time, data: map<TicketId, Ticket>, todo: set<TicketId>,
                     infos: seq<TransitionInfo>, order: seq<TicketId>, k: TicketId)
    requires Expiring(s, now, data, todo, infos, order) && k in todo
    ensures k in data && data[k] == s.data[k]
    ensures if k in Spec.Expirable(s, now)
            then Expiring(s, now, data - {k}, todo - {k}, infos + [Info(data[k])], order + [k])
            else Expiring(s, now, data, todo - {k}, infos, order)
  {
    assert Spec.Keys(order + [k]) == Spec.Keys(order) + {k};
  }

  lemma ExpiryComplete(s: State, limit: int, now: Time, order: seq<TicketId>, todo: set<TicketId>)
    requires Spec.Distinct(order)
    requires forall k :: k in order ==> k in Spec.Expirable(s, now)
    requires forall k :: k in Spec.Expirable(s, now) ==> k in order || k in todo
    requires todo == {} || |order| == limit
    requires limit >= 0 ==> |order| <= limit
    ensures Spec.ValidExpiry(s, limit, now, Spec.Keys(order))
  {
    var removed, all := Spec.Keys(order), Spec.Expirable(s, now);
    Spec.DistinctCount(order);
    if todo == {} {
      assert removed == all;
    } else {
      Spec.SubsetCount(removed, all);
    }
  }

  /** The requested tubes as a strictly sorted list of names. */
  method TubeNames(tubes: seq<Tube>) returns (names: seq<string>)
    ensures TubeSet.StrictlySorted(names)
    ensures forall tube: Tube :: tube.name in names <==> tube in tubes
  {
    names := [];
    for i := 0 to |tubes|
      invariant forall tube: Tube :: tube.name in names <==> tube in tubes[..i]
    {
      names := names + [tubes[i].name];
      assert tubes[..i + 1] == tubes[..i] + [tubes[i]];
      forall tube: Tube
        ensures tube.name in names <==> tube in tubes[..i + 1]
      {
        assert tube.name == tubes[i].name <==> tube == tubes[i];
      }
    }
    assert tubes[..|tubes|] == tubes;
    var sorted := TubeSet.Sort(names);
    assert forall x :: x in sorted <==> x in multiset(sorted);
    assert forall x :: x in names <==> x in multiset(names);
    names := TubeSet.Compact(sorted);
  }

  /** sort.Slice by run time and nice: repeatedly take any ticket none of the rest precedes. */
  method SortReady(ghost data: map<TicketId, Ticket>, ready: seq<Ticket>, ghost ks: seq<TicketId>)
    returns (sorted: seq<Ticket>, ghost order: seq<TicketId>)
    requires Copies(data, ready, ks) && Spec.Distinct(ks)
    ensures Copies(data, sorted, order) && SortedByRunat(sorted)
    ensures Spec.Distinct(order) && multiset(order) == multiset(ks)
  {
    sorted, order := [], [];
    var rest := ready;
    ghost var restKs := ks;
    while rest != []
      invariant HalfSorted(data, sorted, order, rest, restKs)
      invariant multiset(order) + multiset(restKs) == multiset(ks)
      decreases |rest|
    {
      ghost var least := Least(rest, |rest|);
      assert IsLeast(rest, least);
      var p :| 0 <= p < |rest| && IsLeast(rest, p);
      SortStep(data, sorted, order, rest, restKs, p);
      MoveOne(order, restKs, p);
      sorted, order := sorted + [rest[p]], order + [restKs[p]];
      rest, restKs := Without(rest, p), Without(restKs, p);
    }
    assert multiset(order) == multiset(order) + multiset(restKs) by { assert restKs == []; }
    MultiplicityOne(ks);
    DistinctByMultiplicity(order);
  }

  predicate IsLeast(ts: seq<Ticket>, p: nat)
    requires p < |ts|
  {
    forall j :: 0 <= j < |ts| ==> !Before(ts[j], ts[p])
  }

  ghost predicate HalfSorted(data: map<TicketId, Ticket>, sorted: seq<Ticket>, order: seq<TicketId>,
                             rest: seq<Ticket>, restKs: seq<TicketId>) {
    && Copies(data, sorted, order) && Copies(data, rest, restKs)
    && SortedByRunat(sorted)
    && forall i, j :: 0 <= i < |sorted| && 0 <= j < |rest| ==> !Before(rest[j], sorted[i])
  }

  lemma SortStep(data: map<TicketId, Ticket>, sorted: seq<Ticket>, order: seq<TicketId>,
                 rest: seq<Ticket>, restKs: seq<TicketId>, p: nat)
    requires HalfSorted(data, sorted, order, rest, restKs) && p < |rest| && IsLeast(rest, p)
    ensures HalfSorted(data, sorted + [rest[p]], order + [restKs[p]], Without(rest, p), Without(restKs, p))
  {
  }

  function Without<T>(s: seq<T>, p: nat): (r: seq<T>)
    requires p < |s|
    ensures |r| == |s| - 1
    ensures forall j :: 0 <= j < |r| ==> r[j] == s[if j < p then j else j + 1]
  {
    s[..p] + s[p + 1..]
  }

  lemma MoveOne(order: seq<TicketId>, rest: seq<TicketId>, p: nat)
    requires p < |rest|
    ensures multiset(order + [rest[p]]) + multiset(Without(rest, p)) == multiset(order) + multiset(rest)
  {
    assert rest == rest[..p] + [rest[p]] + rest[p + 1..];
  }

  lemma {:induction false} MultiplicityOne(ks: seq<TicketId>)
    requires Spec.Distinct(ks)
    ensures forall k :: multiset(ks)[k] <= 1
  {
    if ks != [] {
      var prior, last := ks[..|ks| - 1], ks[|ks| - 1];
      MultiplicityOne(prior);
      assert ks == prior + [last];
      assert last !in prior;
      assert last !in multiset(prior);
    }
  }

  lemma DistinctByMultiplicity(ks: seq<TicketId>)
    requires forall k :: multiset(ks)[k] <= 1
    ensures Spec.Distinct(ks)
  {
    forall i, j | 0 <= i < j < |ks|
      ensures ks[i] != ks[j]
    {
      assert ks == ks[..j] + [ks[j]] + ks[j + 1..];
      assert multiset(ks)[ks[j]] == multiset(ks[..j])[ks[j]] + 1 + multiset(ks[j + 1..])[ks[j]];
      assert ks[i] in multiset(ks[..j]) by { assert ks[..j][i] == ks[i]; }
    }
  }

  /** Some ticket among the first n is preceded by none of them. */
  lemma {:induction false} Least(ts: seq<Ticket>, n: nat) returns (p: nat)
    requires 0 < n <= |ts|
    ensures p < n && forall j :: 0 <= j < n ==> !Before(ts[j], ts[p])
  {
    if n == 1 {
      p := 0;
    } else {
      p := Least(ts, n - 1);
      if Before(ts[n - 1], ts[p]) { p := n - 1; }
    }
  }

  /** The first n of all eligible tickets in poll order are what a poll may hand out. */
  lemma TopOfSorted(s: State, req: PollRequest, all: seq<TicketId>, n: nat)
    requires !Spec.PollsNothing(req)
    requires Spec.Distinct(all) && forall k :: k in all <==> k in Spec.EligibleKeys(s, req)
    requires forall i :: 0 <= i < |all| ==> all[i] in s.data
    requires Spec.InPollOrder(s.data, all)
    requires n == Min(req.limit, |all|)
    ensures Spec.ValidPicks(s, req, all[..n])
  {
    var eligible := Spec.EligibleKeys(s, req);
    Spec.DistinctCount(all);
    assert Spec.Keys(all) == eligible;
    assert forall i :: 0 <= i < n ==> all[..n][i] == all[i] && all[i] in all;
    forall e, i | e in eligible && e !in all[..n] && 0 <= i < n
      ensures !Before(s.data[e], s.data[all[..n][i]])
    {
      var j :| 0 <= j < |all| && all[j] == e;
    }
  }

  class Store {
    var data: map<TicketId, Ticket>
    var deps: map<TicketId, set<TicketId>>

    ghost function State(): Spec.State
      reads this
    {
      Spec.State(data, deps)
    }

    constructor ()
      ensures State() == Spec.EMPTY
    {
      data := map[];
      deps := map[];
    }

    method Get(id: TicketId) returns (r: Result<Ticket, StoreError>)
      ensures r == if id in data then Success(data[id]) else Failure(TicketNotFound)
    {
      if id !in data {
        return Failure(TicketNotFound);
      }
      r := Success(data[id]);
    }

    method Put(t: Ticket) returns (r: Result<(), StoreError>)
      modifies this
      ensures State() == Spec.Put(old(State()), t)
      ensures r == if t.id == NO_ID then Failure(TicketIDEmpty) else Success(())
    {
      if t.id == NO_ID {
        return Failure(TicketIDEmpty);
      }
      data := data[t.id := Spec.AsPending(t)];
      r := Success(());
    }

    method Delete(id: TicketId)
      modifies this
      ensures State() == Spec.Delete(old(State()), id)
    {
      data := data - {id};
      RemoveDep(id);
    }

    /** Takes id out of every dep set, visiting the sets in any order. */
    method ClearBlocker(id: TicketId)
      modifies `deps
      ensures deps == Spec.ClearBlocker(old(deps), id)
    {
      var todo := deps.Keys;
      while todo != {}
        invariant todo <= deps.Keys == old(deps).Keys
        invariant forall f :: f in deps ==> deps[f] == if f in todo then old(deps)[f] else old(deps)[f] - {id}
        decreases todo
      {
        var f :| f in todo;
        deps := deps[f := deps[f] - {id}];
        todo := todo - {f};
      }
    }

    method RemoveDep(id: TicketId)
      modifies `deps
      ensures deps == Spec.RemoveDep(old(deps), id)
    {
      ClearBlocker(id);
      deps := deps - {id};
    }

    method PutAfterGroup(t: Ticket, g: GroupId) returns (r: Result<(), StoreError>)
      modifies this
      ensures State() == Spec.PutAfterGroup(old(State()), t, g)
      ensures r == if t.id == NO_ID then Failure(TicketIDEmpty) else Success(())
    {
      if t.id == NO_ID {
        return Failure(TicketIDEmpty);
      }
      r := Success(());
      if t.id in data {
        return;
      }
      data := data[t.id := Spec.AsPending(t)];
      var todo := data.Keys;
      ghost var seen: set<TicketId> := {};
      while todo != {}
        invariant todo + seen == data.Keys && todo !! seen
        invariant data == old(data)[t.id := Spec.AsPending(t)]
        invariant deps == Spec.Wire(old(deps), t.id, Spec.Captured(old(State()), t, g) * seen)
        decreases todo
      {
        var id :| id in todo;
        todo := todo - {id};
        ghost var before := Spec.Captured(old(State()), t, g) * seen;
        seen := seen + {id};
        ghost var after := Spec.Captured(old(State()), t, g) * seen;
        if id != t.id && data[id].groupId == Some(g) && data[id].status.Pending? {
          assert Spec.PendingInGroup(old(State()), id, g);
          assert id in after && after == before + {id};
          WireMore(old(deps), t.id, before, id);
          if t.id !in deps {
            deps := deps[t.id := {}];
          }
          deps := deps[t.id := deps[t.id] + {id}];
        } else {
          assert id == t.id || !Spec.PendingInGroup(old(State()), id, g);
          assert after == before;
        }
      }
      assert Spec.Captured(old(State()), t, g) * seen == Spec.Captured(old(State()), t, g);
    }

    method DeleteBatch(ids: seq<TicketId>) returns (infos: seq<TransitionInfo>)
      modifies this
      ensures State() == Spec.DeleteBatch(old(State()), ids)
      ensures infos == Spec.DeleteInfos(old(State()), ids)
    {
      infos := [];
      for i := 0 to |ids|
        invariant State() == Spec.DeleteBatch(old(State()), ids[..i])
        invariant infos == Spec.DeleteInfos(old(State()), ids[..i])
      {
        assert ids[..i + 1][..i] == ids[..i];
        var id := ids[i];
        if id in data {
          infos := infos + [Info(data[id])];
          data := data - {id};
          RemoveDep(id);
        }
      }
      assert ids[..|ids|] == ids;
    }

    method UpdateBatch(us: seq<UpdateSet>) returns (r: Result<seq<TransitionInfo>, StoreError>)
      modifies this
      ensures State() == Spec.UpdateBatch(old(State()), us)
      ensures var all := Spec.Applied(old(State()), us) == |us|;
              r == if all then Success(Spec.UpdateInfos(old(State()), us)) else Failure(TicketNotFound)
    {
      var infos := [];
      for i := 0 to |us|
        invariant State() == Spec.UpdateBatch(old(State()), us[..i])
        invariant Spec.Applied(old(State()), us[..i]) == i
        invariant infos == Spec.UpdateInfos(old(State()), us[..i])
      {
        assert us[..i + 1][..i] == us[..i];
        if us[i].id !in data {
          StopsAtMissing(old(State()), us, i);
          return Failure(TicketNotFound);
        }
        var t := Overwrite(data[us[i].id], us[i]);
        data := data[t.id := t];
        infos := infos + [Info(t)];
        if t.status.Done? || t.status.Failed? || t.status.Cancelled? {
          ClearBlocker(t.id);
        }
      }
      assert us[..|us|] == us;
      r := Success(infos);
    }

    method Update(id: TicketId, fn: UpdateFunc) returns (r: Result<(), StoreError>)
      modifies this
      ensures State() == Spec.Update(old(State()), id, fn)
      ensures r == if id !in old(data) then Failure(TicketNotFound)
                   else if fn(old(data)[id]).Failure? then Failure(UpdateRejected(fn(old(data)[id]).error))
                   else Success(())
    {
      if id !in data {
        return Failure(TicketNotFound);
      }
      match fn(data[id]) {
        case Failure(e) =>
          r := Failure(UpdateRejected(e));
        case Success(t) =>
          data := data[id := t];
          r := Success(());
      }
    }

    /**
     Hands out the first limit eligible tickets in poll order and leases them.  Ties may be
     broken either way, so the chosen keys are an output of their own.
     */
    method PollPending(req: PollRequest) returns (r: Result<seq<Ticket>, StoreError>, ghost ks: seq<TicketId>)
      modifies this
      ensures Spec.ValidPicks(old(State()), req, ks)
      ensures State() == Spec.Poll(old(State()), req, ks)
      ensures r == if req.limit <= 0 then Failure(LimitInvalid) else Success(Spec.Handed(old(State()), ks))
    {
      ks := [];
      if req.limit <= 0 {
        return Failure(LimitInvalid), [];
      }
      if |req.requestTubes| == 0 {
        return Success([]), [];
      }
      var tubes := TubeNames(req.requestTubes);
      var ready;
      ready, ks := Collect(req, tubes);
      if |ready| == 0 {
        assert |Spec.EligibleKeys(State(), req)| == 0 by {
          assert Spec.EligibleKeys(State(), req) == {};
        }
        return Success([]), [];
      }
      ghost var found := ks;
      ready, ks := SortReady(data, ready, ks);
      ghost var all := ks;
      assert forall k :: k in all <==> k in multiset(all);
      assert forall k :: k in found <==> k in multiset(found);
      var n := Min(req.limit, |ready|);
      ready, ks := ready[..n], ks[..n];
      TopOfSorted(State(), req, all, n);
      ready := Lease(req, ready, ks);
      r := Success(ready);
    }

    /** The tickets a poll may hand out, with the keys they are stored under. */
    method Collect(req: PollRequest, tubes: seq<string>) returns (ready: seq<Ticket>, ghost ks: seq<TicketId>)
      requires TubeSet.StrictlySorted(tubes)
      requires forall tube: Tube :: tube.name in tubes <==> tube in req.requestTubes
      ensures Copies(data, ready, ks) && Spec.Distinct(ks)
      ensures forall k :: k in ks <==> k in Spec.EligibleKeys(State(), req)
    {
      ready, ks := [], [];
      var todo := data.Keys;
      while todo != {}
        invariant todo <= data.Keys
        invariant Copies(data, ready, ks) && Spec.Distinct(ks)
        invariant forall k :: k in ks <==> k in Spec.EligibleKeys(State(), req) && k !in todo
        decreases todo
      {
        var k :| k in todo;
        todo := todo - {k};
        var t := data[k];
        if !t.status.Pending? {
          continue;
        }
        if t.runat > req.now {
          continue;
        }
        var found := TubeSet.BinarySearch(tubes, t.tube.name);
        if !found {
          continue;
        }
        if t.id in deps && |deps[t.id]| > 0 {
          continue;
        }
        ready, ks := ready + [t], ks + [k];
      }
    }

    /** Writes the lease of every chosen ticket and returns the copies to hand out. */
    method Lease(req: PollRequest, chosen: seq<Ticket>, ghost ks: seq<TicketId>) returns (ready: seq<Ticket>)
      requires Copies(data, chosen, ks)
      modifies `data
      ensures State() == Spec.Poll(old(State()), req, ks)
      ensures ready == Spec.Handed(old(State()), ks)
    {
      ready := [];
      ghost var s := State();
      for i := 0 to |chosen|
        invariant |chosen| == |ks| && |ready| == i
        invariant forall j :: 0 <= j < i ==> ready[j] == ReadyCopy(s.data[ks[j]])
        invariant State() == Spec.Poll(s, req, ks[..i])
      {
        PollNext(s, req, ks, i);
        var handed, t := LeaseOne(chosen[i], req);
        ready := ready + [handed];
        data := data[t.id := t];
      }
      assert ks[..|ks|] == ks;
    }

    method CountPendingInGroup(g: GroupId) returns (count: nat)
      ensures count == |Spec.GroupMembers(State(), g)|
    {
      count := 0;
      var todo := data.Keys;
      ghost var counted: set<TicketId> := {};
      while todo != {}
        invariant todo <= data.Keys && todo !! counted
        invariant forall id :: id in counted <==> id in Spec.GroupMembers(State(), g) && id !in todo
        invariant count == |counted|
        decreases todo
      {
        var id :| id in todo;
        todo := todo - {id};
        if data[id].groupId == Some(g) && data[id].status.Pending? {
          count := count + 1;
          counted := counted + {id};
        }
      }
      assert counted == Spec.GroupMembers(State(), g);
    }

    /** Removes expired tickets, visiting them in any order; order is the one it took. */
    method ExpireTickets(limit: int, now: Time) returns (infos: seq<TransitionInfo>, ghost order: seq<TicketId>)
      modifies `data
      ensures Spec.ValidExpiry(old(State()), limit, now, Spec.Keys(order))
      ensures State() == Spec.Expire(old(State()), Spec.Keys(order))
      ensures Spec.Distinct(order) && |infos| == |order|
      ensures forall i :: 0 <= i < |order| ==> order[i] in old(data) && infos[i] == Info(old(data)[order[i]])
    {
      infos, order := [], [];
      ghost var s := State();
      var todo := data.Keys;
      while todo != {}
        invariant Expiring(s, now, data, todo, infos, order)
        invariant limit >= 0 ==> |infos| <= limit
        decreases todo
      {
        if |infos| == limit {
          break;
        }
        var k :| k in todo;
        ExpiringStep(s, now, data, todo, infos, order, k);
        todo := todo - {k};
        var t := data[k];
        if t.status.Pending? {
          continue;
        }
        if t.runat > now {
          continue;
        }
        infos, order := infos + [Info(t)], order + [k];
        data := data - {k};
      }
      ExpiryComplete(s, limit, now, order, todo);
    }
  }
}
