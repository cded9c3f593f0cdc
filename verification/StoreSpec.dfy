/**
 The ticket store as a value: a map of tickets and, for each finalizer, the set of tickets
 that still block it.  Every operation of the memory store is a function on this value.
 */
module StoreSpec {
  import opened Wrappers
  import opened Backoff
  import opened Tickets

  type Deps = map<TicketId, set<TicketId>>

  datatype State = State(data: map<TicketId, Ticket>, deps: Deps)

  const EMPTY := State(map[], map[])

  function Blockers(deps: Deps, f: TicketId): set<TicketId> {
    if f in deps then deps[f] else {}
  }

  /** Finalizer f still waits for b. */
  predicate Waits(deps: Deps, f: TicketId, b: TicketId) {
    b in Blockers(deps, f)
  }

  predicate IsPending(s: State, id: TicketId) {
    id in s.data && s.data[id].status.Pending?
  }

  /** Every ticket is stored under its own id. */
  ghost predicate Keyed(s: State) {
    forall id :: id in s.data ==> s.data[id].id == id
  }

  // ----- Put, PutAfterGroup -----

  function AsPending(t: Ticket): Ticket {
    t.(status := Pending)
  }

  function Put(s: State, t: Ticket): State {
    if t.id == NO_ID then s else s.(data := s.data[t.id := AsPending(t)])
  }

  predicate PendingInGroup(s: State, id: TicketId, g: GroupId) {
    IsPending(s, id) && s.data[id].groupId == Some(g)
  }

  function GroupMembers(s: State, g: GroupId): set<TicketId> {
    set id | id in s.data && PendingInGroup(s, id, g)
  }

  /** The group members a finalizer submitted now waits for. */
  function Captured(s: State, t: Ticket, g: GroupId): set<TicketId> {
    GroupMembers(s, g) - {t.id}
  }

  function PutAfterGroup(s: State, t: Ticket, g: GroupId): State {
    if t.id == NO_ID || t.id in s.data then s
    else
      State(s.data[t.id := AsPending(t)], Wire(s.deps, t.id, Captured(s, t, g)))
  }

  /** f made to wait for more tickets; with none to wait for it gets no dep set. */
  function Wire(deps: Deps, f: TicketId, captured: set<TicketId>): Deps {
    if captured == {} then deps else deps[f := Blockers(deps, f) + captured]
  }

  ghost function Keys(ks: seq<TicketId>): set<TicketId> {
    set k | k in ks
  }

  ghost predicate Distinct(ks: seq<TicketId>) {
    forall i, j :: 0 <= i < j < |ks| ==> ks[i] != ks[j]
  }

  lemma SubsetCount(small: set<TicketId>, large: set<TicketId>)
    requires small <= large
    ensures |small| <= |large|
  {
    assert large == small + (large - small);
  }

  lemma {:induction false} DistinctCount(ks: seq<TicketId>)
    requires Distinct(ks)
    ensures |Keys(ks)| == |ks|
  {
    if ks != [] {
      var prior, last := ks[..|ks| - 1], ks[|ks| - 1];
      DistinctCount(prior);
      assert ks == prior + [last];
      assert Keys(ks) == Keys(prior) + {last};
    }
  }

  // ----- Delete, DeleteBatch -----

  /** id taken out of every dep set. */
  function ClearBlocker(deps: Deps, id: TicketId): Deps {
    map f | f in deps :: deps[f] - {id}
  }

  function RemoveDep(deps: Deps, id: TicketId): Deps {
    map f | f in deps && f != id :: deps[f] - {id}
  }

  function Delete(s: State, id: TicketId): State {
    State(s.data - {id}, RemoveDep(s.deps, id))
  }

  function DeleteOne(s: State, id: TicketId): State {
    if id in s.data then Delete(s, id) else s
  }

  function DeleteBatch(s: State, ids: seq<TicketId>): State {
    if ids == [] then s else DeleteOne(DeleteBatch(s, ids[..|ids| - 1]), ids[|ids| - 1])
  }

  function DeleteInfos(s: State, ids: seq<TicketId>): seq<TransitionInfo> {
    if ids == [] then []
    else
      var prior, id := ids[..|ids| - 1], ids[|ids| - 1];
      var at := DeleteBatch(s, prior);
      DeleteInfos(s, prior) + if id in at.data then [Info(at.data[id])] else []
  }

  // ----- UpdateBatch, Update -----

  function ApplyUpdate(s: State, us: UpdateSet): State
    requires us.id in s.data
  {
    var t := UpdateOne(s.data[us.id], us);
    State(s.data[t.id := t], if t.status.Terminal() then ClearBlocker(s.deps, t.id) else s.deps)
  }

  /** How many updates of a batch the memory store applies: it stops at the first missing id. */
  function Applied(s: State, us: seq<UpdateSet>): (n: nat)
    ensures n <= |us|
  {
    if us == [] then 0
    else
      var prior := us[..|us| - 1];
      var n := Applied(s, prior);
      if n == |prior| && us[n].id in UpdateBatch(s, prior).data then n + 1 else n
  }

  function UpdateBatch(s: State, us: seq<UpdateSet>): State {
    if us == [] then s
    else
      var prior, last := us[..|us| - 1], us[|us| - 1];
      var at := UpdateBatch(s, prior);
      if Applied(s, prior) == |prior| && last.id in at.data then ApplyUpdate(at, last) else at
  }

  function UpdateInfos(s: State, us: seq<UpdateSet>): seq<TransitionInfo>
    requires Applied(s, us) == |us|
  {
    if us == [] then []
    else
      var prior, last := us[..|us| - 1], us[|us| - 1];
      UpdateInfos(s, prior) + [Info(UpdateOne(UpdateBatch(s, prior).data[last.id], last))]
  }

  /** One update with the Postgres outcome: a missing id is passed over. */
  function UpdateOrSkip(s: State, us: UpdateSet): State {
    if us.id in s.data then ApplyUpdate(s, us) else s
  }

  function UpdateBatchSkipping(s: State, us: seq<UpdateSet>): State {
    if us == [] then s
    else UpdateOrSkip(UpdateBatchSkipping(s, us[..|us| - 1]), us[|us| - 1])
  }

  function Update(s: State, id: TicketId, fn: UpdateFunc): State {
    if id in s.data && fn(s.data[id]).Success? then s.(data := s.data[id := fn(s.data[id]).value]) else s
  }

  // ----- PollPending -----

  predicate Eligible(s: State, req: PollRequest, t: Ticket) {
    t.status.Pending? && t.runat <= req.now && t.tube in req.requestTubes && Blockers(s.deps, t.id) == {}
  }

  function EligibleKeys(s: State, req: PollRequest): set<TicketId> {
    set k | k in s.data && Eligible(s, req, s.data[k])
  }

  /** Tickets ks[0], ks[1], ... in poll order. */
  ghost predicate InPollOrder(data: map<TicketId, Ticket>, ks: seq<TicketId>)
    requires forall i :: 0 <= i < |ks| ==> ks[i] in data
  {
    forall i, j :: 0 <= i < j < |ks| ==> !Before(data[ks[j]], data[ks[i]])
  }

  /** ks is a possible answer to a poll: the first min(limit, eligible) tickets in some poll order. */
  ghost predicate TopPicks(s: State, req: PollRequest, ks: seq<TicketId>) {
    var eligible := EligibleKeys(s, req);
    && Distinct(ks)
    && (forall i :: 0 <= i < |ks| ==> ks[i] in eligible)
    && |ks| == Min(req.limit, |eligible|)
    && InPollOrder(s.data, ks)
    && (forall e, i :: e in eligible && e !in ks && 0 <= i < |ks| ==> !Before(s.data[e], s.data[ks[i]]))
  }

  predicate PollsNothing(req: PollRequest) {
    req.limit <= 0 || req.requestTubes == []
  }

  ghost predicate ValidPicks(s: State, req: PollRequest, ks: seq<TicketId>) {
    if PollsNothing(req) then ks == [] else TopPicks(s, req, ks)
  }

  /** The tickets handed out, copied before their lease is written. */
  function Handed(s: State, ks: seq<TicketId>): (ts: seq<Ticket>)
    requires forall i :: 0 <= i < |ks| ==> ks[i] in s.data
    ensures |ts| == |ks| && forall i :: 0 <= i < |ks| ==> ts[i] == ReadyCopy(s.data[ks[i]])
  {
    seq(|ks|, i requires 0 <= i < |ks| => ReadyCopy(s.data[ks[i]]))
  }

  function Poll(s: State, req: PollRequest, ks: seq<TicketId>): State
    requires forall i :: 0 <= i < |ks| ==> ks[i] in s.data
  {
    if ks == [] then s
    else
      var at := Poll(s, req, ks[..|ks| - 1]);
      var t := s.data[ks[|ks| - 1]];
      at.(data := at.data[t.id := Leased(t, req)])
  }

  // ----- ExpireTickets -----

  function Expirable(s: State, now: Time): set<TicketId> {
    set k | k in s.data && !s.data[k].status.Pending? && s.data[k].runat <= now
  }

  /** A negative limit never equals the number of expired tickets, so it is no limit. */
  ghost predicate ValidExpiry(s: State, limit: int, now: Time, removed: set<TicketId>) {
    && removed <= Expirable(s, now)
    && |removed| == if limit < 0 then |Expirable(s, now)| else Min(limit, |Expirable(s, now)|)
  }

  function Expire(s: State, removed: set<TicketId>): State {
    s.(data := s.data - removed)
  }
}
