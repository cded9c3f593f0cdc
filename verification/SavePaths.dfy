/**
 Saving a ticket's outcome takes one of two paths: through Update with an edit function when
 the caller supplied one, through an update set handed to the pusher otherwise.
 */
module SavePaths {
  import opened Wrappers
  import opened Powers
  import opened Backoff
  import opened Tickets
  import opened StoreSpec

  datatype DelayStrategy =
    | NoDelay
    | Fixed(duration: Duration)
    | Exponential(base: real, maxDelay: Duration, jitter: Duration)

  /** The options of a lifecycle call that reach the stored ticket. */
  datatype Opts = Opts(
    delay: DelayStrategy,
    status: Option<Status>,
    errorReason: Option<Json>,
    nice: Option<int>,
    payload: Option<Json>,
    resetAttempts: bool,
    transferTube: Option<Tube>,
    groupId: Option<GroupId>
  )

  function DelayedRunat(t: Ticket, delay: DelayStrategy, now: Time): Time {
    match delay
    case NoDelay => t.runat
    case Fixed(duration) => now + duration
    case Exponential(base, maxDelay, _) => now + BackoffDelay(base, t.attempts, maxDelay)
  }

  /** The ticket beforeUpdate hands to the caller's edit function. */
  function Edited(t: Ticket, o: Opts, now: Time): Ticket {
    t.(runat := DelayedRunat(t, o.delay, now),
       status := o.status.GetOr(t.status),
       errorReason := if o.errorReason.Some? then o.errorReason else t.errorReason,
       nice := o.nice.GetOr(t.nice),
       payload := if o.payload.Some? then o.payload else t.payload,
       attempts := if o.resetAttempts then 0 else t.attempts,
       tube := o.transferTube.GetOr(t.tube),
       groupId := if o.groupId.Some? then o.groupId else t.groupId)
  }

  /** The delay branch of beforeUpdate. */
  method Delay(ticket: Ticket, delay: DelayStrategy, now: Time) returns (t: Ticket)
    ensures t == ticket.(runat := DelayedRunat(ticket, delay, now))
  {
    t := ticket;
    match delay {
      case NoDelay =>
      case Fixed(duration) =>
        t := t.(runat := now + duration);
      case Exponential(base, maxDelay, _) =>
        t := t.(runat := now + BackoffDelay(base, t.attempts, maxDelay));
    }
  }

  /** beforeUpdate: the options field by field, the caller's edit last. */
  method BeforeUpdate(ticket: Ticket, o: Opts, edit: UpdateFunc, now: Time) returns (r: Result<Ticket, string>)
    ensures r == edit(Edited(ticket, o, now))
  {
    var t := Delay(ticket, o.delay, now);
    if o.status.Some? {
      t := t.(status := o.status.value);
    }
    if o.errorReason.Some? {
      t := t.(errorReason := o.errorReason);
    }
    if o.nice.Some? {
      t := t.(nice := o.nice.value);
    }
    if o.payload.Some? {
      t := t.(payload := o.payload);
    }
    if o.resetAttempts {
      t := t.(attempts := 0);
    }
    if o.transferTube.Some? {
      t := t.(tube := o.transferTube.value);
    }
    if o.groupId.Some? {
      t := t.(groupId := o.groupId);
    }
    r := edit(t);
  }

  /** The update set that save builds at clock reading saved, for the store to come to at reading at. */
  function SaveSet(id: TicketId, o: Opts, saved: Time, at: Time): UpdateSet {
    UpdateSet(
      id, o.transferTube, o.groupId, o.status, o.nice,
      if o.delay.Fixed? then Some(saved + o.delay.duration) else None,
      if o.delay.Exponential? then
        Some(DelayBackoff(o.delay.base, o.delay.jitter, o.delay.maxDelay,
                          ClampMaxAttempts(Seconds(o.delay.maxDelay), o.delay.base)))
      else None,
      o.payload, o.errorReason, at)
  }

  /**
   The cap that save puts into the update set serves the Postgres update: from the fields of the set
   it computes the delay that the memory store computes, under the condition for any such delay.
   */
  lemma SaveSetServesSql(t: Ticket, o: Opts, saved: Time, at: Time)
    requires o.delay.Exponential? && (o.delay.base > 1.0 || t.attempts <= MAX_INT32)
    ensures SaveSet(t.id, o, saved, at).backoff.Some?
    ensures var b := SaveSet(t.id, o, saved, at).backoff.value;
            var nanos := MinReal(Pow(o.delay.base, t.attempts), Seconds(o.delay.maxDelay)) * NANOS_PER_SECOND;
            && (b.base > 0.0 || b.maxAttempts >= 0)
            && var sql := MaxReal(Seconds(b.jitter), 0.0)
                 + MinReal(CappedPower(b.base, t.attempts, b.maxAttempts), Seconds(b.maxDelay));
               (at + Truncate(sql * NANOS_PER_SECOND) == UpdateOne(t, SaveSet(t.id, o, saved, at)).runat
                <==> o.delay.jitter >= 0
                     && (nanos >= 0.0 || nanos + o.delay.jitter as real < 0.0 || Whole(nanos)))
  {
    SqlDelayMatchesMemoryIff(o.delay.jitter, o.delay.base, t.attempts, o.delay.maxDelay);
  }

  /** A delay counts the attempts made so far, even when the same call resets them. */
  lemma DelayBeforeReset(t: Ticket, o: Opts, now: Time)
    requires o.delay.Exponential?
    ensures Edited(t, o, now).runat == now + BackoffDelay(o.delay.base, t.attempts, o.delay.maxDelay)
    ensures o.resetAttempts ==> Edited(t, o, now).attempts == 0
  {
  }

  /** Saving through Update with an edit function that changes nothing. */
  function SaveByFunction(s: State, id: TicketId, o: Opts, now: Time): State {
    Update(s, id, (t: Ticket) => Success(Edited(t, o, now)))
  }

  /** Saving through the update set, once it is flushed. */
  function SaveBySet(s: State, id: TicketId, o: Opts, saved: Time, at: Time): State {
    UpdateOrSkip(s, SaveSet(id, o, saved, at))
  }

  /**
   The reset has no effect on this ticket, and the delay counts from the same instant.  With one
   clock reading throughout, the latter says that a backoff has no jitter.
   */
  predicate PathsCoincide(t: Ticket, o: Opts, now: Time, saved: Time, at: Time) {
    && (o.resetAttempts ==> t.attempts == 0)
    && (o.delay.Fixed? ==> saved == now)
    && (o.delay.Exponential? ==> at + o.delay.jitter == now)
  }

  /** The two paths, each at its own clock readings, store the same ticket exactly when they coincide. */
  lemma SameTicketIff(s: State, id: TicketId, o: Opts, now: Time, saved: Time, at: Time)
    requires Keyed(s) && id in s.data
    ensures SaveByFunction(s, id, o, now).data == SaveBySet(s, id, o, saved, at).data <==>
              PathsCoincide(s.data[id], o, now, saved, at)
  {
    var t := s.data[id];
    var byFunction, bySet := Edited(t, o, now), UpdateOne(t, SaveSet(id, o, saved, at));
    assert byFunction == bySet.(attempts := byFunction.attempts, runat := byFunction.runat);
    assert SaveByFunction(s, id, o, now).data[id] == byFunction;
    assert SaveBySet(s, id, o, saved, at).data[id] == bySet;
  }

  /** They leave the same dep sets exactly when the ticket ends up pending or nobody waits for it. */
  lemma SameDepsIff(s: State, id: TicketId, o: Opts, now: Time, saved: Time, at: Time)
    requires Keyed(s) && id in s.data
    ensures SaveByFunction(s, id, o, now).deps == SaveBySet(s, id, o, saved, at).deps <==>
              o.status.GetOr(s.data[id].status).Pending? || forall f :: !Waits(s.deps, f, id)
  {
    var cleared := ClearBlocker(s.deps, id);
    if f :| Waits(s.deps, f, id) {
      assert !Waits(cleared, f, id);
    } else {
      forall f | f in s.deps
        ensures cleared[f] == s.deps[f]
      {
        assert !Waits(s.deps, f, id);
      }
      assert cleared == s.deps;
    }
  }

  /** Restart asks for the attempts to be reset; through the pusher they are kept. */
  lemma RestartKeepsAttempts(s: State, id: TicketId, now: Time, at: Time)
    requires Keyed(s) && id in s.data
    ensures var o := Opts(Fixed(0), Some(Pending), None, None, None, true, None, None);
            && SaveBySet(s, id, o, now, at).data[id] == s.data[id].(status := Pending, runat := now)
            && SaveByFunction(s, id, o, now).data[id] == s.data[id].(status := Pending, runat := now, attempts := 0)
  {
  }
}
