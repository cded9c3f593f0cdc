/** Tickets and the requests that act on them. */
module Tickets {
  import opened Wrappers
  import opened Backoff

  datatype TicketId = TicketId(name: string)

  datatype Tube = Tube(name: string)

  datatype GroupId = GroupId(name: string)

  datatype Json = Json(text: string)

  const NO_ID := TicketId("")

  datatype Status = Pending | Done | Failed | Cancelled {

    predicate Terminal() {
      Done? || Failed? || Cancelled?
    }
  }

  datatype Ticket = Ticket(
    id: TicketId,
    status: Status,
    tube: Tube,
    groupId: Option<GroupId>,
    runat: Time,
    nice: int,
    typ: string,
    ctime: Time,
    mtime: Option<Time>,
    attempts: nat,
    payload: Option<Json>,
    errorReason: Option<Json>,
    readyAt: Time
  )

  datatype DelayBackoff = DelayBackoff(base: real, jitter: Duration, maxDelay: Duration, maxAttempts: int)

  /**
   The fields of a ticket to overwrite; None leaves a field alone.  A backoff counts from at,
   which stands for the reading of the clock when the store comes to this update.
   */
  datatype UpdateSet = UpdateSet(
    id: TicketId,
    tube: Option<Tube>,
    groupId: Option<GroupId>,
    status: Option<Status>,
    nice: Option<int>,
    runat: Option<Time>,
    backoff: Option<DelayBackoff>,
    payload: Option<Json>,
    errorReason: Option<Json>,
    at: Time
  )

  datatype TransitionInfo = TransitionInfo(id: TicketId, typ: string, tube: Tube, status: Status)

  datatype PollRequest = PollRequest(
    limit: int,
    now: Time,
    ttr: Duration,
    backoffBase: real,
    maxBackoffDelay: Duration,
    requestTubes: seq<Tube>
  )

  datatype StoreError = TicketNotFound | TicketIDEmpty | LimitInvalid | UpdateRejected(reason: string)

  /** An UpdateFunc: the edited ticket, or the error that keeps the stored one. */
  type UpdateFunc = Ticket -> Result<Ticket, string>

  function Info(t: Ticket): TransitionInfo {
    TransitionInfo(t.id, t.typ, t.tube, t.status)
  }

  /** An update set that changes nothing. */
  function NoChange(id: TicketId): UpdateSet {
    UpdateSet(id, None, None, None, None, None, None, None, None, 0)
  }

  /** The new run time: a backoff wins over an explicit time. */
  function UpdatedRunat(t: Ticket, us: UpdateSet): Time {
    if us.backoff.Some? then
      us.at + BackoffDelay(us.backoff.value.base, t.attempts, us.backoff.value.maxDelay) + us.backoff.value.jitter
    else us.runat.GetOr(t.runat)
  }

  /** One ticket after one update set. */
  function UpdateOne(t: Ticket, us: UpdateSet): (r: Ticket)
    ensures r.id == t.id && r.attempts == t.attempts && r.typ == t.typ
  {
    t.(status := us.status.GetOr(t.status),
       nice := us.nice.GetOr(t.nice),
       runat := UpdatedRunat(t, us),
       payload := if us.payload.Some? then us.payload else t.payload,
       errorReason := if us.errorReason.Some? then us.errorReason else t.errorReason,
       tube := us.tube.GetOr(t.tube),
       groupId := if us.groupId.Some? then us.groupId else t.groupId)
  }

  /** Strictly earlier in poll order: by run time, then by nice. */
  predicate Before(a: Ticket, b: Ticket) {
    a.runat < b.runat || (a.runat == b.runat && a.nice < b.nice)
  }

  /** How long a poll hides a ticket. */
  function PollDelay(req: PollRequest, attempts: nat): Duration {
    BackoffDelay(req.backoffBase, attempts, req.maxBackoffDelay) + req.ttr
  }

  /** What a poll hands out. */
  function ReadyCopy(t: Ticket): Ticket {
    t.(readyAt := t.runat)
  }

  /** What a poll stores for a ticket it handed out. */
  function Leased(t: Ticket, req: PollRequest): Ticket {
    ReadyCopy(t).(runat := req.now + PollDelay(req, t.attempts), attempts := t.attempts + 1)
  }
}
