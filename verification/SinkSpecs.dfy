/** What one `ProcessRecord` call does to each sink, as a function of the record's
    meaning and of how the outside world answers. The imperative copies in
    `Sinks` are proved equal to these. */
module SinkSpecs {
  import opened Json
  import opened Options
  import opened Records
  import opened RedisStore
  import opened Protocol

  // ---- Redis cache ------------------------------------------------------

  /** NotReached: the call threw before Redis saw the command. Lost: Redis ran it
      but the reply never came. Answered: ran and replied. */
  datatype Reply = NotReached | Lost | Answered

  /** The event a change carries for a register. */
  function EventIn(change: Change): Slot
    requires !change.Ignored?
  {
    Slot(change.lsn, if change.Upsert? then Some(change.doc) else None)
  }

  /** An accepted upsert of a row whose status cannot be read throws only after
      the write has been made. */
  function RedisProcess(s: Store, change: Change, reply: Reply, now: int): Attempted<Store>
  {
    if change.Ignored? then Attempted(s, false)
    else
      match reply
      case NotReached => Attempted(s, true)
      case Lost => Attempted(Script(s, change.id, EventIn(change), now), true)
      case Answered =>
        Attempted(Script(s, change.id, EventIn(change), now),
                  change.Upsert? && !Stale(s, change.id, change.lsn, now)
                  && StatusOf(change.doc, "UNKNOWN").None?)
  }

  const REDIS_SINK: Sink<Store, Change, Reply> := Sink(RedisProcess)

  // ---- Elasticsearch ----------------------------------------------------

  type Index = map<string, Json>

  type ErrorStatus = c: int | !(200 <= c < 300) witness 503

  /** Unreached and ReplyLost give status 0; Rejected did nothing; Served did it and
      answers 2xx, or 404 for deleting a missing document. */
  datatype HttpReply = Unreached | Rejected(status: ErrorStatus) | ReplyLost | Served

  /** Elasticsearch has made the change, or, by answering a DELETE with 404, said
      that there is nothing left to delete. */
  predicate Taken(change: Change, reply: HttpReply)
  {
    reply.Served? || reply.ReplyLost? || (change.Delete? && reply == Rejected(404))
  }

  function Indexed(ix: Index, change: Change): Index
  {
    match change
    case Upsert(id, doc, _) => ix[id := doc]
    case Delete(id, _) => ix - {id}
    case Ignored => ix
  }

  function EsProcess(ix: Index, change: Change, reply: HttpReply, now: int): Attempted<Index>
  {
    if change.Ignored? then Attempted(ix, false)
    else Attempted(if Taken(change, reply) then Indexed(ix, change) else ix,
                   reply.ReplyLost? || !Taken(change, reply))
  }

  const ES_SINK: Sink<Index, Change, HttpReply> := Sink(EsProcess)

  // ---- Notifier ---------------------------------------------------------

  /** A SET NX that Redis executed and won; `emailed` if the notifier learned so. */
  datatype Claimed = Claimed(id: string, status: string, at: int, emailed: bool)

  datatype Mailroom = Mailroom(store: Store, claims: seq<Claimed>)

  function NotifyProcess(m: Mailroom, notice: Notice, reply: Reply, now: int): Attempted<Mailroom>
  {
    match notice
    case NoMail => Attempted(m, false)
    case Unreadable => Attempted(m, true)
    case Mail(id, status) =>
      if reply.NotReached? then Attempted(m, true)
      else if Live(m.store, EmailKey(id, status), now) then Attempted(m, reply.Lost?)
      else
        Attempted(Mailroom(SetNx(m.store, EmailKey(id, status), now),
                           m.claims + [Claimed(id, status, now, reply.Answered?)]),
                  reply.Lost?)
  }

  const NOTIFY_SINK: Sink<Mailroom, Notice, Reply> := Sink(NotifyProcess)
}
