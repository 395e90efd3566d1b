/** The consumer loop as a state machine, one step per operation another thread,
    the broker, a sink or a crash could fall between. What the environment
    decides (what arrives, whether a write took effect, whether its reply came
    back, whether a commit was stored, when the process is told to stop or dies)
    is in the inputs, so every finite run is `Exec` of some input sequence. */
module Protocol {
  /** Retry settings of a consumer; the source's defaults are 5, 100 and 3000 ms. */
  datatype Config = Config(maxRetries: int, initialBackoff: int, maxBackoff: int)

  /** A log entry, whose raw bytes are UTF-8 text or not: a payload the deserializer
      rejects at every encounter, or a record and what it asks of the sink. A
      record in the framed Avro format needs its schema, so whether it can be
      read is decided anew each time it is met. */
  datatype Message<+A> = Undecodable(utf8: bool) | Record(action: A, framed: bool, utf8: bool)

  /** `Deserialize` at one encounter; `schema` is whether the schema can be had. */
  predicate Decodes<A>(message: Message<A>, schema: bool)
  {
    message.Record? && (schema || !message.framed)
  }

  /** A sink after one `ProcessRecord`, and whether the call threw. */
  datatype Attempted<+S> = Attempted(sink: S, threw: bool)

  /** The overridden `ProcessRecord`: sink, action, the environment's reply, time. */
  datatype Sink<!S, !A, !R> = Sink(process: (S, A, R, int) -> Attempted<S>)

  /** Outcome of `RouteToDLQ`: true; false because the producer refused or because
      there is none; or an exception, which nothing in `Run` catches. */
  datatype Handoff = Handed | Refused | Unavailable | Thrown

  /** How the loop was done with a message. */
  datatype Fate = Succeeded | DeadLettered | HandoffFailed

  /** Where the consumer thread is. `Routing` hands off raw bytes, or the document of
      a record; `Closed` is a finished `Run`, `Down` a dead process. */
  datatype Pc =
    | LoopTest
    | Polling
    | AttemptTest(attempt: int, backoff: int)
    | Attempting(attempt: int, backoff: int)
    | Caught(attempt: int, backoff: int)
    | Sleeping(attempt: int, backoff: int)
    | GaveUp
    | Routing(raw: bool)
    | Committing(fate: Fate)
    | Closed
    | Down

  /** What the thread has visibly done, in order. */
  datatype Mark =
    | Delivered(offset: nat, decoded: bool)
    | Tried(offset: nat, threw: bool)
    | Slept(attempt: int, ms: int)
    | Routed(offset: nat, raw: bool, handoff: Handoff)
    | Finished(offset: nat, fate: Fate)

  /** The environment's answers to whatever the thread does in its next step:
      whether a message comes, whether the schema of a framed one can be had, the
      sink's reply, whether what a record would be dead-lettered with, its error
      text above all, is UTF-8, whether `produce` accepts the dead letter, whether
      the broker stores the commit. */
  datatype Env<+R> = Env(delivers: bool, schema: bool, reply: R, legible: bool, accepted: bool, stored: bool)

  datatype Input<+A, +R> =
    | Go(env: Env<R>)
    | Stop
    | Tick(ms: nat)
    | Append(message: Message<A>)
    | Kill
    | Start(producer: bool)

  /** `pos` is the offset in hand or to be consumed next, `committed` the group's
      stored offset, `high` one past the greatest offset ever consumed, `producer`
      whether this consumer got a dead-letter producer when it was set up. */
  datatype State<S, A> = State(
    log: seq<Message<A>>,
    committed: nat,
    pos: nat,
    high: nat,
    running: bool,
    producer: bool,
    pc: Pc,
    sink: S,
    now: int,
    trail: seq<Mark>)

  function Init<S, A>(sink: S): State<S, A>
  {
    State([], 0, 0, 0, false, false, Down, sink, 0, [])
  }

  function Min(a: int, b: int): int { if b < a then b else a }

  function Max(a: int, b: int): int { if a < b then b else a }

  /** `RouteToDLQ`. The envelope holds the raw payload of a message that was not
      decoded, or a record's document together with the error text; `dump` throws
      if any of it is not UTF-8. */
  function HandoffOf<A, R>(producer: bool, message: Message<A>, raw: bool, env: Env<R>): Handoff
  {
    if !producer then Unavailable
    else if !(if raw then message.utf8 else env.legible) then Thrown
    else if env.accepted then Handed
    else Refused
  }

  /** One operation of the consumer thread. */
  function Advance<S, A, R>(sink: Sink<S, A, R>, config: Config, st: State<S, A>, env: Env<R>): State<S, A>
  {
    match st.pc
    case LoopTest =>
      st.(pc := if st.running then Polling else Closed)
    case Polling =>
      if !env.delivers || |st.log| <= st.pos then st.(pc := LoopTest)
      else
        st.(high := if st.high <= st.pos then st.pos + 1 else st.high,
            trail := st.trail + [Delivered(st.pos, Decodes(st.log[st.pos], env.schema))],
            pc := if Decodes(st.log[st.pos], env.schema) then AttemptTest(1, config.initialBackoff)
                  else Routing(true))
    case AttemptTest(attempt, backoff) =>
      st.(pc := if attempt <= config.maxRetries && st.running then Attempting(attempt, backoff) else GaveUp)
    case Attempting(attempt, backoff) =>
      if st.pos < |st.log| && st.log[st.pos].Record? then
        var after := sink.process(st.sink, st.log[st.pos].action, env.reply, st.now);
        st.(sink := after.sink,
            trail := st.trail + [Tried(st.pos, after.threw)],
            pc := if after.threw then Caught(attempt, backoff) else Committing(Succeeded))
      else st
    case Caught(attempt, backoff) =>
      st.(pc := if attempt < config.maxRetries && st.running then Sleeping(attempt, backoff)
                else AttemptTest(attempt + 1, backoff))
    case Sleeping(attempt, backoff) =>
      st.(now := st.now + Max(backoff, 0),
          trail := st.trail + [Slept(attempt, backoff)],
          pc := AttemptTest(attempt + 1, Min(backoff * 2, config.maxBackoff)))
    case GaveUp =>
      st.(pc := if st.running then Routing(false) else LoopTest)
    case Routing(raw) =>
      if st.pos < |st.log| then
        var handoff := HandoffOf(st.producer, st.log[st.pos], raw, env);
        if handoff.Thrown? then st.(pc := Down)
        else
          st.(trail := st.trail + [Routed(st.pos, raw, handoff)],
              pc := Committing(if handoff.Handed? then DeadLettered else HandoffFailed))
      else st
    case Committing(fate) =>
      st.(committed := if env.stored then st.pos + 1 else st.committed,
          pos := st.pos + 1,
          trail := st.trail + [Finished(st.pos, fate)],
          pc := LoopTest)
    case Closed => st
    case Down => st
  }

  function Step<S, A, R>(sink: Sink<S, A, R>, config: Config, st: State<S, A>, input: Input<A, R>): State<S, A>
  {
    match input
    case Go(env) => Advance(sink, config, st, env)
    case Stop => st.(running := false)
    case Tick(ms) => st.(now := st.now + ms)
    case Append(message) => st.(log := st.log + [message])
    case Kill => st.(pc := Down)
    case Start(producer) =>
      // a fresh consumer resumes from the stored offset
      if st.pc.Closed? || st.pc.Down?
      then st.(pos := st.committed, running := true, producer := producer, pc := LoopTest)
      else st
  }

  function Exec<S, A, R>(sink: Sink<S, A, R>, config: Config, st: State<S, A>, inputs: seq<Input<A, R>>): State<S, A>
  {
    if inputs == [] then st
    else Step(sink, config, Exec(sink, config, st, inputs[..|inputs| - 1]), inputs[|inputs| - 1])
  }

  lemma ExecSnoc<S, A, R>(
      sink: Sink<S, A, R>, config: Config, st: State<S, A>, inputs: seq<Input<A, R>>, input: Input<A, R>)
    ensures Exec(sink, config, st, inputs + [input]) == Step(sink, config, Exec(sink, config, st, inputs), input)
  {
    assert (inputs + [input])[..|inputs|] == inputs;
  }
}
