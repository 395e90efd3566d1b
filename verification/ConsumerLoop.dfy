/** `KafkaConsumerBase::Run` as the source writes it: a loop with a retry loop
    inside, over fields. `Run` is proved to be a run of the state machine in
    `Protocol`, so every theorem about runs holds of it. */
module ConsumerLoop {
  import opened Protocol

  /** What stands between the thread and its next operation. */
  datatype Awaited<+R> = Proceed(env: Env<R>) | Died | Ended

  function Where<R>(w: Awaited<R>, pc: Pc): Pc
  {
    if w.Died? then Down else pc
  }

  class KafkaConsumerBase<S, A, R> {
    const processRecord: Sink<S, A, R>
    const config: Config
    /** What the outside world will do, in order; a run may end anywhere in it. */
    const script: seq<Input<A, R>>
    var cursor: nat

    var running: bool
    /** `producer_` is not null. */
    var producer: bool
    var log: seq<Message<A>>
    var committed: nat
    var pos: nat
    var high: nat
    var sink: S
    var now: int
    var trail: seq<Mark>

    constructor (processRecord: Sink<S, A, R>, config: Config, sink: S, script: seq<Input<A, R>>)
      ensures this.processRecord == processRecord && this.config == config && this.script == script
      ensures At(Down, Init(sink))
    {
      this.processRecord, this.config, this.script, this.cursor := processRecord, config, script, 0;
      this.running, this.producer := false, false;
      this.log, this.committed, this.pos, this.high := [], 0, 0, 0;
      this.sink, this.now, this.trail := sink, 0, [];
    }

    /** The machine state when the thread is at `pc`. */
    ghost function View(pc: Pc): State<S, A>
      reads this
    {
      State(log, committed, pos, high, running, producer, pc, sink, now, trail)
    }

    ghost function Reached(init: State<S, A>, n: nat): State<S, A>
      requires n <= |script|
    {
      Exec(processRecord, config, init, script[..n])
    }

    /** The thread is at `pc`, and got there from `init` by the script so far. */
    ghost predicate At(pc: Pc, init: State<S, A>)
      reads this
    {
      cursor <= |script| && View(pc) == Reached(init, cursor)
    }

    /** As At, but the world has already answered the thread's next operation. */
    ghost predicate Granted(pc: Pc, init: State<S, A>, env: Env<R>)
      reads this
    {
      0 < cursor <= |script| && script[cursor - 1] == Go(env) && View(pc) == Reached(init, cursor - 1)
    }

    lemma ReachedNext(init: State<S, A>, n: nat)
      requires n < |script|
      ensures Reached(init, n + 1) == Step(processRecord, config, Reached(init, n), script[n])
    {
      assert script[..n + 1] == script[..n] + [script[n]];
      ExecSnoc(processRecord, config, init, script[..n], script[n]);
    }

    /** One operation of the thread brings it where the machine goes. */
    lemma Performed(pc: Pc, init: State<S, A>, env: Env<R>)
      requires Granted(pc, init, env)
      ensures Reached(init, cursor) == Advance(processRecord, config, View(pc), env)
    {
      ReachedNext(init, cursor - 1);
    }

    /** The call of ProcessRecord, as the machine takes it. */
    lemma AttemptPerformed(attempt: int, backoff: int, init: State<S, A>, env: Env<R>)
      requires Granted(Attempting(attempt, backoff), init, env) && OnRecord()
      ensures var after := processRecord.process(sink, log[pos].action, env.reply, now);
              && Reached(init, cursor)
                 == State(log, committed, pos, high, running, producer,
                          if after.threw then Caught(attempt, backoff) else Committing(Succeeded),
                          after.sink, now, trail + [Tried(pos, after.threw)])
    {
      Performed(Attempting(attempt, backoff), init, env);
    }

    lemma RetryPerformed(attempt: int, backoff: int, init: State<S, A>, env: Env<R>)
      requires Granted(Caught(attempt, backoff), init, env)
      ensures Reached(init, cursor)
           == View(if attempt < config.maxRetries && running then Sleeping(attempt, backoff)
                   else AttemptTest(attempt + 1, backoff))
    {
      Performed(Caught(attempt, backoff), init, env);
    }

    lemma SleepPerformed(attempt: int, backoff: int, init: State<S, A>, env: Env<R>)
      requires Granted(Sleeping(attempt, backoff), init, env)
      ensures Reached(init, cursor)
           == State(log, committed, pos, high, running, producer,
                    AttemptTest(attempt + 1, Min(backoff * 2, config.maxBackoff)),
                    sink, now + Max(backoff, 0), trail + [Slept(attempt, backoff)])
    {
      Performed(Sleeping(attempt, backoff), init, env);
    }

    /** What an input does while the thread stands before its next operation. */
    lemma WaitPerformed(pc: Pc, init: State<S, A>)
      requires At(pc, init) && !pc.Closed? && !pc.Down? && cursor < |script| && !script[cursor].Go?
      ensures Reached(init, cursor + 1)
           == match script[cursor]
              case Stop => View(pc).(running := false)
              case Tick(ms) => View(pc).(now := now + ms)
              case Append(message) => View(pc).(log := log + [message])
              case Kill => View(Down)
              case Start(_) => View(pc)
    {
      ReachedNext(init, cursor);
    }

    /** Takes one such input. */
    method TakeOutside(ghost init: State<S, A>, ghost pc: Pc) returns (died: bool)
      requires At(pc, init) && !pc.Closed? && !pc.Down? && cursor < |script| && !script[cursor].Go?
      modifies this`cursor, this`running, this`now, this`log
      ensures cursor == old(cursor) + 1 && old(log) <= log && At(if died then Down else pc, init)
    {
      WaitPerformed(pc, init);
      var input := script[cursor];
      cursor := cursor + 1;
      died := input.Kill?;
      match input
      case Stop => running := false;
      case Tick(ms) => now := now + ms;
      case Append(message) => log := log + [message];
      case Kill =>
      case Start(_) =>
    }

    /** Everything that may happen before the thread's next operation: Stop from
        another thread, time, new messages; or the end of the process or script. */
    method Await(ghost pc: Pc, ghost init: State<S, A>) returns (w: Awaited<R>)
      requires At(pc, init) && !pc.Closed? && !pc.Down?
      modifies this`cursor, this`running, this`now, this`log
      ensures old(cursor) <= cursor && old(log) <= log
      ensures w.Proceed? ==> old(cursor) < cursor && Granted(pc, init, w.env)
      ensures w.Died? ==> At(Down, init)
      ensures w.Ended? ==> At(pc, init) && cursor == |script|
    {
      while cursor < |script|
        invariant old(cursor) <= cursor && old(log) <= log && At(pc, init)
        decreases |script| - cursor
      {
        if script[cursor].Go? {
          cursor := cursor + 1;
          return Proceed(script[cursor - 1].env);
        }
        var died := TakeOutside(init, pc);
        if died { return Died; }
      }
      return Ended;
    }

    // ---- the thread's operations -----------------------------------------

    /** while (running_) */
    method TestRunning(ghost init: State<S, A>) returns (pc: Pc)
      requires At(LoopTest, init)
      modifies this
      ensures old(cursor) <= cursor && At(pc, init)
      ensures pc == Polling || pc == Closed || pc == Down || cursor == |script|
      ensures pc == Polling ==> old(cursor) < cursor
    {
      var w := Await(LoopTest, init);
      if !w.Proceed? { return Where(w, LoopTest); }
      Performed(LoopTest, init, w.env);
      return if running then Polling else Closed;
    }

    /** consumer_->consume(1000) and Deserialize */
    method Consume(ghost init: State<S, A>) returns (pc: Pc)
      requires At(Polling, init)
      modifies this
      ensures old(cursor) <= cursor && At(pc, init)
      ensures pc == LoopTest || pc == Routing(true) || pc == AttemptTest(1, config.initialBackoff)
           || pc == Down || cursor == |script|
      ensures pc.AttemptTest? ==> pc == AttemptTest(1, config.initialBackoff) && OnRecord()
      ensures pc.Routing? ==> pc == Routing(true) && pos < |log|
    {
      var w := Await(Polling, init);
      if !w.Proceed? { return Where(w, Polling); }
      Performed(Polling, init, w.env);
      if !w.env.delivers || |log| <= pos { return LoopTest; }
      high := if high <= pos then pos + 1 else high;
      var decoded := Decodes(log[pos], w.env.schema);
      trail := trail + [Delivered(pos, decoded)];
      return if decoded then AttemptTest(1, config.initialBackoff) else Routing(true);
    }

    ghost predicate OnRecord()
      reads this
    {
      pos < |log| && log[pos].Record?
    }

    /** attempt <= max_retries_ && running_ */
    method TestAttempt(ghost init: State<S, A>, attempt: int, backoff: int) returns (pc: Pc)
      requires At(AttemptTest(attempt, backoff), init) && OnRecord()
      modifies this
      ensures old(cursor) <= cursor && At(pc, init) && OnRecord()
      ensures pc == Attempting(attempt, backoff) || pc == GaveUp || pc == Down || cursor == |script|
      ensures pc.Attempting? ==> pc == Attempting(attempt, backoff) && old(cursor) < cursor
    {
      var w := Await(AttemptTest(attempt, backoff), init);
      if !w.Proceed? { return Where(w, AttemptTest(attempt, backoff)); }
      Performed(AttemptTest(attempt, backoff), init, w.env);
      return if attempt <= config.maxRetries && running then Attempting(attempt, backoff) else GaveUp;
    }

    /** try { ProcessRecord(...) } */
    method Attempt(ghost init: State<S, A>, attempt: int, backoff: int) returns (pc: Pc)
      requires At(Attempting(attempt, backoff), init) && OnRecord()
      modifies this
      ensures old(cursor) <= cursor && At(pc, init) && OnRecord()
      ensures pc == Committing(Succeeded) || pc == Caught(attempt, backoff) || pc == Down || cursor == |script|
      ensures pc.Caught? ==> pc == Caught(attempt, backoff)
      ensures pc.Committing? ==> pc == Committing(Succeeded)
    {
      var w := Await(Attempting(attempt, backoff), init);
      if !w.Proceed? { return Where(w, Attempting(attempt, backoff)); }
      AttemptPerformed(attempt, backoff, init, w.env);
      var after := processRecord.process(sink, log[pos].action, w.env.reply, now);
      sink := after.sink;
      trail := trail + [Tried(pos, after.threw)];
      pc := if after.threw then Caught(attempt, backoff) else Committing(Succeeded);
    }

    /** catch: attempt < max_retries_ && running_ */
    method TestRetry(ghost init: State<S, A>, attempt: int, backoff: int) returns (pc: Pc)
      requires At(Caught(attempt, backoff), init) && OnRecord()
      modifies this
      ensures old(cursor) <= cursor && At(pc, init) && OnRecord()
      ensures pc == Sleeping(attempt, backoff) || pc == AttemptTest(attempt + 1, backoff)
           || pc == Down || cursor == |script|
      ensures pc.Sleeping? ==> pc == Sleeping(attempt, backoff)
      ensures pc.AttemptTest? ==> pc == AttemptTest(attempt + 1, backoff)
    {
      var w := Await(Caught(attempt, backoff), init);
      if !w.Proceed? { return Where(w, Caught(attempt, backoff)); }
      RetryPerformed(attempt, backoff, init, w.env);
      return if attempt < config.maxRetries && running then Sleeping(attempt, backoff)
             else AttemptTest(attempt + 1, backoff);
    }

    /** sleep_for(backoff_ms), then double it up to the maximum */
    method SleepFor(ghost init: State<S, A>, attempt: int, backoff: int) returns (pc: Pc)
      requires At(Sleeping(attempt, backoff), init) && OnRecord()
      modifies this
      ensures old(cursor) <= cursor && At(pc, init) && OnRecord()
      ensures pc.AttemptTest? || pc == Down || cursor == |script|
      ensures pc.AttemptTest? ==> pc == AttemptTest(attempt + 1, Min(backoff * 2, config.maxBackoff))
    {
      var w := Await(Sleeping(attempt, backoff), init);
      if !w.Proceed? { return Where(w, Sleeping(attempt, backoff)); }
      SleepPerformed(attempt, backoff, init, w.env);
      now := now + Max(backoff, 0);
      trail := trail + [Slept(attempt, backoff)];
      pc := AttemptTest(attempt + 1, Min(backoff * 2, config.maxBackoff));
    }

    /** if (success) ... else if (running_) */
    method TestGiveUp(ghost init: State<S, A>) returns (pc: Pc)
      requires At(GaveUp, init) && OnRecord()
      modifies this
      ensures old(cursor) <= cursor && At(pc, init)
      ensures pc == Routing(false) || pc == LoopTest || pc == Down || cursor == |script|
      ensures pc.Routing? ==> pc == Routing(false) && pos < |log|
    {
      var w := Await(GaveUp, init);
      if !w.Proceed? { return Where(w, GaveUp); }
      Performed(GaveUp, init, w.env);
      return if running then Routing(false) else LoopTest;
    }

    /** RouteToDLQ: false without a producer; an exception out of `Run` if `dump`
        throws; otherwise what `produce` says, which only the history records. */
    method RouteToDlq(ghost init: State<S, A>, raw: bool) returns (pc: Pc)
      requires At(Routing(raw), init) && pos < |log|
      modifies this
      ensures old(cursor) <= cursor && At(pc, init)
      ensures pc.Committing? || pc == Down || cursor == |script|
    {
      var w := Await(Routing(raw), init);
      if !w.Proceed? { return Where(w, Routing(raw)); }
      Performed(Routing(raw), init, w.env);
      if !producer {
        trail := trail + [Routed(pos, raw, Unavailable)];
        return Committing(HandoffFailed);
      }
      var dumps := if raw then log[pos].utf8 else w.env.legible;
      if !dumps { return Down; }
      trail := trail + [Routed(pos, raw, if w.env.accepted then Handed else Refused)];
      return Committing(if w.env.accepted then DeadLettered else HandoffFailed);
    }

    /** commitSync, whose own result is ignored */
    method CommitSync(ghost init: State<S, A>, fate: Fate) returns (pc: Pc)
      requires At(Committing(fate), init)
      modifies this
      ensures old(cursor) <= cursor && At(pc, init)
      ensures pc == LoopTest || pc == Down || cursor == |script|
    {
      var w := Await(Committing(fate), init);
      if !w.Proceed? { return Where(w, Committing(fate)); }
      Performed(Committing(fate), init, w.env);
      committed := if w.env.stored then pos + 1 else committed;
      trail := trail + [Finished(pos, fate)];
      pos := pos + 1;
      return LoopTest;
    }

    // ---- the loops -------------------------------------------------------

    /** The retry loop with exponential backoff, then commit, dead letter or drop. */
    method HandleRecord(ghost init: State<S, A>) returns (pc: Pc)
      requires At(AttemptTest(1, config.initialBackoff), init) && OnRecord()
      modifies this
      ensures old(cursor) <= cursor && At(pc, init)
      ensures pc == LoopTest || pc == Down || cursor == |script|
    {
      var backoff := config.initialBackoff;
      var attempt := 1;
      pc := AttemptTest(1, backoff);
      while true
        invariant old(cursor) <= cursor <= |script| && At(pc, init)
        invariant pc == AttemptTest(attempt, backoff) && OnRecord()
        decreases |script| - cursor
      {
        pc := TestAttempt(init, attempt, backoff);
        if pc == GaveUp { break; }
        if !pc.Attempting? { return; }
        pc := Attempt(init, attempt, backoff);
        if pc.Committing? {
          pc := CommitSync(init, Succeeded);
          return;
        }
        if !pc.Caught? { return; }
        pc := TestRetry(init, attempt, backoff);
        if pc.Sleeping? {
          pc := SleepFor(init, attempt, backoff);
          backoff := Min(backoff * 2, config.maxBackoff);
        }
        if !pc.AttemptTest? { return; }
        attempt := attempt + 1;
      }
      pc := TestGiveUp(init);
      if pc.Routing? {
        pc := DeadLetter(init, false);
      }
    }

    method DeadLetter(ghost init: State<S, A>, raw: bool) returns (pc: Pc)
      requires At(Routing(raw), init) && pos < |log|
      modifies this
      ensures old(cursor) <= cursor && At(pc, init)
      ensures pc == LoopTest || pc == Down || cursor == |script|
    {
      pc := RouteToDlq(init, raw);
      if pc.Committing? {
        pc := CommitSync(init, pc.fate);
      }
    }

    /** Returns where the thread ended: Closed by Stop, Down by a crash or an
        exception out of RouteToDLQ, or wherever the script left it. */
    method Run(ghost init: State<S, A>) returns (pc: Pc)
      requires cursor < |script| && script[cursor].Start?
      requires At(Down, init) || At(Closed, init)
      modifies this
      ensures old(cursor) < cursor && At(pc, init)
      ensures pc == Closed || pc == Down || cursor == |script|
    {
      ReachedNext(init, cursor);
      producer := script[cursor].producer;
      cursor := cursor + 1;
      pos := committed;
      running := true;
      pc := LoopTest;
      while true
        invariant old(cursor) < cursor <= |script| && At(pc, init) && pc == LoopTest
        decreases |script| - cursor
      {
        pc := TestRunning(init);
        if pc != Polling { return; }
        pc := Consume(init);
        if pc.Routing? {
          pc := DeadLetter(init, true);
        } else if pc.AttemptTest? {
          pc := HandleRecord(init);
        }
        if pc != LoopTest { return; }
      }
    }

    /** What an input does while no thread runs. */
    lemma IdlePerformed(pc: Pc, init: State<S, A>)
      requires (pc == Down || pc == Closed) && At(pc, init) && cursor < |script| && !script[cursor].Start?
      ensures Reached(init, cursor + 1)
           == match script[cursor]
              case Go(_) => View(pc)
              case Stop => View(pc).(running := false)
              case Tick(ms) => View(pc).(now := now + ms)
              case Append(message) => View(pc).(log := log + [message])
              case Kill => View(Down)
    {
      ReachedNext(init, cursor);
    }

    /** Takes one such input. */
    method TakeIdle(ghost init: State<S, A>, pc: Pc) returns (next: Pc)
      requires (pc == Down || pc == Closed) && At(pc, init) && cursor < |script| && !script[cursor].Start?
      modifies this`cursor, this`running, this`now, this`log
      ensures cursor == old(cursor) + 1 && At(next, init) && (next == Down || next == Closed)
    {
      IdlePerformed(pc, init);
      var input := script[cursor];
      cursor := cursor + 1;
      next := pc;
      match input
      case Go(_) =>
      case Stop => running := false;
      case Tick(ms) => now := now + ms;
      case Append(message) => log := log + [message];
      case Kill => next := Down;
    }

    /** Between runs: messages and time come in, a closed consumer's process may end,
        until the next consumer is started or the script is over. */
    method Between(ghost init: State<S, A>, pc: Pc) returns (next: Pc)
      requires (pc == Down || pc == Closed) && At(pc, init)
      modifies this
      ensures old(cursor) <= cursor && At(next, init) && (next == Down || next == Closed)
      ensures cursor == |script| || script[cursor].Start?
    {
      next := pc;
      while cursor < |script| && !script[cursor].Start?
        invariant old(cursor) <= cursor <= |script| && At(next, init) && (next == Down || next == Closed)
        decreases |script| - cursor
      {
        next := TakeIdle(init, next);
      }
    }

    /** The consumer over its whole life, run after run: whatever the script, the
        fields end up where the machine does. */
    method Live(ghost init: State<S, A>) returns (pc: Pc)
      requires At(Down, init)
      modifies this
      ensures cursor == |script| && At(pc, init)
    {
      pc := Between(init, Down);
      while cursor < |script|
        invariant cursor <= |script| && At(pc, init)
        invariant cursor < |script| ==> script[cursor].Start? && (pc == Down || pc == Closed)
        decreases |script| - cursor
      {
        pc := Run(init);
        if pc == Closed || pc == Down {
          pc := Between(init, pc);
        }
      }
    }
  }
}
