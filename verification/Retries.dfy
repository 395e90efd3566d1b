/** Attempts, backoff and shutdown of the consumer loop, for every sink and run. */
module Retries {
  import opened Protocol
  import opened Offsets

  function Pow2(k: nat): (p: nat)
    ensures 1 <= p
  {
    if k == 0 then 1 else 2 * Pow2(k - 1)
  }

  predicate Sane(config: Config)
  {
    0 < config.initialBackoff <= config.maxBackoff
  }

  /** The sleep after the k-th failed attempt. */
  function Backoff(config: Config, k: int): int
  {
    if k < 1 then 0 else Min(config.initialBackoff * Pow2(k - 1), config.maxBackoff)
  }

  function TotalBackoff(config: Config, k: int): int
    decreases if k < 0 then 0 else k
  {
    if k < 1 then 0 else TotalBackoff(config, k - 1) + Backoff(config, k)
  }

  /** Doubling and capping, as the loop does, walks along the closed form. */
  lemma BackoffDoubles(config: Config, k: int)
    requires Sane(config) && 1 <= k
    ensures Min(Backoff(config, k) * 2, config.maxBackoff) == Backoff(config, k + 1)
    ensures 0 < Backoff(config, k) <= config.maxBackoff
  {
    var x := config.initialBackoff * Pow2(k - 1);
    assert config.initialBackoff * Pow2(k) == 2 * x;
    assert x >= config.initialBackoff;
  }

  lemma {:induction false} TotalBackoffBound(config: Config, k: int, m: int)
    requires Sane(config) && 0 <= k <= m
    ensures TotalBackoff(config, k) <= TotalBackoff(config, m)
    ensures 0 <= TotalBackoff(config, k) <= k * config.maxBackoff
    decreases m
  {
    if 0 < m {
      TotalBackoffBound(config, if k < m then k else m - 1, m - 1);
      BackoffDoubles(config, m);
      assert (m - 1) * config.maxBackoff + config.maxBackoff == m * config.maxBackoff;
    }
  }

  /** Attempts and sleep spent on the message last delivered. */
  function Attempts(trail: seq<Mark>): nat
  {
    if trail == [] || trail[|trail| - 1].Delivered? then 0
    else Attempts(trail[..|trail| - 1]) + (if trail[|trail| - 1].Tried? then 1 else 0)
  }

  function Slumber(trail: seq<Mark>): int
  {
    if trail == [] || trail[|trail| - 1].Delivered? then 0
    else Slumber(trail[..|trail| - 1]) + (if trail[|trail| - 1].Slept? then trail[|trail| - 1].ms else 0)
  }

  lemma Mark1(trail: seq<Mark>, mark: Mark)
    ensures Attempts(trail + [mark]) == if mark.Delivered? then 0 else Attempts(trail) + if mark.Tried? then 1 else 0
    ensures Slumber(trail + [mark])
         == if mark.Delivered? then 0 else Slumber(trail) + if mark.Slept? then mark.ms else 0
  {
    assert (trail + [mark])[..|trail|] == trail;
  }

  function Most(config: Config): nat
  {
    Max(config.maxRetries, 0)
  }

  /** Every sleep is its attempt's backoff; what was decoded is routed only when
      spent, and what was not without any attempt. */
  predicate MarksCounted<A>(config: Config, log: seq<Message<A>>, trail: seq<Mark>)
  {
    && (forall i :: 0 <= i < |trail| && trail[i].Slept? ==>
          1 <= trail[i].attempt < Most(config) && trail[i].ms == Backoff(config, trail[i].attempt))
    && (forall i :: 0 <= i < |trail| && trail[i].Routed? ==>
          && trail[i].offset < |log|
          && Attempts(trail[..i]) == if trail[i].raw then 0 else Most(config))
  }

  predicate PcCounted(config: Config, pc: Pc, running: bool, attempts: nat, slumber: int)
  {
    var most := Most(config);
    match pc
    case AttemptTest(a, b) =>
      && 1 <= a <= most + 1 && attempts == a - 1
      && (running && a <= most ==> b == Backoff(config, a) && slumber == TotalBackoff(config, a - 1))
    case Attempting(a, b) =>
      1 <= a <= most && attempts == a - 1 && b == Backoff(config, a) && slumber == TotalBackoff(config, a - 1)
    case Caught(a, b) =>
      1 <= a <= most && attempts == a && b == Backoff(config, a) && slumber == TotalBackoff(config, a - 1)
    case Sleeping(a, b) =>
      1 <= a < most && attempts == a && b == Backoff(config, a) && slumber == TotalBackoff(config, a - 1)
    case GaveUp => running ==> attempts == most
    case Routing(raw) => attempts == if raw then 0 else most
    case _ => true
  }

  predicate Counted<S, A>(config: Config, st: State<S, A>)
  {
    && Attempts(st.trail) <= Most(config)
    && 0 <= Slumber(st.trail) <= TotalBackoff(config, Most(config) - 1)
    && PcCounted(config, st.pc, st.running, Attempts(st.trail), Slumber(st.trail))
    && MarksCounted(config, st.log, st.trail)
  }

  lemma MarksGrow<A>(config: Config, log: seq<Message<A>>, trail: seq<Mark>, mark: Mark)
    requires MarksCounted(config, log, trail)
    requires mark.Slept? ==> 1 <= mark.attempt < Most(config) && mark.ms == Backoff(config, mark.attempt)
    requires mark.Routed? ==>
               mark.offset < |log| && Attempts(trail) == if mark.raw then 0 else Most(config)
    ensures MarksCounted(config, log, trail + [mark])
  {
    var grown := trail + [mark];
    assert grown[..|trail|] == trail;
    forall i | 0 <= i < |trail|
      ensures grown[i] == trail[i] && grown[..i] == trail[..i]
    {
    }
  }

  lemma SleepAddsUp(config: Config, a: int)
    requires Sane(config) && 1 <= a < Most(config)
    ensures Min(Backoff(config, a) * 2, config.maxBackoff) == Backoff(config, a + 1)
    ensures TotalBackoff(config, a) == TotalBackoff(config, a - 1) + Backoff(config, a)
    ensures 0 <= TotalBackoff(config, a) <= TotalBackoff(config, Most(config) - 1)
  {
    BackoffDoubles(config, a);
    TotalBackoffBound(config, a, Most(config) - 1);
  }

  lemma FirstBackoff(config: Config)
    requires Sane(config)
    ensures Backoff(config, 1) == config.initialBackoff && TotalBackoff(config, 0) == 0
    ensures 0 <= TotalBackoff(config, Most(config) - 1)
  {
    assert Pow2(0) == 1;
    TotalBackoffBound(config, 0, Max(Most(config) - 1, 0));
  }

  lemma AdvanceCountsMarks<S, A, R>(sink: Sink<S, A, R>, config: Config, st: State<S, A>, env: Env<R>)
    requires Sane(config) && Counted(config, st)
    ensures MarksCounted(config, st.log, Advance(sink, config, st, env).trail)
  {
    var mark := AdvanceMark(sink, config, st, env);
    if mark.Some? {
      MarksGrow(config, st.log, st.trail, mark.value);
    }
  }

  lemma SleepKeepsCounted<S, A, R>(sink: Sink<S, A, R>, config: Config, st: State<S, A>, env: Env<R>)
    requires Sane(config) && Counted(config, st) && st.pc.Sleeping?
    ensures Counted(config, Advance(sink, config, st, env))
  {
    AdvanceCountsMarks(sink, config, st, env);
    Mark1(st.trail, Slept(st.pc.attempt, st.pc.backoff));
    SleepAddsUp(config, st.pc.attempt);
  }

  /** How a step other than a sleep changes the tally: an attempt adds one, a
      delivered message starts it over. */
  predicate AwakeTally<S, A>(st: State<S, A>, next: State<S, A>, attempts: nat, slumber: int)
  {
    if next.trail == st.trail then attempts == Attempts(st.trail) && slumber == Slumber(st.trail)
    else if st.pc.Polling? then attempts == 0 && slumber == 0
    else attempts == Attempts(st.trail) + (if st.pc.Attempting? then 1 else 0) && slumber == Slumber(st.trail)
  }

  lemma AwakeTallies<S, A, R>(sink: Sink<S, A, R>, config: Config, st: State<S, A>, env: Env<R>)
    requires !st.pc.Sleeping?
    ensures var next := Advance(sink, config, st, env);
            AwakeTally(st, next, Attempts(next.trail), Slumber(next.trail))
  {
    var mark := AdvanceMark(sink, config, st, env);
    if mark.Some? {
      Mark1(st.trail, mark.value);
    }
  }

  /** How the control point keeps up with the tally. */
  lemma AwakePcCounted<S, A, R>(
      sink: Sink<S, A, R>, config: Config, st: State<S, A>, env: Env<R>, attempts: nat, slumber: int)
    requires Sane(config) && !st.pc.Sleeping?
    requires PcCounted(config, st.pc, st.running, Attempts(st.trail), Slumber(st.trail))
    requires Attempts(st.trail) <= Most(config)
    requires AwakeTally(st, Advance(sink, config, st, env), attempts, slumber)
    ensures var next := Advance(sink, config, st, env);
            && attempts <= Most(config)
            && PcCounted(config, next.pc, next.running, attempts, slumber)
  {
    FirstBackoff(config);
  }

  lemma AwakeKeepsCounted<S, A, R>(sink: Sink<S, A, R>, config: Config, st: State<S, A>, env: Env<R>)
    requires Sane(config) && Counted(config, st) && !st.pc.Sleeping?
    ensures Counted(config, Advance(sink, config, st, env))
  {
    var next := Advance(sink, config, st, env);
    AdvanceCountsMarks(sink, config, st, env);
    FirstBackoff(config);
    AwakeTallies(sink, config, st, env);
    AwakePcCounted(sink, config, st, env, Attempts(next.trail), Slumber(next.trail));
  }

  lemma AdvanceKeepsCounted<S, A, R>(sink: Sink<S, A, R>, config: Config, st: State<S, A>, env: Env<R>)
    requires Sane(config) && Counted(config, st)
    ensures Counted(config, Advance(sink, config, st, env))
  {
    if st.pc.Sleeping? {
      SleepKeepsCounted(sink, config, st, env);
    } else {
      AwakeKeepsCounted(sink, config, st, env);
    }
  }

  lemma StepKeepsCounted<S, A, R>(sink: Sink<S, A, R>, config: Config, st: State<S, A>, input: Input<A, R>)
    requires Sane(config) && Sound(st) && Counted(config, st)
    ensures Counted(config, Step(sink, config, st, input))
  {
    match input
    case Go(env) => AdvanceKeepsCounted(sink, config, st, env);
    case _ =>
  }

  lemma {:induction false} RunKeepsCounted<S, A, R>(
      sink: Sink<S, A, R>, config: Config, s0: S, inputs: seq<Input<A, R>>)
    requires Sane(config)
    ensures Sound(Exec(sink, config, Init(s0), inputs)) && Counted(config, Exec(sink, config, Init(s0), inputs))
  {
    RunKeepsSound(sink, config, Init(s0), inputs);
    if inputs == [] {
      TotalBackoffBound(config, 0, Max(config.maxRetries - 1, 0));
    } else {
      var n := |inputs| - 1;
      RunKeepsSound(sink, config, Init(s0), inputs[..n]);
      RunKeepsCounted(sink, config, s0, inputs[..n]);
      StepKeepsCounted(sink, config, Exec(sink, config, Init(s0), inputs[..n]), inputs[n]);
    }
  }

  predicate Bounded<S, A>(config: Config, st: State<S, A>)
  {
    && Attempts(st.trail) <= config.maxRetries
    && Slumber(st.trail) <= (config.maxRetries - 1) * config.maxBackoff
    && (forall i :: 0 <= i < |st.trail| && st.trail[i].Slept? ==>
          && 1 <= st.trail[i].attempt < config.maxRetries
          && st.trail[i].ms == Min(config.initialBackoff * Pow2(st.trail[i].attempt - 1), config.maxBackoff))
    && (forall i :: 0 <= i < |st.trail| && st.trail[i].Routed? ==>
          && st.trail[i].offset < |st.log|
          && Attempts(st.trail[..i]) == if st.trail[i].raw then 0 else config.maxRetries)
    && (st.pc.Sleeping? && config.maxBackoff <= 0x3fff_ffff ==> 0 < st.pc.backoff * 2 <= 0x7fff_ffff)
  }

  lemma CountedIsBounded<S, A>(config: Config, st: State<S, A>)
    requires Sane(config) && 1 <= config.maxRetries && Counted(config, st)
    ensures Bounded(config, st)
  {
    TotalBackoffBound(config, config.maxRetries - 1, config.maxRetries - 1);
    if st.pc.Sleeping? {
      BackoffDoubles(config, st.pc.attempt);
    }
  }

  /** In every reachable state: at most maxRetries attempts on a message; its sleeps
      follow min(initial * 2^(k-1), max) and add up to at most (maxRetries - 1) *
      max; a message that was decoded goes to the dead-letter queue only after
      exactly maxRetries attempts, one that was not without any; and doubling the
      backoff never leaves the range of int when max is at most half of it. */
  lemma {:induction false} RetryBounds<S, A, R>(
      sink: Sink<S, A, R>, config: Config, s0: S, inputs: seq<Input<A, R>>)
    requires Sane(config) && 1 <= config.maxRetries
    ensures Bounded(config, Exec(sink, config, Init(s0), inputs))
  {
    RunKeepsCounted(sink, config, s0, inputs);
    CountedIsBounded(config, Exec(sink, config, Init(s0), inputs));
  }

  // ---- time -----------------------------------------------------------------

  /** The time that passes by itself. */
  function Ticked<A, R>(inputs: seq<Input<A, R>>): int
  {
    if inputs == [] then 0
    else Ticked(inputs[..|inputs| - 1]) + match inputs[|inputs| - 1] case Tick(ms) => ms case _ => 0
  }

  /** The time slept, over the whole history. */
  function TimeSlept(trail: seq<Mark>): int
  {
    if trail == [] then 0
    else TimeSlept(trail[..|trail| - 1]) + match trail[|trail| - 1] case Slept(_, ms) => Max(ms, 0) case _ => 0
  }

  lemma SleptSnoc(trail: seq<Mark>, mark: Mark)
    ensures TimeSlept(trail + [mark]) == TimeSlept(trail) + if mark.Slept? then Max(mark.ms, 0) else 0
  {
    assert (trail + [mark])[..|trail|] == trail;
  }

  lemma StepTakesTime<S, A, R>(sink: Sink<S, A, R>, config: Config, st: State<S, A>, input: Input<A, R>)
    ensures var next := Step(sink, config, st, input);
            next.now - st.now == (if input.Tick? then input.ms else 0) + TimeSlept(next.trail) - TimeSlept(st.trail)
  {
    if input.Go? {
      var mark := AdvanceMark(sink, config, st, input.env);
      if mark.Some? { SleptSnoc(st.trail, mark.value); }
    }
  }

  /** The clock moves by what passes by itself and by the sleeps, and nothing else the
      loop does takes time that is not in the inputs. */
  lemma {:induction false} ClockExactly<S, A, R>(
      sink: Sink<S, A, R>, config: Config, st: State<S, A>, inputs: seq<Input<A, R>>)
    ensures var last := Exec(sink, config, st, inputs);
            last.now - st.now == Ticked(inputs) + TimeSlept(last.trail) - TimeSlept(st.trail)
  {
    if inputs != [] {
      var n := |inputs| - 1;
      ClockExactly(sink, config, st, inputs[..n]);
      StepTakesTime(sink, config, Exec(sink, config, st, inputs[..n]), inputs[n]);
    }
  }

  // ---- shutdown -------------------------------------------------------------

  datatype Kind = Delivery | Attempt | Sleep | Handover | Completion

  function KindOf(mark: Mark): Kind
  {
    match mark
    case Delivered(_, _) => Delivery
    case Tried(_, _) => Attempt
    case Slept(_, _) => Sleep
    case Routed(_, _, _) => Handover
    case Finished(_, _) => Completion
  }

  function Count(trail: seq<Mark>, kind: Kind): nat
  {
    if trail == [] then 0
    else Count(trail[..|trail| - 1], kind) + (if KindOf(trail[|trail| - 1]) == kind then 1 else 0)
  }

  /** Steps the thread can still take once `running` is false. */
  function Remaining(pc: Pc): nat
  {
    match pc
    case Attempting(_, _) => 5
    case Polling => 4
    case Sleeping(_, _) => 4
    case Caught(_, _) => 4
    case AttemptTest(_, _) => 3
    case Routing(_) => 3
    case GaveUp => 2
    case Committing(_) => 2
    case LoopTest => 1
    case Closed => 0
    case Down => 0
  }

  /** What the thread may still do, per kind, once `running` is false. */
  function Allowance(pc: Pc, kind: Kind): nat
  {
    match pc
    case Attempting(_, _) => if kind.Attempt? || kind.Completion? then 1 else 0
    case Polling => if kind.Delivery? || kind.Handover? || kind.Completion? then 1 else 0
    case Sleeping(_, _) => if kind.Sleep? then 1 else 0
    case Routing(_) => if kind.Handover? || kind.Completion? then 1 else 0
    case Committing(_) => if kind.Completion? then 1 else 0
    case _ => 0
  }

  function Goes<A, R>(inputs: seq<Input<A, R>>): nat
  {
    if inputs == [] then 0
    else Goes(inputs[..|inputs| - 1]) + (if inputs[|inputs| - 1].Go? then 1 else 0)
  }

  lemma AdvanceNearsTheEnd<S, A, R>(sink: Sink<S, A, R>, config: Config, st: State<S, A>, env: Env<R>)
    requires Sound(st) && !st.running
    ensures var next := Advance(sink, config, st, env);
            && (st.pc.Closed? || st.pc.Down? || Remaining(next.pc) < Remaining(st.pc))
            && (st.pc.Closed? || st.pc.Down? ==> next == st)
  {
  }

  lemma AdvanceSpendsAllowance<S, A, R>(sink: Sink<S, A, R>, config: Config, st: State<S, A>, env: Env<R>, kind: Kind)
    requires !st.running
    ensures var next := Advance(sink, config, st, env);
            Count(next.trail, kind) + Allowance(next.pc, kind) <= Count(st.trail, kind) + Allowance(st.pc, kind)
  {
    var mark := AdvanceMark(sink, config, st, env);
    if mark.Some? {
      assert (st.trail + [mark.value])[..|st.trail|] == st.trail;
    }
  }

  lemma StepShutsDown<S, A, R>(sink: Sink<S, A, R>, config: Config, st: State<S, A>, input: Input<A, R>, kind: Kind)
    requires Sound(st) && !st.running && !input.Start?
    ensures var next := Step(sink, config, st, input);
            && !next.running
            && Count(next.trail, kind) + Allowance(next.pc, kind) <= Count(st.trail, kind) + Allowance(st.pc, kind)
            && (next.pc.Closed? || next.pc.Down?
                || (!st.pc.Closed? && !st.pc.Down?
                    && Remaining(next.pc) + (if input.Go? then 1 else 0) <= Remaining(st.pc)))
  {
    if input.Go? {
      AdvanceNearsTheEnd(sink, config, st, input.env);
      AdvanceSpendsAllowance(sink, config, st, input.env, kind);
    }
  }

  /** Bounded shutdown: once the flag is down, whatever else happens, the thread
      makes at most one more attempt, sleep, hand-off and commit of each, and
      has left the loop after at most five more of its own steps. */
  lemma {:induction false} BoundedShutdown<S, A, R>(
      sink: Sink<S, A, R>, config: Config, st: State<S, A>, inputs: seq<Input<A, R>>, kind: Kind)
    requires Sound(st) && !st.running && NoRestart(inputs)
    ensures var last := Exec(sink, config, st, inputs);
            && !last.running
            && Count(last.trail, kind) + Allowance(last.pc, kind) <= Count(st.trail, kind) + Allowance(st.pc, kind)
            && Count(last.trail, kind) <= Count(st.trail, kind) + 1
            && (Goes(inputs) + Remaining(last.pc) <= Remaining(st.pc) || last.pc.Closed? || last.pc.Down?)
            && (5 <= Goes(inputs) ==> last.pc.Closed? || last.pc.Down?)
  {
    if inputs != [] {
      var n := |inputs| - 1;
      BoundedShutdown(sink, config, st, inputs[..n], kind);
      RunKeepsSound(sink, config, st, inputs[..n]);
      StepShutsDown(sink, config, Exec(sink, config, st, inputs[..n]), inputs[n], kind);
    }
  }
}
