/** Whether a message blocks the partition. `dump` throws on bytes that are not
    UTF-8 and nothing in `Run` catches it, so a payload of such bytes is met again
    by every consumer that has a dead-letter producer until it can be decoded. */
module Progress {
  import opened Protocol
  import opened Offsets

  /** The thread runs undisturbed, messages come, error texts are UTF-8 and commits are
      stored. The sink, the dead-letter queue and the schema registry may do
      whatever they like. */
  predicate Cooperative<A, R>(inputs: seq<Input<A, R>>)
  {
    forall i :: 0 <= i < |inputs| ==>
      inputs[i].Go? && inputs[i].env.delivers && inputs[i].env.legible && inputs[i].env.stored
  }

  /** How many steps from here the message is met, if that is still to come. */
  function MetAfter(pc: Pc): int
  {
    match pc
    case LoopTest => 1
    case Polling => 0
    case _ => -1
  }

  /** The message at p can be got past: there is no producer, or its bytes are UTF-8,
      or the encounter with it has decoded it, or will. */
  predicate Clears<S, A, R>(st: State<S, A>, inputs: seq<Input<A, R>>, p: nat)
    requires p < |st.log|
  {
    st.producer && !st.log[p].utf8 ==>
      var k := MetAfter(st.pc);
      st.pc != Routing(true) && (0 <= k < |inputs| && inputs[k].Go? ==> Decodes(st.log[p], inputs[k].env.schema))
  }

  /** The most steps from a control point to the end of the message. */
  function Rest(config: Config, pc: Pc): nat
  {
    match pc
    case LoopTest => 6 + 4 * Max(config.maxRetries, 0)
    case Polling => 5 + 4 * Max(config.maxRetries, 0)
    case AttemptTest(a, _) => 4 + 4 * Max(config.maxRetries + 1 - a, 0)
    case Attempting(a, _) => 3 + 4 * Max(config.maxRetries + 1 - a, 0)
    case Caught(a, _) => 2 + 4 * Max(config.maxRetries + 1 - a, 0)
    case Sleeping(a, _) => 1 + 4 * Max(config.maxRetries + 1 - a, 0)
    case GaveUp => 3
    case Routing(_) => 2
    case Committing(_) => 1
    case Closed => 0
    case Down => 0
  }

  /** Still busy with the message at p. */
  predicate Busy<S, A>(config: Config, st: State<S, A>, p: nat)
  {
    && st.running && st.pos == p < |st.log| && 0 < Rest(config, st.pc)
    && (Trying(st.pc) ==> st.log[p].Record?)
    && (st.pc.AttemptTest? ==> 1 <= st.pc.attempt)
    && (st.pc.Attempting? || st.pc.Caught? || st.pc.Sleeping? ==> 1 <= st.pc.attempt <= config.maxRetries)
  }

  predicate Done<S, A>(st: State<S, A>, p: nat)
  {
    st.pc == LoopTest && st.running && st.committed == st.pos == p + 1
  }

  /** Routing raw bytes that cannot be dumped. */
  predicate Doomed<S, A>(st: State<S, A>)
  {
    st.pc == Routing(true) && st.producer && st.pos < |st.log| && !st.log[st.pos].utf8
  }

  lemma OneStep<S, A, R>(sink: Sink<S, A, R>, config: Config, st: State<S, A>, env: Env<R>, p: nat)
    requires Busy(config, st, p) && !Doomed(st) && env.delivers && env.legible && env.stored
    ensures var next := Advance(sink, config, st, env);
            Done(next, p) || (Busy(config, next, p) && Rest(config, next.pc) < Rest(config, st.pc))
  {
  }

  lemma OneStepDooms<S, A, R>(sink: Sink<S, A, R>, config: Config, st: State<S, A>, env: Env<R>)
    requires env.delivers && st.pos < |st.log|
    ensures Doomed(Advance(sink, config, st, env)) ==>
              st.pc.Polling? && st.producer && !st.log[st.pos].utf8 && !Decodes(st.log[st.pos], env.schema)
    ensures st.pc.Polling? && st.producer && !st.log[st.pos].utf8 && !Decodes(st.log[st.pos], env.schema) ==>
              Doomed(Advance(sink, config, st, env))
  {
  }

  lemma AdvanceKeepsWorld<S, A, R>(sink: Sink<S, A, R>, config: Config, st: State<S, A>, env: Env<R>)
    ensures var next := Advance(sink, config, st, env);
            next.log == st.log && next.producer == st.producer && next.running == st.running
  {
  }

  lemma {:induction false} UndisturbedKeeps<S, A, R>(
      sink: Sink<S, A, R>, config: Config, st: State<S, A>, inputs: seq<Input<A, R>>)
    requires Cooperative(inputs)
    ensures var last := Exec(sink, config, st, inputs);
            last.log == st.log && last.producer == st.producer && last.running == st.running
  {
    if inputs != [] {
      var n := |inputs| - 1;
      UndisturbedKeeps(sink, config, st, inputs[..n]);
      AdvanceKeepsWorld(sink, config, Exec(sink, config, st, inputs[..n]), inputs[n].env);
    }
  }

  lemma {:induction false} ExecConcat<S, A, R>(
      sink: Sink<S, A, R>, config: Config, st: State<S, A>, first: seq<Input<A, R>>, rest: seq<Input<A, R>>)
    ensures Exec(sink, config, st, first + rest) == Exec(sink, config, Exec(sink, config, st, first), rest)
  {
    if rest == [] {
      assert first + rest == first;
    } else {
      var n := |rest| - 1;
      assert (first + rest)[..|first + rest| - 1] == first + rest[..n];
      ExecConcat(sink, config, st, first, rest[..n]);
    }
  }

  /** A message that clears: either a prefix of the inputs finishes it, or every one
      of them has brought it closer. */
  lemma {:induction false} Nearer<S, A, R>(
      sink: Sink<S, A, R>, config: Config, st: State<S, A>, inputs: seq<Input<A, R>>, p: nat)
    returns (done: bool, spent: seq<Input<A, R>>)
    requires Busy(config, st, p) && Clears(st, inputs, p) && Cooperative(inputs)
    ensures spent <= inputs
    ensures done ==> Done(Exec(sink, config, st, spent), p)
    ensures !done ==> var last := Exec(sink, config, st, inputs);
                      && Busy(config, last, p) && !Doomed(last)
                      && Rest(config, last.pc) + |inputs| <= Rest(config, st.pc)
  {
    if inputs == [] {
      done, spent := false, [];
    } else {
      var m := |inputs| - 1;
      done, spent := Nearer(sink, config, st, inputs[..m], p);
      if !done {
        var before := Exec(sink, config, st, inputs[..m]);
        UndisturbedKeeps(sink, config, st, inputs[..m]);
        OneStep(sink, config, before, inputs[m].env, p);
        OneStepDooms(sink, config, before, inputs[m].env);
        MetThen(config, st, before, m, p);
        done, spent := Done(Exec(sink, config, st, inputs), p), inputs;
      }
    }
  }

  /** Closing in on a message one meets it at one point only. */
  lemma MetThen<S, A>(config: Config, st: State<S, A>, now: State<S, A>, m: nat, p: nat)
    requires Busy(config, st, p) && Rest(config, now.pc) + m <= Rest(config, st.pc)
    requires m == 0 ==> now == st
    ensures now.pc.Polling? ==> m == MetAfter(st.pc)
  {
  }

  /** It is done within the steps that are left to it. */
  lemma ClearFinishes<S, A, R>(
      sink: Sink<S, A, R>, config: Config, st: State<S, A>, inputs: seq<Input<A, R>>, p: nat)
    returns (spent: seq<Input<A, R>>, unspent: seq<Input<A, R>>)
    requires Busy(config, st, p) && Clears(st, inputs, p) && Cooperative(inputs)
    requires Rest(config, st.pc) <= |inputs|
    ensures inputs == spent + unspent && |spent| <= Rest(config, st.pc) && Cooperative(unspent)
    ensures var after := Exec(sink, config, st, spent);
            Done(after, p) && after.log == st.log && after.producer == st.producer
  {
    var share := inputs[..Rest(config, st.pc)];
    var done;
    done, spent := Nearer(sink, config, st, share, p);
    unspent := inputs[|spent|..];
    UndisturbedKeeps(sink, config, st, spent);
  }

  // ---- blocked partitions --------------------------------------------------

  /** Every consumer started has a dead-letter producer. */
  predicate Producing<A, R>(inputs: seq<Input<A, R>>)
  {
    forall i :: 0 <= i < |inputs| && inputs[i].Start? ==> inputs[i].producer
  }

  /** The raw bytes at o cannot be dumped, and the consumer is not past them nor
      busy with what they decode to. */
  predicate Blocked<S, A>(st: State<S, A>, o: nat)
  {
    && o < |st.log| && !st.log[o].utf8
    && st.committed <= st.pos <= o
    && (st.pos == o ==> !Trying(st.pc) && !st.pc.Committing? && st.pc != Routing(false))
    && (st.producer || st.pc.Closed? || st.pc.Down?)
  }

  /** Only an encounter that decodes it lets a consumer with a producer go on. */
  lemma StepStaysBlocked<S, A, R>(sink: Sink<S, A, R>, config: Config, st: State<S, A>, input: Input<A, R>, o: nat)
    requires Sound(st) && Blocked(st, o) && (input.Start? ==> input.producer)
    ensures var next := Step(sink, config, st, input);
            Blocked(next, o) || (st.log[o].Record? && Delivered(o, true) in next.trail)
  {
    StepKeepsSound(sink, config, st, input);
    if input.Go? {
      var mark := AdvanceMark(sink, config, st, input.env);
    }
  }

  lemma {:induction false} StaysBlocked<S, A, R>(
      sink: Sink<S, A, R>, config: Config, st: State<S, A>, inputs: seq<Input<A, R>>, o: nat)
    requires Sound(st) && Blocked(st, o) && st.log[o].Undecodable? && Producing(inputs)
    ensures Blocked(Exec(sink, config, st, inputs), o)
  {
    if inputs != [] {
      var n := |inputs| - 1;
      StaysBlocked(sink, config, st, inputs[..n], o);
      RunKeepsSound(sink, config, st, inputs[..n]);
      StepStaysBlocked(sink, config, Exec(sink, config, st, inputs[..n]), inputs[n], o);
    }
  }

  /** What holds of every offset while each consumer has a producer. */
  predicate Jammed<S, A>(st: State<S, A>)
  {
    && (st.producer || st.pc.Closed? || st.pc.Down?)
    && forall o :: 0 <= o < |st.log| && !st.log[o].utf8 && Delivered(o, true) !in st.trail ==> Blocked(st, o)
  }

  lemma StepStaysJammed<S, A, R>(sink: Sink<S, A, R>, config: Config, st: State<S, A>, input: Input<A, R>)
    requires Sound(st) && Jammed(st) && (input.Start? ==> input.producer)
    ensures Jammed(Step(sink, config, st, input))
  {
    var next := Step(sink, config, st, input);
    if input.Go? { AdvanceKeepsWorld(sink, config, st, input.env); }
    StepKeepsSound(sink, config, st, input);
    forall o | 0 <= o < |next.log| && !next.log[o].utf8 && Delivered(o, true) !in next.trail
      ensures Blocked(next, o)
    {
      assert forall mark :: mark in st.trail ==> mark in next.trail;
      if o < |st.log| {
        assert next.log[o] == st.log[o];
        StepStaysBlocked(sink, config, st, input, o);
      }
    }
  }

  /** A poison payload blocks the partition: in every run in which each consumer has
      a producer, with any stops, crashes and restarts, neither the position nor the
      stored offset gets past a message whose bytes are not UTF-8 until an encounter
      decodes it. A payload that is rejected at every encounter blocks for good. */
  lemma {:induction false} BlockedForGood<S, A, R>(
      sink: Sink<S, A, R>, config: Config, s0: S, inputs: seq<Input<A, R>>)
    requires Producing(inputs)
    ensures var st := Exec(sink, config, Init(s0), inputs);
            forall o :: 0 <= o < |st.log| && !st.log[o].utf8 && Delivered(o, true) !in st.trail ==>
              st.committed <= st.pos <= o
    ensures Jammed(Exec(sink, config, Init(s0), inputs))
  {
    if inputs != [] {
      var n := |inputs| - 1;
      RunKeepsSound(sink, config, Init(s0), inputs[..n]);
      BlockedForGood(sink, config, s0, inputs[..n]);
      StepStaysJammed(sink, config, Exec(sink, config, Init(s0), inputs[..n]), inputs[n]);
    }
    assert Jammed(Exec(sink, config, Init(s0), inputs));
  }

  // ---- progress --------------------------------------------------------------

  /** A dump that throws ends the thread. */
  lemma {:induction false} DumpKills<S, A, R>(
      sink: Sink<S, A, R>, config: Config, st: State<S, A>, inputs: seq<Input<A, R>>)
    requires Doomed(st) && Cooperative(inputs)
    ensures Exec(sink, config, st, inputs) == if inputs == [] then st else st.(pc := Down)
  {
    if inputs != [] {
      DumpKills(sink, config, st, inputs[..|inputs| - 1]);
    }
  }

  /** On the way to an encounter that will not clear the message. */
  lemma {:induction false} NeverClears<S, A, R>(
      sink: Sink<S, A, R>, config: Config, st: State<S, A>, inputs: seq<Input<A, R>>, p: nat, n: nat)
    requires Busy(config, st, p) && !Clears(st, inputs, p) && Cooperative(inputs) && n <= |inputs|
    ensures var last := Exec(sink, config, st, inputs[..n]);
            && last == st.(high := last.high, pc := last.pc, trail := last.trail)
            && last.pc == (if n < MetAfter(st.pc) then LoopTest
                           else if n == MetAfter(st.pc) then Polling
                           else if n == MetAfter(st.pc) + 1 then Routing(true)
                           else Down)
  {
    if n != 0 {
      NeverClears(sink, config, st, inputs, p, n - 1);
      assert inputs[..n] == inputs[..n - 1] + [inputs[n - 1]];
      ExecSnoc(sink, config, st, inputs[..n - 1], inputs[n - 1]);
    }
  }

  /** Progress, exactly: whatever sink, dead-letter queue and registry do with it, the
      message at the position is finished and committed within 6 + 4 * maxRetries
      steps if and only if it clears: there is no producer, or its bytes are UTF-8,
      or the registry has its schema when it is met. */
  lemma {:induction false} MessageFinishes<S, A, R>(
      sink: Sink<S, A, R>, config: Config, st: State<S, A>, inputs: seq<Input<A, R>>, p: nat)
    requires Busy(config, st, p) && Cooperative(inputs) && Rest(config, st.pc) <= |inputs|
    ensures (exists n :: 0 <= n <= |inputs| && Done(Exec(sink, config, st, inputs[..n]), p))
       <==> Clears(st, inputs, p)
  {
    if Clears(st, inputs, p) {
      var spent, unspent := ClearFinishes(sink, config, st, inputs, p);
      assert inputs[..|spent|] == spent;
    } else {
      forall n | 0 <= n <= |inputs|
        ensures !Done(Exec(sink, config, st, inputs[..n]), p)
      {
        NeverClears(sink, config, st, inputs, p, n);
      }
    }
  }

  // ---- the whole partition ------------------------------------------------------

  predicate Drained<S, A>(st: State<S, A>)
  {
    st.committed == |st.log|
  }

  /** If the thread meets a message now, it gets past it. */
  predicate Survives<S, A, R>(st: State<S, A>, input: Input<A, R>)
  {
    input.Go? && st.pc.Polling? && st.pos < |st.log| && st.producer && !st.log[st.pos].utf8 ==>
      Decodes(st.log[st.pos], input.env.schema)
  }

  /** Every encounter of the run either decodes, or is with bytes that can be dumped
      or need not be. */
  predicate AllSurvive<S, A, R>(sink: Sink<S, A, R>, config: Config, st: State<S, A>, inputs: seq<Input<A, R>>)
  {
    forall n :: 0 <= n < |inputs| ==> SurvivesAt(sink, config, st, inputs, n)
  }

  predicate SurvivesAt<S, A, R>(
      sink: Sink<S, A, R>, config: Config, st: State<S, A>, inputs: seq<Input<A, R>>, n: nat)
    requires n < |inputs|
  {
    Survives(Exec(sink, config, st, inputs[..n]), inputs[n])
  }

  /** At some point of the run everything in the log has been committed. */
  predicate DrainsBy<S, A, R>(sink: Sink<S, A, R>, config: Config, st: State<S, A>, inputs: seq<Input<A, R>>)
  {
    exists n :: 0 <= n <= |inputs| && Drained(Exec(sink, config, st, inputs[..n]))
  }

  /** The steps a number of messages may take, each its full share. */
  function StepsFor(config: Config, messages: nat): (steps: nat)
    ensures steps == messages * Rest(config, LoopTest)
  {
    if messages == 0 then 0
    else
      assert messages * Rest(config, LoopTest) == (messages - 1) * Rest(config, LoopTest) + Rest(config, LoopTest);
      StepsFor(config, messages - 1) + Rest(config, LoopTest)
  }

  lemma SurvivorClears<S, A, R>(sink: Sink<S, A, R>, config: Config, st: State<S, A>, inputs: seq<Input<A, R>>)
    requires st.pc == LoopTest && st.running && st.pos < |st.log| && Cooperative(inputs)
    requires AllSurvive(sink, config, st, inputs)
    ensures Clears(st, inputs, st.pos)
  {
    if 1 < |inputs| {
      var none: seq<Input<A, R>> := [];
      assert inputs[..0] == none && inputs[..1] == none + [inputs[0]];
      ExecSnoc(sink, config, st, none, inputs[0]);
      assert SurvivesAt(sink, config, st, inputs, 1);
    }
  }

  lemma SurvivesOn<S, A, R>(
      sink: Sink<S, A, R>, config: Config, st: State<S, A>, first: seq<Input<A, R>>, rest: seq<Input<A, R>>)
    requires AllSurvive(sink, config, st, first + rest)
    ensures AllSurvive(sink, config, Exec(sink, config, st, first), rest)
  {
    forall n | 0 <= n < |rest|
      ensures SurvivesAt(sink, config, Exec(sink, config, st, first), rest, n)
    {
      assert SurvivesAt(sink, config, st, first + rest, |first| + n);
      SurvivesAtShift(sink, config, st, first, rest, n);
    }
  }

  lemma SurvivesAtShift<S, A, R>(
      sink: Sink<S, A, R>, config: Config, st: State<S, A>, first: seq<Input<A, R>>, rest: seq<Input<A, R>>, n: nat)
    requires n < |rest| && SurvivesAt(sink, config, st, first + rest, |first| + n)
    ensures SurvivesAt(sink, config, Exec(sink, config, st, first), rest, n)
  {
    assert (first + rest)[..|first| + n] == first + rest[..n];
    ExecConcat(sink, config, st, first, rest[..n]);
  }

  lemma {:induction false} SurvivorDrains<S, A, R>(
      sink: Sink<S, A, R>, config: Config, st: State<S, A>, inputs: seq<Input<A, R>>, left: nat)
    returns (spent: seq<Input<A, R>>)
    requires st.pc == LoopTest && st.running && st.committed == st.pos && Cooperative(inputs)
    requires left == |st.log| - st.pos && StepsFor(config, left) <= |inputs|
    requires AllSurvive(sink, config, st, inputs)
    ensures spent <= inputs && Drained(Exec(sink, config, st, spent))
    decreases left
  {
    if left == 0 {
      spent := [];
    } else {
      SurvivorClears(sink, config, st, inputs);
      var first, rest := ClearFinishes(sink, config, st, inputs, st.pos);
      SurvivesOn(sink, config, st, first, rest);
      var next := SurvivorDrains(sink, config, Exec(sink, config, st, first), rest, left - 1);
      ExecConcat(sink, config, st, first, next);
      spent := first + next;
    }
  }

  /** Once an encounter is not survived, the message is never committed. */
  lemma {:induction false} CasualtyStays<S, A, R>(
      sink: Sink<S, A, R>, config: Config, st: State<S, A>, inputs: seq<Input<A, R>>, n: nat)
    requires Sound(st) && Cooperative(inputs) && n < |inputs|
    requires !SurvivesAt(sink, config, st, inputs, n)
    ensures Exec(sink, config, st, inputs).committed < |Exec(sink, config, st, inputs).log|
  {
    var met := Exec(sink, config, st, inputs[..n]);
    RunKeepsSound(sink, config, st, inputs[..n]);
    assert inputs[..n + 1] == inputs[..n] + [inputs[n]] && inputs == inputs[..n + 1] + inputs[n + 1..];
    ExecSnoc(sink, config, st, inputs[..n], inputs[n]);
    OneStepDooms(sink, config, met, inputs[n].env);
    AdvanceKeepsWorld(sink, config, met, inputs[n].env);
    DumpKills(sink, config, Exec(sink, config, st, inputs[..n + 1]), inputs[n + 1..]);
    ExecConcat(sink, config, st, inputs[..n + 1], inputs[n + 1..]);
    CommitsOnly(sink, config, met, inputs[n].env);
  }

  lemma NotYetDrained<S, A, R>(
      sink: Sink<S, A, R>, config: Config, st: State<S, A>, first: seq<Input<A, R>>, rest: seq<Input<A, R>>)
    requires Sound(st) && Cooperative(first) && Cooperative(rest)
    ensures var last := Exec(sink, config, st, first + rest);
            last.committed < |last.log| ==> !Drained(Exec(sink, config, st, first))
  {
    ExecConcat(sink, config, st, first, rest);
    RunKeepsSound(sink, config, st, first);
    RunKeepsSound(sink, config, Exec(sink, config, st, first), rest);
    UndisturbedKeeps(sink, config, Exec(sink, config, st, first), rest);
  }

  lemma CommitsOnly<S, A, R>(sink: Sink<S, A, R>, config: Config, st: State<S, A>, env: Env<R>)
    requires !st.pc.Committing?
    ensures Advance(sink, config, st, env).committed == st.committed
  {
  }

  lemma {:induction false} CasualtyNeverDrains<S, A, R>(
      sink: Sink<S, A, R>, config: Config, st: State<S, A>, inputs: seq<Input<A, R>>, n: nat)
    requires Sound(st) && Cooperative(inputs) && n < |inputs|
    requires !SurvivesAt(sink, config, st, inputs, n)
    ensures !DrainsBy(sink, config, st, inputs)
  {
    CasualtyStays(sink, config, st, inputs, n);
    forall k | 0 <= k <= |inputs|
      ensures !Drained(Exec(sink, config, st, inputs[..k]))
    {
      NotYetDrained(sink, config, st, inputs[..k], inputs[k..]);
      assert inputs == inputs[..k] + inputs[k..];
    }
  }

  /** The whole partition, exactly: from a quiet point on, undisturbed, with steps
      enough for 6 + 4 * maxRetries a message, everything in the log is finished and
      committed if and only if every encounter of the run is survived. One that is
      not holds up all that come after it. */
  lemma {:induction false} PartitionDrains<S, A, R>(
      sink: Sink<S, A, R>, config: Config, st: State<S, A>, inputs: seq<Input<A, R>>)
    requires Sound(st) && st.pc == LoopTest && st.running && st.committed == st.pos && Cooperative(inputs)
    requires (|st.log| - st.pos) * Rest(config, LoopTest) <= |inputs|
    ensures DrainsBy(sink, config, st, inputs) <==> AllSurvive(sink, config, st, inputs)
  {
    if AllSurvive(sink, config, st, inputs) {
      var spent := SurvivorDrains(sink, config, st, inputs, |st.log| - st.pos);
      assert inputs[..|spent|] == spent;
    } else {
      var n :| 0 <= n < |inputs| && !SurvivesAt(sink, config, st, inputs, n);
      CasualtyNeverDrains(sink, config, st, inputs, n);
    }
  }

  /** Nothing in the message keeps a consumer from getting past it when its schema,
      if it needs one, can be had. */
  predicate Passable<A>(message: Message<A>, producer: bool)
  {
    message.Undecodable? && producer ==> message.utf8
  }

  lemma PassableSurvives<S, A, R>(sink: Sink<S, A, R>, config: Config, st: State<S, A>, inputs: seq<Input<A, R>>)
    requires Sound(st) && Cooperative(inputs)
    requires forall i :: 0 <= i < |inputs| && inputs[i].Go? ==> inputs[i].env.schema
    requires forall o :: st.pos <= o < |st.log| ==> Passable(st.log[o], st.producer)
    ensures AllSurvive(sink, config, st, inputs)
  {
    forall n | 0 <= n < |inputs|
      ensures SurvivesAt(sink, config, st, inputs, n)
    {
      UndisturbedKeeps(sink, config, st, inputs[..n]);
      PositionGrows(sink, config, st, inputs[..n]);
    }
  }

  lemma {:induction false} PositionGrows<S, A, R>(
      sink: Sink<S, A, R>, config: Config, st: State<S, A>, inputs: seq<Input<A, R>>)
    requires Cooperative(inputs)
    ensures st.pos <= Exec(sink, config, st, inputs).pos
  {
    if inputs != [] {
      PositionGrows(sink, config, st, inputs[..|inputs| - 1]);
    }
  }

  /** While schemas can be had, that is: if and only if every message is passable. */
  lemma {:induction false} DrainsWithSchemas<S, A, R>(
      sink: Sink<S, A, R>, config: Config, st: State<S, A>, inputs: seq<Input<A, R>>)
    requires Sound(st) && st.pc == LoopTest && st.running && st.committed == st.pos && Cooperative(inputs)
    requires (|st.log| - st.pos) * Rest(config, LoopTest) <= |inputs|
    requires forall i :: 0 <= i < |inputs| && inputs[i].Go? ==> inputs[i].env.schema
    ensures DrainsBy(sink, config, st, inputs)
       <==> (forall o :: st.pos <= o < |st.log| ==> Passable(st.log[o], st.producer))
  {
    if forall o :: st.pos <= o < |st.log| ==> Passable(st.log[o], st.producer) {
      PassableSurvives(sink, config, st, inputs);
      PartitionDrains(sink, config, st, inputs);
    } else {
      var o :| st.pos <= o < |st.log| && !Passable(st.log[o], st.producer);
      forall n | 0 <= n <= |inputs|
        ensures !Drained(Exec(sink, config, st, inputs[..n]))
      {
        StaysBlocked(sink, config, st, inputs[..n], o);
      }
    }
  }
}
