/** Where a consumer resumes. The stored offset and the position are read off the
    history and the broker's answers, and what was finished without being stored
    is met again after a crash. */
module Commits {
  import opened Protocol
  import opened Offsets

  /** The offset that a step finishes, if it does: what the history gained. */
  function Finishes<S, A>(before: State<S, A>, after: State<S, A>): int
  {
    if |before.trail| < |after.trail| && after.trail[|before.trail|].Finished?
    then after.trail[|before.trail|].offset else -1
  }

  /** One past the offset last finished by a step whose commit the broker stored, or
      what was stored to begin with. */
  function LastStored<S, A, R>(sink: Sink<S, A, R>, config: Config, st: State<S, A>, inputs: seq<Input<A, R>>): int
  {
    if inputs == [] then st.committed
    else
      var n := |inputs| - 1;
      var finished := Finishes(Exec(sink, config, st, inputs[..n]), Exec(sink, config, st, inputs));
      if 0 <= finished && inputs[n].Go? && inputs[n].env.stored then finished + 1
      else LastStored(sink, config, st, inputs[..n])
  }

  /** A consumer is set up where none runs. */
  predicate Resumes<S, A, R>(st: State<S, A>, input: Input<A, R>)
  {
    input.Start? && (st.pc.Closed? || st.pc.Down?)
  }

  /** One past the offset last finished since the last consumer was set up, or what was
      stored when it was. */
  function LastFinished<S, A, R>(
      sink: Sink<S, A, R>, config: Config, st: State<S, A>, inputs: seq<Input<A, R>>): int
  {
    if inputs == [] then st.pos
    else
      var n := |inputs| - 1;
      var before := Exec(sink, config, st, inputs[..n]);
      var finished := Finishes(before, Exec(sink, config, st, inputs));
      if 0 <= finished then finished + 1
      else if Resumes(before, inputs[n]) then LastStored(sink, config, st, inputs[..n])
      else LastFinished(sink, config, st, inputs[..n])
  }

  lemma StepReckons<S, A, R>(sink: Sink<S, A, R>, config: Config, st: State<S, A>, input: Input<A, R>)
    ensures var next := Step(sink, config, st, input);
            var finished := Finishes(st, next);
            && next.committed == (if 0 <= finished && input.Go? && input.env.stored then finished + 1 else st.committed)
            && next.pos == if 0 <= finished then finished + 1
                           else if Resumes(st, input) then st.committed else st.pos
  {
    if input.Go? {
      var mark := AdvanceMark(sink, config, st, input.env);
    }
  }

  /** Over every run, exactly: the offset moves only with a commit that the broker has
      stored, to one past the message it was for; the position moves past every
      message finished, stored or not, and back to the offset at a restart. */
  lemma {:induction false} OffsetsExactly<S, A, R>(
      sink: Sink<S, A, R>, config: Config, st: State<S, A>, inputs: seq<Input<A, R>>)
    ensures Exec(sink, config, st, inputs).committed == LastStored(sink, config, st, inputs)
    ensures Exec(sink, config, st, inputs).pos == LastFinished(sink, config, st, inputs)
  {
    if inputs != [] {
      var n := |inputs| - 1;
      OffsetsExactly(sink, config, st, inputs[..n]);
      StepReckons(sink, config, Exec(sink, config, st, inputs[..n]), inputs[n]);
    }
  }

  /** While the broker delivers nothing, a consumer with nothing in hand meets, tries and
      finishes nothing, whatever there is in the log. */
  lemma {:induction false} NothingDelivered<S, A, R>(
      sink: Sink<S, A, R>, config: Config, st: State<S, A>, inputs: seq<Input<A, R>>)
    requires !InHand(st.pc) && forall i :: 0 <= i < |inputs| && inputs[i].Go? ==> !inputs[i].env.delivers
    ensures var last := Exec(sink, config, st, inputs);
            && !InHand(last.pc) && last.trail == st.trail && last.sink == st.sink && last.committed == st.committed
  {
    if inputs != [] {
      var n := |inputs| - 1;
      NothingDelivered(sink, config, st, inputs[..n]);
      IdlePoll(sink, config, Exec(sink, config, st, inputs[..n]), inputs[n]);
    }
  }

  lemma IdlePoll<S, A, R>(sink: Sink<S, A, R>, config: Config, st: State<S, A>, input: Input<A, R>)
    requires !InHand(st.pc) && (input.Go? ==> !input.env.delivers)
    ensures var next := Step(sink, config, st, input);
            && !InHand(next.pc) && next.trail == st.trail && next.sink == st.sink && next.committed == st.committed
  {
  }

  // ---- failed commits ---------------------------------------------------------

  /** The broker stores no commit. */
  predicate NoneStored<A, R>(inputs: seq<Input<A, R>>)
  {
    forall i :: 0 <= i < |inputs| && inputs[i].Go? ==> !inputs[i].env.stored
  }

  lemma {:induction false} NoneStoredStays<S, A, R>(
      sink: Sink<S, A, R>, config: Config, st: State<S, A>, inputs: seq<Input<A, R>>)
    requires NoneStored(inputs)
    ensures Exec(sink, config, st, inputs).committed == st.committed
  {
    if inputs != [] {
      var n := |inputs| - 1;
      NoneStoredStays(sink, config, st, inputs[..n]);
      StepReckons(sink, config, Exec(sink, config, st, inputs[..n]), inputs[n]);
    }
  }

  /** What a crash and a new consumer change: the thread starts over at the stored
      offset. The log, the sink and the clock are what they were. */
  lemma CrashRestarts<S, A, R>(
      sink: Sink<S, A, R>, config: Config, st: State<S, A>, inputs: seq<Input<A, R>>, producer: bool)
    ensures var before := Exec(sink, config, st, inputs);
            Exec(sink, config, st, inputs + [Kill, Start(producer)])
            == before.(pos := before.committed, running := true, producer := producer, pc := LoopTest)
  {
    ExecSnoc(sink, config, st, inputs, Kill);
    ExecSnoc(sink, config, st, inputs + [Kill], Start(producer));
    assert inputs + [Kill] + [Start(producer)] == inputs + [Kill, Start(producer)];
  }

  /** The message at o has been delivered since the history had `from` marks. */
  predicate Met(trail: seq<Mark>, from: nat, o: nat)
  {
    exists i :: from <= i < |trail| && trail[i].Delivered? && trail[i].offset == o
  }

  /** Everything from c to the position, and what is in hand, has been met. */
  predicate MetFrom<S, A>(st: State<S, A>, from: nat, c: nat)
  {
    && c <= st.committed
    && (forall o: nat :: c <= o < st.pos ==> Met(st.trail, from, o))
    && (InHand(st.pc) ==> Met(st.trail, from, st.pos))
  }

  lemma StepMeets<S, A, R>(
      sink: Sink<S, A, R>, config: Config, st: State<S, A>, input: Input<A, R>, from: nat, c: nat)
    requires Sound(st) && MetFrom(st, from, c) && from <= |st.trail|
    ensures MetFrom(Step(sink, config, st, input), from, c)
  {
    var next := Step(sink, config, st, input);
    StepKeepsSound(sink, config, st, input);
    StepReckons(sink, config, st, input);
    forall o: nat | Met(st.trail, from, o)
      ensures Met(next.trail, from, o)
    {
      var i :| from <= i < |st.trail| && st.trail[i].Delivered? && st.trail[i].offset == o;
      assert next.trail[i] == st.trail[i];
    }
    TakesInHand(sink, config, st, input);
    if InHand(next.pc) && !InHand(st.pc) {
      assert next.trail[|st.trail|].Delivered?;
    }
    if 0 <= Finishes(st, next) {
      FinishesInHand(sink, config, st, input);
    }
  }

  /** A message comes into hand by being delivered. */
  lemma TakesInHand<S, A, R>(sink: Sink<S, A, R>, config: Config, st: State<S, A>, input: Input<A, R>)
    ensures var next := Step(sink, config, st, input);
            InHand(next.pc) ==>
              if InHand(st.pc) then next.pos == st.pos
              else |next.trail| == |st.trail| + 1 && next.trail[|st.trail|].Delivered?
                   && next.trail[|st.trail|].offset == next.pos == st.pos
  {
  }

  lemma FinishesInHand<S, A, R>(sink: Sink<S, A, R>, config: Config, st: State<S, A>, input: Input<A, R>)
    requires 0 <= Finishes(st, Step(sink, config, st, input))
    ensures InHand(st.pc) && Finishes(st, Step(sink, config, st, input)) == st.pos
  {
    if input.Go? {
      var mark := AdvanceMark(sink, config, st, input.env);
    }
  }

  /** From a fresh start on, whatever happens, crashes and restarts included, the
      position gets past nothing that has not been met since. */
  lemma {:induction false} PassesOnlyWhatItMeets<S, A, R>(
      sink: Sink<S, A, R>, config: Config, st: State<S, A>, inputs: seq<Input<A, R>>)
    requires Sound(st) && !InHand(st.pc) && st.pos == st.committed
    ensures |st.trail| <= |Exec(sink, config, st, inputs).trail|
    ensures MetFrom(Exec(sink, config, st, inputs), |st.trail|, st.committed)
  {
    if inputs != [] {
      var n := |inputs| - 1;
      PassesOnlyWhatItMeets(sink, config, st, inputs[..n]);
      RunKeepsSound(sink, config, st, inputs[..n]);
      RunKeepsSound(sink, config, st, inputs);
      StepMeets(sink, config, Exec(sink, config, st, inputs[..n]), inputs[n], |st.trail|, st.committed);
    }
  }

  /** Redelivery. As long as the broker stores no commit, the offset stays where it was
      however much is finished; after a crash the next consumer is back at it, and
      gets past none of what came before the crash without meeting it again. */
  lemma {:induction false} Redelivered<S, A, R>(
      sink: Sink<S, A, R>, config: Config, st: State<S, A>, inputs: seq<Input<A, R>>, producer: bool,
      rest: seq<Input<A, R>>)
    requires Sound(st) && NoneStored(inputs)
    ensures var back := Exec(sink, config, st, inputs + [Kill, Start(producer)]);
            var last := Exec(sink, config, back, rest);
            && back.committed == back.pos == st.committed && back.sink == Exec(sink, config, st, inputs).sink
            && forall o: nat :: st.committed <= o < last.pos ==> Met(last.trail, |back.trail|, o)
  {
    NoneStoredStays(sink, config, st, inputs);
    CrashRestarts(sink, config, st, inputs, producer);
    RunKeepsSound(sink, config, st, inputs + [Kill, Start(producer)]);
    PassesOnlyWhatItMeets(sink, config, Exec(sink, config, st, inputs + [Kill, Start(producer)]), rest);
  }
}
