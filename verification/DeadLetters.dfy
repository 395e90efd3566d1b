/** What becomes of the messages the loop gives up on: which of them are saved,
    which are lost, and where unreadable payloads end up. */
module DeadLetters {
  import opened Json
  import opened Options
  import opened Records
  import opened Protocol
  import opened Offsets
  import opened Progress
  import opened Avro
  import opened Utf8Text
  import opened SinkSpecs

  lemma FourSteps<S, A, R>(sink: Sink<S, A, R>, config: Config, st: State<S, A>, envs: seq<Env<R>>)
    requires |envs| == 4
    ensures Exec(sink, config, st, [Go(envs[0]), Go(envs[1]), Go(envs[2]), Go(envs[3])])
         == Advance(sink, config, Advance(sink, config, Advance(sink, config, Advance(sink, config, st,
              envs[0]), envs[1]), envs[2]), envs[3])
  {
    var none: seq<Input<A, R>> := [];
    ExecSnoc(sink, config, st, none, Go(envs[0]));
    ExecSnoc(sink, config, st, none + [Go(envs[0])], Go(envs[1]));
    ExecSnoc(sink, config, st, none + [Go(envs[0])] + [Go(envs[1])], Go(envs[2]));
    ExecSnoc(sink, config, st, none + [Go(envs[0])] + [Go(envs[1])] + [Go(envs[2])], Go(envs[3]));
    assert none + [Go(envs[0])] + [Go(envs[1])] + [Go(envs[2])] + [Go(envs[3])]
        == [Go(envs[0]), Go(envs[1]), Go(envs[2]), Go(envs[3])];
  }

  lemma TakeUp<S, A, R>(sink: Sink<S, A, R>, config: Config, st: State<S, A>, testing: Env<R>, polling: Env<R>)
    requires st.pc == LoopTest && st.running && st.pos < |st.log| && polling.delivers
    ensures var decoded := Decodes(st.log[st.pos], polling.schema);
            && Advance(sink, config, Advance(sink, config, st, testing), polling)
               == st.(high := Max(st.high, st.pos + 1), trail := st.trail + [Delivered(st.pos, decoded)],
                      pc := if decoded then AttemptTest(1, config.initialBackoff) else Routing(true))
  {
  }

  lemma HandOver<S, A, R>(sink: Sink<S, A, R>, config: Config, st: State<S, A>, handing: Env<R>, committing: Env<R>)
    requires st.pc == Routing(true) && st.pos < |st.log| && committing.stored
    ensures var handoff := HandoffOf(st.producer, st.log[st.pos], true, handing);
            && Advance(sink, config, Advance(sink, config, st, handing), committing)
               == if handoff.Thrown? then st.(pc := Down)
                  else st.(trail := st.trail + [Routed(st.pos, true, handoff)]
                                    + [Finished(st.pos, if handoff.Handed? then DeadLettered else HandoffFailed)],
                           pc := LoopTest, pos := st.pos + 1, committed := st.pos + 1)
  {
  }

  // ---- nothing is lost, exactly ----------------------------------------------

  /** A sink call took the message without throwing, or the dead-letter producer
      took it. */
  predicate Saved(trail: seq<Mark>, o: nat)
  {
    Tried(o, false) in trail || Routed(o, true, Handed) in trail || Routed(o, false, Handed) in trail
  }

  /** The dead-letter queue never fails: every consumer has a producer, and the
      producer takes what it is given. */
  predicate Reliable<A, R>(inputs: seq<Input<A, R>>)
  {
    Producing(inputs) && forall i :: 0 <= i < |inputs| && inputs[i].Go? ==> inputs[i].env.accepted
  }

  predicate NoneFailed(trail: seq<Mark>)
  {
    forall i :: 0 <= i < |trail| && trail[i].Routed? ==> trail[i].handoff.Handed?
  }

  lemma StepNoneFailed<S, A, R>(sink: Sink<S, A, R>, config: Config, st: State<S, A>, input: Input<A, R>)
    requires NoneFailed(st.trail) && (st.producer || st.pc.Closed? || st.pc.Down?)
    requires input.Go? ==> input.env.accepted
    ensures NoneFailed(Step(sink, config, st, input).trail)
  {
  }

  lemma {:induction false} ReliableNoneFailed<S, A, R>(
      sink: Sink<S, A, R>, config: Config, s0: S, inputs: seq<Input<A, R>>)
    requires Reliable(inputs)
    ensures NoneFailed(Exec(sink, config, Init(s0), inputs).trail)
  {
    if inputs != [] {
      var n := |inputs| - 1;
      ReliableNoneFailed(sink, config, s0, inputs[..n]);
      BlockedForGood(sink, config, s0, inputs[..n]);
      StepNoneFailed(sink, config, Exec(sink, config, Init(s0), inputs[..n]), inputs[n]);
    }
  }

  /** With a dead-letter queue that never fails no run loses a message: everything
      below the stored offset is saved. */
  lemma ReliableLosesNothing<S, A, R>(
      sink: Sink<S, A, R>, config: Config, s0: S, inputs: seq<Input<A, R>>, o: nat)
    requires Reliable(inputs) && o < Exec(sink, config, Init(s0), inputs).committed
    ensures Saved(Exec(sink, config, Init(s0), inputs).trail, o)
  {
    ReliableNoneFailed(sink, config, s0, inputs);
    Conservation(sink, config, s0, inputs, o);
    var trail := Exec(sink, config, Init(s0), inputs).trail;
    var i :| && 0 < i < |trail| && trail[i].Finished? && trail[i].offset == o
             && (|| trail[i - 1] == Tried(o, false)
                 || (trail[i - 1].Routed? && trail[i - 1].offset == o));
    assert trail[i - 1] in trail;
  }

  lemma StepKeepsSaved<S, A, R>(sink: Sink<S, A, R>, config: Config, st: State<S, A>, input: Input<A, R>, o: nat)
    requires o < st.committed <= st.pos
    ensures Saved(Step(sink, config, st, input).trail, o) <==> Saved(st.trail, o)
  {
    if input.Go? {
      var mark := AdvanceMark(sink, config, st, input.env);
    }
  }

  /** Below the stored offset nothing is ever consumed again, so what is not saved
      by then is lost for good. */
  lemma {:induction false} SavedForGood<S, A, R>(
      sink: Sink<S, A, R>, config: Config, st: State<S, A>, inputs: seq<Input<A, R>>, o: nat)
    requires Sound(st) && o < st.committed
    ensures Saved(Exec(sink, config, st, inputs).trail, o) <==> Saved(st.trail, o)
  {
    if inputs != [] {
      var n := |inputs| - 1;
      SavedForGood(sink, config, st, inputs[..n], o);
      RunKeepsSound(sink, config, st, inputs[..n]);
      StepKeepsSaved(sink, config, Exec(sink, config, st, inputs[..n]), inputs[n], o);
    }
  }

  /** No data is lost, exactly. The loop is about to give up on a message that was
      never saved before. It hands it off, and what is to be dumped is UTF-8 if there
      is a producer: the raw payload of a message that was not decoded, or what goes
      with a record. The commit that follows is stored. Then in every continuation
      the message is saved if and only if there was a producer and it took the dead
      letter. */
  lemma SavedExactly<S, A, R>(
      sink: Sink<S, A, R>, config: Config, st: State<S, A>, handing: Env<R>, committing: Env<R>,
      inputs: seq<Input<A, R>>)
    requires Sound(st) && st.pc.Routing? && !Saved(st.trail, st.pos)
    requires committing.stored
    requires st.producer ==> if st.pc.raw then st.log[st.pos].utf8 else handing.legible
    ensures var given := Advance(sink, config, st, handing);
            var done := Advance(sink, config, given, committing);
            && st.pos < done.committed <= Exec(sink, config, done, inputs).committed
            && (Saved(Exec(sink, config, done, inputs).trail, st.pos) <==> st.producer && handing.accepted)
  {
    var given := Advance(sink, config, st, handing);
    var done := Advance(sink, config, given, committing);
    AdvanceKeepsSound(sink, config, st, handing);
    AdvanceKeepsSound(sink, config, given, committing);
    var mark := Routed(st.pos, st.pc.raw, HandoffOf(st.producer, st.log[st.pos], st.pc.raw, handing));
    assert done.trail == st.trail + [mark, Finished(st.pos, given.pc.fate)];
    assert mark in done.trail;
    SavedForGood(sink, config, done, inputs, st.pos);
    RunKeepsSound(sink, config, done, inputs);
  }

  /** And if it cannot be dumped, there being a producer, the exception ends the thread
      with nothing given away and nothing committed: whatever happens until the
      next consumer is set up, that one finds the message where this one did. */
  lemma {:induction false} UndumpableEndsThread<S, A, R>(
      sink: Sink<S, A, R>, config: Config, st: State<S, A>, handing: Env<R>, inputs: seq<Input<A, R>>)
    requires Sound(st) && st.pc.Routing? && st.producer
    requires !(if st.pc.raw then st.log[st.pos].utf8 else handing.legible)
    requires NoRestart(inputs)
    ensures var last := Exec(sink, config, Advance(sink, config, st, handing), inputs);
            && last.pc == Down && last.trail == st.trail && last.sink == st.sink
            && last.committed == st.committed <= last.pos == st.pos
  {
    if inputs != [] {
      UndumpableEndsThread(sink, config, st, handing, inputs[..|inputs| - 1]);
    }
  }

  /** Nothing else does: a running thread goes down in a step of its own only there. */
  lemma OnlyDumpsEndThreads<S, A, R>(sink: Sink<S, A, R>, config: Config, st: State<S, A>, env: Env<R>)
    requires Sound(st) && !st.pc.Down?
    ensures Advance(sink, config, st, env).pc.Down?
       <==> st.pc.Routing? && st.producer && !(if st.pc.raw then st.log[st.pos].utf8 else env.legible)
  {
  }

  /** A failed hand-off loses a message: a run in which the only message is below
      the stored offset, was never applied and is in no dead-letter queue. */
  lemma {:induction false} FailedHandoffLosesMessage<S, R>(sink: Sink<S, int, R>, s0: S, reply: R)
    ensures exists inputs: seq<Input<int, R>> ::
              var st := Exec(sink, Config(5, 100, 3000), Init(s0), inputs);
              |st.log| == st.committed == 1 && st.sink == s0 && !Saved(st.trail, 0)
  {
    var env := Env(true, true, reply, true, false, true);
    var config := Config(5, 100, 3000);
    var start: seq<Input<int, R>> := [Append(Undecodable(true)), Start(true)];
    var four := [Go(env), Go(env), Go(env), Go(env)];
    ExecSnoc(sink, config, Init(s0), [], start[0]);
    ExecSnoc(sink, config, Init(s0), [start[0]], start[1]);
    assert [] + [start[0]] == [start[0]] && [start[0]] + [start[1]] == start;
    var st: State<S, int> := Exec(sink, config, Init(s0), start);
    assert st.log == [Undecodable(true)] && st.trail == [] && st.pc == LoopTest && st.producer;
    FourSteps(sink, config, st, [env, env, env, env]);
    ExecConcat(sink, config, Init(s0), start, four);
    TakeUp(sink, config, st, env, env);
    HandOver(sink, config, Advance(sink, config, Advance(sink, config, st, env), env), env, env);
    assert Exec(sink, config, st, four).trail
        == [Delivered(0, false), Routed(0, true, Refused), Finished(0, HandoffFailed)];
  }

  // ---- hand-offs of what was not decoded --------------------------------------

  /** What the history may say at i: attempts are made on records; raw bytes are
      handed off right after an encounter that did not decode them, which for a
      record must be one in the framed format, and only if they can be dumped or
      nobody dumps them. */
  predicate Honest<A>(log: seq<Message<A>>, trail: seq<Mark>, i: nat)
    requires i < |trail|
  {
    var mark := trail[i];
    && (mark.Tried? ==> mark.offset < |log| && log[mark.offset].Record?)
    && (mark.Routed? ==>
          && mark.offset < |log|
          && (!mark.raw ==> log[mark.offset].Record?)
          && (mark.raw ==>
                && 0 < i && trail[i - 1] == Delivered(mark.offset, false)
                && (log[mark.offset].Record? ==> log[mark.offset].framed)
                && (log[mark.offset].utf8 || mark.handoff.Unavailable?)))
  }

  predicate RawInHand<S, A>(st: State<S, A>)
  {
    st.pc == Routing(true) ==>
      && st.trail != [] && st.trail[|st.trail| - 1] == Delivered(st.pos, false)
      && st.pos < |st.log| && (st.log[st.pos].Record? ==> st.log[st.pos].framed)
  }

  predicate Truthful<S, A>(st: State<S, A>)
  {
    RawInHand(st) && forall i :: 0 <= i < |st.trail| ==> Honest(st.log, st.trail, i)
  }

  lemma AdvanceTakesInHand<S, A, R>(sink: Sink<S, A, R>, config: Config, st: State<S, A>, env: Env<R>)
    requires RawInHand(st)
    ensures RawInHand(Advance(sink, config, st, env))
  {
  }

  lemma AdvanceIsHonest<S, A, R>(sink: Sink<S, A, R>, config: Config, st: State<S, A>, env: Env<R>)
    requires Sound(st) && RawInHand(st)
    ensures var next := Advance(sink, config, st, env);
            && next.log == st.log
            && (next.trail == st.trail
                || (|next.trail| == |st.trail| + 1 && next.trail[..|st.trail|] == st.trail
                    && Honest(st.log, next.trail, |st.trail|)))
  {
  }

  lemma StepStaysTruthful<S, A, R>(sink: Sink<S, A, R>, config: Config, st: State<S, A>, input: Input<A, R>)
    requires Sound(st) && Truthful(st)
    ensures Truthful(Step(sink, config, st, input))
  {
    var next := Step(sink, config, st, input);
    if input.Go? {
      AdvanceIsHonest(sink, config, st, input.env);
      AdvanceTakesInHand(sink, config, st, input.env);
    }
    forall i | 0 <= i < |next.trail|
      ensures Honest(next.log, next.trail, i)
    {
      if i < |st.trail| {
        assert next.trail[i] == st.trail[i] && (0 < i ==> next.trail[i - 1] == st.trail[i - 1]);
        assert Honest(st.log, st.trail, i);
      }
    }
  }

  /** Over every run: a message is handed off raw only right after an encounter
      that did not decode it, untried; and raw bytes that are not UTF-8 are never
      taken by the dead-letter queue. */
  lemma {:induction false} RawHandoffs<S, A, R>(
      sink: Sink<S, A, R>, config: Config, s0: S, inputs: seq<Input<A, R>>)
    ensures var st := Exec(sink, config, Init(s0), inputs);
            forall i :: 0 < i < |st.trail| && st.trail[i].Routed? && st.trail[i].raw ==>
              && st.trail[i - 1] == Delivered(st.trail[i].offset, false)
              && st.trail[i].offset < |st.log|
              && (st.log[st.trail[i].offset].Record? ==> st.log[st.trail[i].offset].framed)
              && (st.log[st.trail[i].offset].utf8 || st.trail[i].handoff.Unavailable?)
    ensures Truthful(Exec(sink, config, Init(s0), inputs))
  {
    var st := Exec(sink, config, Init(s0), inputs);
    if inputs != [] {
      var n := |inputs| - 1;
      RawHandoffs(sink, config, s0, inputs[..n]);
      RunKeepsSound(sink, config, Init(s0), inputs[..n]);
      StepStaysTruthful(sink, config, Exec(sink, config, Init(s0), inputs[..n]), inputs[n]);
    }
    forall i | 0 < i < |st.trail| && st.trail[i].Routed? && st.trail[i].raw
      ensures Honest(st.log, st.trail, i)
    {
    }
  }

  lemma PoisonInTrail<S, A>(st: State<S, A>, o: nat)
    requires Sound(st) && Truthful(st) && o < |st.log| && st.log[o] == Undecodable(false)
    ensures !Saved(st.trail, o)
    ensures o < st.pos ==> Routed(o, true, Unavailable) in st.trail
  {
    forall i | 0 <= i < |st.trail|
      ensures st.trail[i] != Tried(o, false) && st.trail[i] != Routed(o, true, Handed)
      ensures st.trail[i] != Routed(o, false, Handed)
    {
      assert Honest(st.log, st.trail, i);
    }
    if o < st.pos {
      assert Accounted(st.trail, o);
      var i :| 0 <= i < |st.trail| && st.trail[i].Finished? && st.trail[i].offset == o;
      assert Justified(st.log, st.trail, i);
      assert Honest(st.log, st.trail, i - 1);
      assert st.trail[i - 1] in st.trail;
    }
  }

  /** Over every run: a payload that is rejected at every encounter and whose bytes
      are not UTF-8 is never taken by the dead-letter queue or a sink, and only a
      consumer without a producer ever gets past it, losing it. */
  lemma {:induction false} PoisonNeverSaved<S, A, R>(
      sink: Sink<S, A, R>, config: Config, s0: S, inputs: seq<Input<A, R>>, o: nat)
    requires var st := Exec(sink, config, Init(s0), inputs); o < |st.log| && st.log[o] == Undecodable(false)
    ensures var st := Exec(sink, config, Init(s0), inputs);
            && !Saved(st.trail, o)
            && (o < st.pos ==> Routed(o, true, Unavailable) in st.trail && !Producing(inputs))
  {
    RawHandoffs(sink, config, s0, inputs);
    RunKeepsSound(sink, config, Init(s0), inputs);
    PoisonInTrail(Exec(sink, config, Init(s0), inputs), o);
    if Producing(inputs) {
      BlockedForGood(sink, config, s0, inputs);
      NeverDecoded(sink, config, s0, inputs, o);
    }
  }

  lemma {:induction false} NeverDecoded<S, A, R>(
      sink: Sink<S, A, R>, config: Config, s0: S, inputs: seq<Input<A, R>>, o: nat)
    requires var st := Exec(sink, config, Init(s0), inputs); o < |st.log| ==> st.log[o].Undecodable?
    ensures Delivered(o, true) !in Exec(sink, config, Init(s0), inputs).trail
  {
    if inputs != [] {
      var n := |inputs| - 1;
      var st := Exec(sink, config, Init(s0), inputs[..n]);
      RunKeepsSound(sink, config, Init(s0), inputs[..n]);
      StepKeepsSound(sink, config, st, inputs[n]);
      assert o < |st.log| ==> Step(sink, config, st, inputs[n]).log[o] == st.log[o];
      NeverDecoded(sink, config, s0, inputs[..n], o);
      StepNeverDecodes(sink, config, st, inputs[n], o);
    }
  }

  lemma StepNeverDecodes<S, A, R>(sink: Sink<S, A, R>, config: Config, st: State<S, A>, input: Input<A, R>, o: nat)
    requires Delivered(o, true) !in st.trail && (o < |st.log| ==> st.log[o].Undecodable?)
    ensures Delivered(o, true) !in Step(sink, config, st, input).trail
  {
  }

  // ---- one encounter, exactly -------------------------------------------------

  /** The sink passes over a null document. */
  ghost predicate SkipsNull<S(!new), A, R(!new)>(sink: Sink<S, A, R>, meaning: Json -> A)
  {
    forall s, reply, now :: !sink.process(s, meaning(Null), reply, now).threw
  }

  /** All three sinks do. */
  lemma SinksSkipNull(key: string)
    ensures SkipsNull(REDIS_SINK, j => ChangeOf(j, key))
    ensures SkipsNull(ES_SINK, j => ChangeOf(j, key))
    ensures SkipsNull(NOTIFY_SINK, j => NoticeOf(j, key))
  {
    assert ChangeOf(Null, key) == Ignored;
  }

  lemma TryIt<S, A, R>(sink: Sink<S, A, R>, config: Config, st: State<S, A>, testing: Env<R>, trying: Env<R>)
    requires st.pc == AttemptTest(1, config.initialBackoff) && st.running && 1 <= config.maxRetries
    requires st.pos < |st.log| && st.log[st.pos].Record?
    ensures var last := Advance(sink, config, Advance(sink, config, st, testing), trying);
            var threw := sink.process(st.sink, st.log[st.pos].action, trying.reply, st.now).threw;
            last.trail == st.trail + [Tried(st.pos, threw)] && !last.pc.Down?
  {
  }

  lemma Appended(trail: seq<Mark>, marks: seq<Mark>)
    ensures (trail + marks)[|trail|..] == marks && trail <= trail + marks
  {
  }

  /** The marks that an encounter with the message at p leaves. */
  function MarksLeft(p: nat, decoded: bool, threw: bool, utf8: bool, producer: bool): seq<Mark>
  {
    if decoded then [Delivered(p, true), Tried(p, threw)]
    else if producer && !utf8 then [Delivered(p, false)]
    else [Delivered(p, false), Routed(p, true, if producer then Handed else Unavailable),
          Finished(p, if producer then DeadLettered else HandoffFailed)]
  }

  lemma MarksSay(p: nat, decoded: bool, threw: bool, utf8: bool, producer: bool)
    ensures var marks := MarksLeft(p, decoded, threw, utf8, producer);
            && (Routed(p, true, Handed) in marks <==> !decoded && utf8 && producer)
            && (Routed(p, true, Unavailable) in marks <==> !decoded && !producer)
            && (Tried(p, false) in marks || Tried(p, true) in marks <==> decoded)
            && (Tried(p, false) in marks <==> decoded && !threw)
  {
  }

  /** The four steps of an undisturbed consumer that meets a payload. */
  lemma Course<S, A, R>(
      codec: Codec, payload: Bytes, meaning: Json -> A,
      sink: Sink<S, A, R>, config: Config, st: State<S, A>, envs: seq<Env<R>>)
    returns (threw: bool)
    requires 1 <= config.maxRetries
    requires st.pc == LoopTest && st.running
    requires st.pos < |st.log| && st.log[st.pos] == MessageOf(codec, payload, meaning)
    requires |envs| == 4 && envs[1].delivers && envs[2].accepted && envs[3].stored
    ensures var document := Deserialized(codec, payload, envs[1].schema);
            document.Some? ==> threw == sink.process(st.sink, meaning(document.value), envs[3].reply, st.now).threw
    ensures var last := Exec(sink, config, st, [Go(envs[0]), Go(envs[1]), Go(envs[2]), Go(envs[3])]);
            var decoded := Deserialized(codec, payload, envs[1].schema).Some?;
            && last.trail == st.trail + MarksLeft(st.pos, decoded, threw, Utf8(payload), st.producer)
            && (last.pc == Down <==> !decoded && st.producer && !Utf8(payload))
            && (last.pc == Down ==> last.pos == st.pos && last.committed == st.committed)
            && (!decoded && last.pc != Down ==> last.committed == last.pos == st.pos + 1)
  {
    var document := Deserialized(codec, payload, envs[1].schema);
    threw := document.Some? && sink.process(st.sink, meaning(document.value), envs[3].reply, st.now).threw;
    EncounterDecodes(codec, payload, meaning, envs[1].schema);
    FourSteps(sink, config, st, envs);
    TakeUp(sink, config, st, envs[0], envs[1]);
    var two := Advance(sink, config, Advance(sink, config, st, envs[0]), envs[1]);
    if Decodes(st.log[st.pos], envs[1].schema) {
      TryIt(sink, config, two, envs[2], envs[3]);
    } else {
      HandOver(sink, config, two, envs[2], envs[3]);
    }
  }

  /** The repository promises that unparseable payloads go to the dead-letter queue
      and do not block the partition, and that a consumer crashes when schemas
      cannot be fetched. For any payload, met by an undisturbed consumer whose
      dead-letter queue takes all it is given, exactly one of four things happens,
      according to what Deserialize gives at this encounter:
        it is handed off untried, iff it is rejected and there is a producer and its
        bytes are UTF-8: an outage of the registry sends readable records there;
        it is committed without having been saved, iff it is rejected and there is
        no producer;
        the thread dies with the message still to come, iff it is rejected, its
        bytes are not UTF-8 and there is a producer;
        else it is tried, and if its text did not parse it passes as a success. */
  lemma {:induction false} Encounter<S(!new), A, R(!new)>(
      codec: Codec, payload: Bytes, meaning: Json -> A,
      sink: Sink<S, A, R>, config: Config, st: State<S, A>, envs: seq<Env<R>>)
    requires SkipsNull(sink, meaning) && 1 <= config.maxRetries
    requires st.pc == LoopTest && st.running
    requires st.pos < |st.log| && st.log[st.pos] == MessageOf(codec, payload, meaning)
    requires |envs| == 4 && envs[1].delivers && envs[2].accepted && envs[3].stored
    ensures var last := Exec(sink, config, st, [Go(envs[0]), Go(envs[1]), Go(envs[2]), Go(envs[3])]);
            var rejected := Deserialized(codec, payload, envs[1].schema).None?;
            && st.trail <= last.trail
            && (Routed(st.pos, true, Handed) in last.trail[|st.trail|..] <==>
                  rejected && Utf8(payload) && st.producer)
            && (Routed(st.pos, true, Unavailable) in last.trail[|st.trail|..] <==> rejected && !st.producer)
            && (last.pc == Down <==> rejected && !Utf8(payload) && st.producer)
            && (!rejected <==> Tried(st.pos, false) in last.trail[|st.trail|..]
                               || Tried(st.pos, true) in last.trail[|st.trail|..])
            && (!rejected && !Readable(codec, payload) ==> Tried(st.pos, false) in last.trail[|st.trail|..])
            && (last.pc == Down ==> last.pos == st.pos && last.committed == st.committed)
            && (rejected && last.pc != Down ==> last.committed == last.pos == st.pos + 1)
  {
    var threw := Course(codec, payload, meaning, sink, config, st, envs);
    var decoded := Deserialized(codec, payload, envs[1].schema).Some?;
    Appended(st.trail, MarksLeft(st.pos, decoded, threw, Utf8(payload), st.producer));
    MarksSay(st.pos, decoded, threw, Utf8(payload), st.producer);
  }
}
