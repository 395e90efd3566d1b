/** Offset safety and message conservation, for every sink and every run. */
module Offsets {
  import opened Options
  import opened Protocol

  predicate InHand(pc: Pc)
  {
    !(pc.LoopTest? || pc.Polling? || pc.Closed? || pc.Down?)
  }

  predicate Trying(pc: Pc)
  {
    pc.AttemptTest? || pc.Attempting? || pc.Caught? || pc.Sleeping? || pc.GaveUp?
  }

  /** The mark that must come right before a message is finished. */
  predicate Evidence(mark: Mark, offset: nat, fate: Fate)
  {
    match fate
    case Succeeded => mark == Tried(offset, false)
    case DeadLettered => mark.Routed? && mark.offset == offset && mark.handoff.Handed?
    case HandoffFailed => mark.Routed? && mark.offset == offset && (mark.handoff.Refused? || mark.handoff.Unavailable?)
  }

  predicate Accounted(trail: seq<Mark>, offset: nat)
  {
    exists i :: 0 <= i < |trail| && trail[i].Finished? && trail[i].offset == offset
  }

  predicate Justified<A>(log: seq<Message<A>>, trail: seq<Mark>, i: int)
    requires 0 <= i < |trail|
  {
    trail[i].Finished? ==>
      && 0 < i && Evidence(trail[i - 1], trail[i].offset, trail[i].fate)
      && trail[i].offset < |log|
      && (log[trail[i].offset].Undecodable? ==> !trail[i].fate.Succeeded?)
  }

  /** The history part of Sound. */
  predicate Kept<A>(log: seq<Message<A>>, trail: seq<Mark>, pos: nat)
  {
    && (forall o :: 0 <= o < pos ==> Accounted(trail, o))
    && (forall i :: 0 <= i < |trail| ==> Justified(log, trail, i))
  }

  /** Where the thread may be, and with what in hand. */
  predicate Placed<S, A>(st: State<S, A>)
  {
    && st.committed <= st.pos <= st.high <= |st.log|
    && (InHand(st.pc) ==> st.pos < st.high)
    && (Trying(st.pc) || st.pc == Routing(false) ==> st.log[st.pos].Record?)
  }

  /** A message about to be committed has its evidence. */
  predicate Evident<S, A>(st: State<S, A>)
  {
    st.pc.Committing? ==>
      && st.trail != [] && Evidence(st.trail[|st.trail| - 1], st.pos, st.pc.fate)
      && (st.pos < |st.log| && st.log[st.pos].Undecodable? ==> !st.pc.fate.Succeeded?)
  }

  /** The protocol's invariant. */
  predicate Sound<S, A>(st: State<S, A>)
  {
    Placed(st) && Evident(st) && Kept(st.log, st.trail, st.pos)
  }

  /** The mark the thread leaves by its next step, if any. */
  lemma AdvanceMark<S, A, R>(sink: Sink<S, A, R>, config: Config, st: State<S, A>, env: Env<R>)
    returns (mark: Option<Mark>)
    ensures Advance(sink, config, st, env).trail == if mark.Some? then st.trail + [mark.value] else st.trail
    ensures mark.Some? ==>
              match st.pc
              case Polling => mark.value.Delivered? && mark.value.offset == st.pos
              case Attempting(_, _) => mark.value.Tried?
              case Sleeping(a, b) => mark.value == Slept(a, b)
              case Routing(raw) => mark.value.Routed? && mark.value.offset == st.pos && mark.value.raw == raw
              case Committing(fate) => mark.value == Finished(st.pos, fate)
              case _ => false
  {
    var next := Advance(sink, config, st, env);
    mark := if next.trail == st.trail then None else Some(next.trail[|st.trail|]);
  }

  lemma KeptGrows<A>(log: seq<Message<A>>, trail: seq<Mark>, mark: Mark, pos: nat)
    requires Kept(log, trail, pos)
    requires mark.Finished? ==>
               && trail != [] && Evidence(trail[|trail| - 1], mark.offset, mark.fate)
               && mark.offset == pos < |log| && (log[pos].Undecodable? ==> !mark.fate.Succeeded?)
    ensures Kept(log, trail + [mark], if mark.Finished? then pos + 1 else pos)
  {
    var grown := trail + [mark];
    forall i | 0 <= i < |grown|
      ensures Justified(log, grown, i)
    {
      if i < |trail| {
        assert Justified(log, trail, i);
      }
    }
    forall o | 0 <= o < if mark.Finished? then pos + 1 else pos
      ensures Accounted(grown, o)
    {
      if o < pos {
        assert Accounted(trail, o);
        var i :| 0 <= i < |trail| && trail[i].Finished? && trail[i].offset == o;
        assert grown[i] == trail[i];
      } else {
        assert grown[|trail|] == mark;
      }
    }
  }

  lemma AdvanceKeepsPlaced<S, A, R>(sink: Sink<S, A, R>, config: Config, st: State<S, A>, env: Env<R>)
    requires Placed(st)
    ensures Placed(Advance(sink, config, st, env))
  {
  }

  lemma AdvanceKeepsEvident<S, A, R>(sink: Sink<S, A, R>, config: Config, st: State<S, A>, env: Env<R>)
    ensures Evident(st) ==> Evident(Advance(sink, config, st, env))
  {
  }

  lemma AdvanceKeepsSound<S, A, R>(sink: Sink<S, A, R>, config: Config, st: State<S, A>, env: Env<R>)
    requires Sound(st)
    ensures Sound(Advance(sink, config, st, env))
  {
    AdvanceKeepsPlaced(sink, config, st, env);
    AdvanceKeepsEvident(sink, config, st, env);
    var mark := AdvanceMark(sink, config, st, env);
    assert Kept(st.log, st.trail, st.pos);
    if mark.Some? {
      KeptGrows(st.log, st.trail, mark.value, st.pos);
    }
    assert Kept(st.log, Advance(sink, config, st, env).trail, Advance(sink, config, st, env).pos);
  }

  lemma StepKeepsSound<S, A, R>(sink: Sink<S, A, R>, config: Config, st: State<S, A>, input: Input<A, R>)
    requires Sound(st)
    ensures Sound(Step(sink, config, st, input))
    ensures st.committed <= Step(sink, config, st, input).committed
    ensures st.high <= Step(sink, config, st, input).high
    ensures st.log <= Step(sink, config, st, input).log
    ensures st.trail <= Step(sink, config, st, input).trail
    ensures st.now <= Step(sink, config, st, input).now
  {
    match input
    case Go(env) =>
      AdvanceKeepsSound(sink, config, st, env);
      var mark := AdvanceMark(sink, config, st, env);
    case Append(message) => AppendKeepsSound(st, message);
    case _ =>
  }

  lemma AppendKeepsSound<S, A>(st: State<S, A>, message: Message<A>)
    requires Sound(st)
    ensures Sound(st.(log := st.log + [message]))
  {
    forall i | 0 <= i < |st.trail|
      ensures Justified(st.log + [message], st.trail, i)
    {
      assert Justified(st.log, st.trail, i);
    }
  }

  /** Every reachable state is Sound, and across any further inputs, crashes and
      restarts included, the stored offset, the log and the history only grow. */
  lemma {:induction false} RunKeepsSound<S, A, R>(
      sink: Sink<S, A, R>, config: Config, st: State<S, A>, inputs: seq<Input<A, R>>)
    requires Sound(st)
    ensures Sound(Exec(sink, config, st, inputs))
    ensures st.committed <= Exec(sink, config, st, inputs).committed
    ensures st.high <= Exec(sink, config, st, inputs).high
    ensures st.log <= Exec(sink, config, st, inputs).log
    ensures st.trail <= Exec(sink, config, st, inputs).trail
    ensures st.now <= Exec(sink, config, st, inputs).now
  {
    if inputs != [] {
      var n := |inputs| - 1;
      RunKeepsSound(sink, config, st, inputs[..n]);
      StepKeepsSound(sink, config, Exec(sink, config, st, inputs[..n]), inputs[n]);
    }
  }

  /** Conservation: in every run, every message below the stored offset was
      finished, and what finished it stands right before in the history: an
      attempt that did not throw, a dead letter handed over, or a hand-off that
      failed. A payload that cannot be decoded never counts as a success. */
  lemma Conservation<S, A, R>(sink: Sink<S, A, R>, config: Config, s0: S, inputs: seq<Input<A, R>>, offset: nat)
    requires offset < Exec(sink, config, Init(s0), inputs).committed
    ensures var st := Exec(sink, config, Init(s0), inputs);
            && offset < st.committed <= st.pos <= |st.log|
            && exists i ::
                 && 0 < i < |st.trail| && st.trail[i].Finished? && st.trail[i].offset == offset
                 && (|| (st.trail[i - 1] == Tried(offset, false) && st.log[offset].Record?)
                     || (&& st.trail[i - 1].Routed? && st.trail[i - 1].offset == offset
                         && !st.trail[i - 1].handoff.Thrown?))
  {
    RunKeepsSound(sink, config, Init(s0), inputs);
    var st := Exec(sink, config, Init(s0), inputs);
    assert Accounted(st.trail, offset);
    var i :| 0 <= i < |st.trail| && st.trail[i].Finished? && st.trail[i].offset == offset;
    assert Justified(st.log, st.trail, i);
  }

  // ---- interruption by Stop -----------------------------------------------

  predicate NoRestart<A, R>(inputs: seq<Input<A, R>>)
  {
    forall i :: 0 <= i < |inputs| ==> !inputs[i].Start?
  }

  /** The message in hand has not succeeded and Stop has been seen: it will be
      dropped from hand, neither routed nor committed. */
  predicate Interrupted<S, A>(st: State<S, A>)
  {
    !st.running && (Trying(st.pc) && !st.pc.Attempting?)
  }

  /** A message that Stop interrupts before success stays above the stored
      offset: however the run goes on, it is redelivered after a restart. */
  lemma {:induction false} InterruptedIsKept<S, A, R>(
      sink: Sink<S, A, R>, config: Config, st: State<S, A>, inputs: seq<Input<A, R>>)
    requires Sound(st) && Interrupted(st) && NoRestart(inputs)
    ensures var last := Exec(sink, config, st, inputs);
            && last.committed == st.committed <= st.pos == last.pos
            && !last.running && last.sink == st.sink
            && (Interrupted(last) || last.pc.LoopTest? || last.pc.Closed? || last.pc.Down?)
            && (last.pc.Closed? || last.pc.Down? ==>
                  forall producer :: Step(sink, config, last, Start(producer)).pos <= st.pos)
  {
    if inputs != [] {
      InterruptedIsKept(sink, config, st, inputs[..|inputs| - 1]);
    }
  }
}
