/** The log read as the history of each order's row. */
module History {
  import opened Json
  import opened Options
  import opened LuaNumber
  import opened Records
  import opened RedisStore
  import opened Protocol
  import opened Offsets
  import opened SinkSpecs

  type Log = seq<Message<Change>>

  /** What a message does to an order, if it is about it. */
  function EventOf(message: Message<Change>, id: string): Option<Slot>
  {
    if message.Record? && !message.action.Ignored? && message.action.id == id
    then Some(EventIn(message.action))
    else None
  }

  /** The order after the first m messages: its last event. This is the fold of
      the log that both stores are compared with. */
  function Version(log: Log, id: string, m: nat): Option<Slot>
    requires m <= |log|
  {
    if m == 0 then None
    else if EventOf(log[m - 1], id).Some? then EventOf(log[m - 1], id)
    else Version(log, id, m - 1)
  }

  function RowOf(version: Option<Slot>): Option<Json>
  {
    if version.Some? then version.value.doc else None
  }

  /** No other order in the log shares a Redis key with this one. */
  predicate Isolated(log: Log, id: string)
  {
    forall i :: 0 <= i < |log| && log[i].Record? && !log[i].action.Ignored? ==>
      log[i].action.id == id || Apart(log[i].action.id, id)
  }

  /** Later events of the order look newer to Lua. */
  predicate Rising(log: Log, id: string)
  {
    forall i, j :: 0 <= i < j < |log| && EventOf(log[i], id).Some? && EventOf(log[j], id).Some? ==>
      Round(EventOf(log[i], id).value.lsn) < Round(EventOf(log[j], id).value.lsn)
  }

  /** No event of the order looks newer to Lua than the last one, and those that
      look as new are repeats of it. */
  predicate LastIsNewest(log: Log, id: string)
  {
    var last := Version(log, id, |log|);
    last.Some? ==>
      forall o :: 0 <= o < |log| && EventOf(log[o], id).Some? ==>
        || EventOf(log[o], id) == last
        || Round(EventOf(log[o], id).value.lsn) < Round(last.value.lsn)
  }

  lemma RisingEndsNewest(log: Log, id: string)
    requires Rising(log, id)
    ensures LastIsNewest(log, id)
  {
    if Version(log, id, |log|).Some? {
      var e := LastEvent(log, id, |log|);
    }
  }

  lemma {:induction false} LastEvent(log: Log, id: string, m: nat) returns (e: nat)
    requires m <= |log| && Version(log, id, m).Some?
    ensures e < m && EventOf(log[e], id) == Version(log, id, m)
    ensures forall o :: e < o < m ==> EventOf(log[o], id).None?
  {
    e := m - 1;
    if EventOf(log[m - 1], id).None? {
      e := LastEvent(log, id, m - 1);
    }
  }

  lemma {:induction false} VersionOfPrefix(log: Log, longer: Log, id: string, m: nat)
    requires m <= |log| && log <= longer
    ensures Version(longer, id, m) == Version(log, id, m)
  {
    if m != 0 {
      assert longer[m - 1] == log[m - 1];
      VersionOfPrefix(log, longer, id, m - 1);
    }
  }

  /** Once the position has passed every event of the order, only one version is
      left to hold. */
  lemma {:induction false} VersionSettled(log: Log, id: string, p: nat, m: nat)
    requires p <= m <= |log|
    requires forall o :: p <= o < m ==> EventOf(log[o], id).None?
    ensures Version(log, id, m) == Version(log, id, p)
  {
    if p < m {
      VersionSettled(log, id, p, m - 1);
    }
  }

  lemma {:induction false} VersionFrom(log: Log, id: string, e: nat, m: nat)
    requires e < m <= |log| && EventOf(log[e], id).Some?
    ensures Version(log, id, m).Some?
    ensures (forall o :: e < o < m ==> EventOf(log[o], id).None?) ==> Version(log, id, m) == EventOf(log[e], id)
  {
    if e + 1 < m {
      VersionFrom(log, id, e, m - 1);
    }
  }

  // ---- runs -------------------------------------------------------------

  /** No event of this order was finished any other way than by success. */
  predicate Clean<S>(st: State<S, Change>, id: string)
  {
    forall i :: 0 <= i < |st.trail| && st.trail[i].Finished? && st.trail[i].offset < |st.log| ==>
      EventOf(st.log[st.trail[i].offset], id).Some? ==> st.trail[i].fate.Succeeded?
  }

  /** How the loop was last done with an offset. */
  function LastFate(trail: seq<Mark>, o: nat): Option<Fate>
  {
    if trail == [] then None
    else
      var n := |trail| - 1;
      if trail[n].Finished? && trail[n].offset == o then Some(trail[n].fate) else LastFate(trail[..n], o)
  }

  /** The message at o lies below the position and was last passed by a success, or
      it is the one in hand and its attempt has just succeeded. */
  predicate Stored<S, A>(st: State<S, A>, o: nat)
  {
    || (o < st.pos && LastFate(st.trail, o) == Some(Succeeded))
    || (st.pc == Committing(Succeeded) && o == st.pos)
  }

  lemma LastFateSnoc(trail: seq<Mark>, mark: Mark, o: nat)
    ensures LastFate(trail + [mark], o)
         == if mark.Finished? && mark.offset == o then Some(mark.fate) else LastFate(trail, o)
  {
    assert (trail + [mark])[..|trail|] == trail;
  }

  lemma {:induction false} LastFateMark(trail: seq<Mark>, o: nat) returns (i: nat)
    requires exists k :: 0 <= k < |trail| && trail[k].Finished? && trail[k].offset == o
    ensures i < |trail| && LastFate(trail, o).Some? && trail[i] == Finished(o, LastFate(trail, o).value)
  {
    i := |trail| - 1;
    if !(trail[i].Finished? && trail[i].offset == o) {
      var k :| 0 <= k < |trail| && trail[k].Finished? && trail[k].offset == o;
      assert trail[..i][k] == trail[k];
      i := LastFateMark(trail[..i], o);
    }
  }

  /** A step of the thread makes a message stored only by succeeding with it. */
  lemma AdvanceStored<S, A, R>(sink: Sink<S, A, R>, config: Config, st: State<S, A>, env: Env<R>, o: nat)
    requires Stored(Advance(sink, config, st, env), o)
    ensures || Stored(st, o)
            || (st.pc.Attempting? && o == st.pos && Advance(sink, config, st, env).pc == Committing(Succeeded))
  {
    var mark := AdvanceMark(sink, config, st, env);
    if mark.Some? {
      LastFateSnoc(st.trail, mark.value, o);
    }
  }

  /** Every step but an attempt leaves the sink alone and stores nothing new. */
  lemma IdleStep<S, A, R>(sink: Sink<S, A, R>, config: Config, st: State<S, A>, input: Input<A, R>)
    requires Sound(st) && !(input.Go? && st.pc.Attempting?)
    ensures var next := Step(sink, config, st, input);
            && next.sink == st.sink && st.log <= next.log && st.high <= next.high && st.now <= next.now
            && forall o: nat :: Stored(next, o) ==> Stored(st, o)
  {
    var next := Step(sink, config, st, input);
    StepKeepsSound(sink, config, st, input);
    forall o: nat | Stored(next, o)
      ensures Stored(st, o)
    {
      if input.Go? { AdvanceStored(sink, config, st, input.env, o); }
    }
  }

  /** In a clean run every event of the order below the position is stored. */
  lemma CleanStored<S>(st: State<S, Change>, id: string, o: nat)
    requires Sound(st) && Clean(st, id) && o < st.pos && EventOf(st.log[o], id).Some?
    ensures Stored(st, o)
  {
    assert Accounted(st.trail, o);
    var i := LastFateMark(st.trail, o);
  }

  /** Messages the sink has certainly seen. */
  function Floor<S, A>(st: State<S, A>): nat
  {
    if st.pc == Committing(Succeeded) then st.pos + 1 else st.pos
  }

  /** All events of the order lie below the position. */
  predicate Consumed<S>(st: State<S, Change>, id: string)
  {
    forall o :: st.pos <= o < |st.log| ==> EventOf(st.log[o], id).None?
  }

  lemma LogBefore(log: Log, longer: Log, id: string)
    requires log <= longer
    ensures Isolated(longer, id) ==> Isolated(log, id)
    ensures Rising(longer, id) ==> Rising(log, id)
  {
    assert forall i :: 0 <= i < |log| ==> log[i] == longer[i];
  }
}
