/** The unguarded Elasticsearch index over whole runs, and its agreement with the
    guarded cache. */
module EsRuns {
  import opened Json
  import opened Options
  import opened Records
  import opened Protocol
  import opened Offsets
  import opened SinkSpecs
  import opened History

  type Indexer = State<Index, Change>

  function DocIn(ix: Index, id: string): Option<Json>
  {
    if id in ix then Some(ix[id]) else None
  }

  // ---- replaying a suffix ----------------------------------------------------

  function Apply(ix: Index, message: Message<Change>): Index
  {
    if message.Record? then Indexed(ix, message.action) else ix
  }

  /** Indexing log[c..p) in order on top of ix. */
  function Replay(ix: Index, log: Log, c: nat, p: nat): Index
    requires c <= p <= |log|
  {
    if c == p then ix else Apply(Replay(ix, log, c, p - 1), log[p - 1])
  }

  predicate Touched(log: Log, id: string, c: nat, p: nat)
    requires c <= p <= |log|
  {
    exists o :: c <= o < p && EventOf(log[o], id).Some?
  }

  lemma {:induction false} ReplayRow(ix: Index, log: Log, id: string, c: nat, p: nat)
    requires c <= p <= |log|
    ensures DocIn(Replay(ix, log, c, p), id)
         == if Touched(log, id, c, p) then RowOf(Version(log, id, p)) else DocIn(ix, id)
  {
    if c < p {
      ReplayRow(ix, log, id, c, p - 1);
      if EventOf(log[p - 1], id).Some? {
        assert Touched(log, id, c, p);
      } else {
        assert Touched(log, id, c, p) == Touched(log, id, c, p - 1);
      }
    }
  }

  lemma ReplayFromStart(log: Log, id: string, h: nat)
    requires h <= |log|
    ensures DocIn(Replay(map[], log, 0, h), id) == RowOf(Version(log, id, h))
  {
    ReplayRow(map[], log, id, 0, h);
    if !Touched(log, id, 0, h) {
      VersionSettled(log, id, 0, h);
    }
  }

  /** Crash and replay: on top of the index of log[0..h), replaying log[c..p)
      leaves each order as of p if it occurs in what was replayed, and as of h
      otherwise. */
  lemma {:induction false} MidReplay(log: Log, id: string, c: nat, p: nat, h: nat)
    requires c <= p <= h <= |log|
    ensures DocIn(Replay(Replay(map[], log, 0, h), log, c, p), id)
         == RowOf(Version(log, id, if Touched(log, id, c, p) then p else h))
  {
    ReplayFromStart(log, id, h);
    ReplayRow(Replay(map[], log, 0, h), log, id, c, p);
  }

  /** Replaying any suffix up to the same point gives back the same index, even
      though nothing guards it. */
  lemma {:induction false} SuffixReplay(log: Log, c: nat, h: nat)
    requires c <= h <= |log|
    ensures Replay(Replay(map[], log, 0, h), log, c, h) == Replay(map[], log, 0, h)
  {
    var once := Replay(map[], log, 0, h);
    var twice := Replay(once, log, c, h);
    forall id: string
      ensures DocIn(twice, id) == DocIn(once, id)
    {
      MidReplay(log, id, c, h, h);
      ReplayFromStart(log, id, h);
    }
    SameDocs(twice, once);
  }

  lemma SameDocs(a: Index, b: Index)
    requires forall id: string :: DocIn(a, id) == DocIn(b, id)
    ensures a == b
  {
    forall id: string
      ensures id in a <==> id in b
      ensures id in a ==> a[id] == b[id]
    {
      assert DocIn(a, id) == DocIn(b, id);
    }
  }

  // ---- whole runs ------------------------------------------------------------

  /** The index holds the order's row as of m, and m comes after every stored event
      of the order. */
  predicate RowAsOf(st: Indexer, id: string, m: nat)
  {
    && m <= st.high && m <= |st.log| && RowOf(Version(st.log, id, m)) == DocIn(st.sink, id)
    && forall o :: 0 <= o < |st.log| && Stored(st, o) && EventOf(st.log[o], id).Some? ==> o < m
  }

  predicate Follows(st: Indexer, id: string)
  {
    exists m: nat :: m <= st.high && RowAsOf(st, id, m)
  }

  lemma AttemptTracks(config: Config, st: Indexer, env: Env<HttpReply>, id: string)
    requires Sound(st) && Follows(st, id) && st.pc.Attempting?
    ensures Follows(Advance(ES_SINK, config, st, env), id)
  {
    var next := Advance(ES_SINK, config, st, env);
    var p := st.pos;
    var after := EsProcess(st.sink, st.log[p].action, env.reply, st.now);
    assert next.sink == after.sink && (next.pc == Committing(Succeeded) <==> !after.threw);
    forall o: nat | Stored(next, o)
      ensures Stored(st, o) || (o == p && !after.threw)
    {
      AdvanceStored(ES_SINK, config, st, env, o);
    }
    var m: nat :| m <= st.high && RowAsOf(st, id, m);
    if EventOf(st.log[p], id).None? {
      assert DocIn(after.sink, id) == DocIn(st.sink, id);
      assert RowAsOf(next, id, m);
    } else if Taken(st.log[p].action, env.reply) {
      assert RowOf(Version(st.log, id, p + 1)) == DocIn(after.sink, id);
      assert RowAsOf(next, id, p + 1);
    } else {
      assert RowAsOf(next, id, m);
    }
  }

  /** Steps that leave the index alone and store nothing new. */
  lemma IdleTracks(st: Indexer, next: Indexer, id: string)
    requires Sound(st) && Follows(st, id) && next.sink == st.sink && st.high <= next.high
    requires st.log <= next.log
    requires forall o: nat :: Stored(next, o) ==> Stored(st, o)
    ensures Follows(next, id)
  {
    var m: nat :| m <= st.high && RowAsOf(st, id, m);
    VersionOfPrefix(st.log, next.log, id, m);
    assert forall o :: 0 <= o < |st.log| ==> next.log[o] == st.log[o];
    assert RowAsOf(next, id, m);
  }

  lemma StepTracks(config: Config, st: Indexer, input: Input<Change, HttpReply>, id: string)
    requires Sound(st) && Follows(st, id)
    ensures Follows(Step(ES_SINK, config, st, input), id)
  {
    if input.Go? && st.pc.Attempting? {
      AttemptTracks(config, st, input.env, id);
    } else {
      IdleStep(ES_SINK, config, st, input);
      IdleTracks(st, Step(ES_SINK, config, st, input), id);
    }
  }

  /** Over every run, however often the consumer was sent back and whatever was
      dead-lettered, an order's indexed document is the row as of some point up
      to the high-water mark, after every event of the order that lies below the
      position and was last passed by a success. Nothing but the order of writes
      keeps it so. */
  lemma {:induction false} RunTracks(config: Config, inputs: seq<Input<Change, HttpReply>>, id: string)
    ensures Sound(Exec(ES_SINK, config, Init(map[]), inputs))
    ensures Follows(Exec(ES_SINK, config, Init(map[]), inputs), id)
  {
    RunKeepsSound(ES_SINK, config, Init(map[]), inputs);
    if inputs == [] {
      assert RowAsOf(Init(map[]), id, 0);
    } else {
      var n := |inputs| - 1;
      RunKeepsSound(ES_SINK, config, Init(map[]), inputs[..n]);
      RunTracks(config, inputs[..n], id);
      StepTracks(config, Exec(ES_SINK, config, Init(map[]), inputs[..n]), inputs[n], id);
    }
  }

  /** No event of the order between the row's point and the position is left. */
  lemma Settled(st: Indexer, id: string, h: nat)
    requires Sound(st) && Follows(st, id) && Clean(st, id) && st.pos <= h && st.high <= h <= |st.log|
    requires forall o :: st.pos <= o < h ==> EventOf(st.log[o], id).None?
    ensures DocIn(st.sink, id) == RowOf(Version(st.log, id, h))
  {
    var m: nat :| m <= st.high && RowAsOf(st, id, m);
    forall o | m <= o < h
      ensures EventOf(st.log[o], id).None?
    {
      if o < st.pos && EventOf(st.log[o], id).Some? { CleanStored(st, id, o); }
    }
    VersionSettled(st.log, id, m, h);
  }

  /** If none of the order's events was dead-lettered: its document is the row as of
      a point from the position on; and whenever the position is back at its
      high-water mark, or has passed every event of the order, it is the row of
      the folded log. */
  lemma {:induction false} Converges(config: Config, inputs: seq<Input<Change, HttpReply>>, id: string)
    requires Clean(Exec(ES_SINK, config, Init(map[]), inputs), id)
    ensures var st := Exec(ES_SINK, config, Init(map[]), inputs);
            && st.pos <= st.high <= |st.log|
            && (exists m: nat :: st.pos <= m <= st.high && RowOf(Version(st.log, id, m)) == DocIn(st.sink, id))
            && (st.pos == st.high ==> DocIn(st.sink, id) == RowOf(Version(st.log, id, st.high)))
            && (Consumed(st, id) ==> DocIn(st.sink, id) == RowOf(Version(st.log, id, |st.log|)))
  {
    RunTracks(config, inputs, id);
    var st := Exec(ES_SINK, config, Init(map[]), inputs);
    if st.pos == st.high { Settled(st, id, st.high); }
    if Consumed(st, id) { Settled(st, id, |st.log|); }
    FromPosition(st, id);
  }

  lemma FromPosition(st: Indexer, id: string)
    requires Sound(st) && Follows(st, id) && Clean(st, id)
    ensures exists m: nat :: st.pos <= m <= st.high && RowOf(Version(st.log, id, m)) == DocIn(st.sink, id)
  {
    var m: nat :| m <= st.high && RowAsOf(st, id, m);
    if m < st.pos {
      forall o | m <= o < st.pos
        ensures EventOf(st.log[o], id).None?
      {
        if EventOf(st.log[o], id).Some? { CleanStored(st, id, o); }
      }
      VersionSettled(st.log, id, m, st.pos);
      assert RowOf(Version(st.log, id, st.pos)) == DocIn(st.sink, id);
    }
  }

  // ---- one pass is one replay --------------------------------------------------

  /** No record has been given up since the history had `from` marks. */
  predicate NoneGivenUp(st: Indexer, from: nat)
  {
    forall i :: from <= i < |st.trail| && st.trail[i].Finished? && st.trail[i].offset < |st.log| ==>
      st.log[st.trail[i].offset].Record? ==> st.trail[i].fate.Succeeded?
  }

  /** The pass began at c on the index `base`, and has indexed every message from
      there to the floor, in order and as if once each; and perhaps the next one
      too, by an attempt that threw or was not yet committed when the process died. */
  predicate Passing(base: Index, c: nat, st: Indexer)
  {
    && c <= st.pos && Floor(st) <= |st.log|
    && (|| st.sink == Replay(base, st.log, c, Floor(st))
        || (&& st.pc != Committing(Succeeded) && Floor(st) < |st.log|
            && st.sink == Replay(base, st.log, c, Floor(st) + 1)))
  }

  lemma {:induction false} ReplayStable(base: Index, log: Log, message: Message<Change>, c: nat, p: nat)
    requires c <= p <= |log|
    ensures Replay(base, log + [message], c, p) == Replay(base, log, c, p)
  {
    if c < p {
      ReplayStable(base, log, message, c, p - 1);
    }
  }

  /** Indexing the same message again changes nothing. */
  lemma ApplyTwice(ix: Index, message: Message<Change>)
    ensures Apply(Apply(ix, message), message) == Apply(ix, message)
  {
  }

  lemma AttemptPasses(config: Config, base: Index, c: nat, st: Indexer, env: Env<HttpReply>)
    requires Sound(st) && Passing(base, c, st) && st.pc.Attempting?
    ensures Passing(base, c, Advance(ES_SINK, config, st, env))
  {
    var p, next := st.pos, Advance(ES_SINK, config, st, env);
    var after := EsProcess(st.sink, st.log[p].action, env.reply, st.now);
    assert next.sink == after.sink && (next.pc == Committing(Succeeded) <==> !after.threw) && next.pos == p;
    var before := Replay(base, st.log, c, p);
    assert Replay(base, st.log, c, p + 1) == Apply(before, st.log[p]);
    ApplyTwice(before, st.log[p]);
  }

  lemma CommitPasses(config: Config, base: Index, c: nat, st: Indexer, env: Env<HttpReply>)
    requires Sound(st) && Passing(base, c, st) && st.pc.Committing?
    requires st.log[st.pos].Record? ==> st.pc.fate.Succeeded?
    ensures Passing(base, c, Advance(ES_SINK, config, st, env))
  {
    var p, next := st.pos, Advance(ES_SINK, config, st, env);
    assert next.pos == p + 1 && next.sink == st.sink && next.log == st.log && next.pc == LoopTest;
    assert Replay(base, st.log, c, p + 1) == Apply(Replay(base, st.log, c, p), st.log[p]);
  }

  /** Every other step leaves the index and the position alone; a crash may bring
      the floor back down to the position. */
  predicate Idles(st: Indexer, next: Indexer)
  {
    && next.sink == st.sink && next.log == st.log && next.pos == st.pos && next.pc != Committing(Succeeded)
  }

  lemma StepIdles(config: Config, st: Indexer, input: Input<Change, HttpReply>)
    requires !input.Start? && !input.Append? && !(input.Go? && (st.pc.Attempting? || st.pc.Committing?))
    ensures var next := Step(ES_SINK, config, st, input);
            (next.sink == st.sink && next.log == st.log && next.pos == st.pos && next.pc == st.pc) || Idles(st, next)
  {
  }

  lemma IdlePasses(base: Index, c: nat, st: Indexer, next: Indexer)
    requires Sound(st) && Passing(base, c, st) && Idles(st, next)
    ensures Passing(base, c, next)
  {
  }

  lemma StepPasses(config: Config, base: Index, c: nat, st: Indexer, input: Input<Change, HttpReply>)
    requires Sound(st) && Passing(base, c, st) && !input.Start?
    requires input.Go? && st.pc.Committing? && st.log[st.pos].Record? ==> st.pc.fate.Succeeded?
    ensures Passing(base, c, Step(ES_SINK, config, st, input))
  {
    if input.Append? {
      ReplayStable(base, st.log, input.message, c, Floor(st));
      if Floor(st) < |st.log| { ReplayStable(base, st.log, input.message, c, Floor(st) + 1); }
    } else if input.Go? && st.pc.Attempting? {
      AttemptPasses(config, base, c, st, input.env);
    } else if input.Go? && st.pc.Committing? {
      CommitPasses(config, base, c, st, input.env);
    } else {
      StepIdles(config, st, input);
      if Idles(st, Step(ES_SINK, config, st, input)) {
        IdlePasses(base, c, st, Step(ES_SINK, config, st, input));
      }
    }
  }

  lemma GivenUpBefore(config: Config, st: Indexer, input: Input<Change, HttpReply>, from: nat)
    requires Sound(st) && NoneGivenUp(Step(ES_SINK, config, st, input), from) && from <= |st.trail|
    ensures NoneGivenUp(st, from)
    ensures input.Go? && st.pc.Committing? && st.log[st.pos].Record? ==> st.pc.fate.Succeeded?
  {
    var next := Step(ES_SINK, config, st, input);
    StepKeepsSound(ES_SINK, config, st, input);
    assert forall i :: 0 <= i < |st.trail| ==> next.trail[i] == st.trail[i];
    assert forall o :: 0 <= o < |st.log| ==> next.log[o] == st.log[o];
    if input.Go? && st.pc.Committing? {
      assert next.trail[|st.trail|] == Finished(st.pos, st.pc.fate);
    }
  }

  /** A pass, from a restart to anywhere before the next, in which no record was given
      up is one replay, whatever calls failed, lost their reply or were retried: it
      turns the index it found into the replay of the log from the stored offset on,
      up to the floor, or one message further while that message is not passed. So
      over any number of such passes, broken off anywhere, the index is the replay
      of their stretches one upon another. */
  lemma {:induction false} PassIsReplay(
      config: Config, st: Indexer, producer: bool, inputs: seq<Input<Change, HttpReply>>)
    requires Sound(st) && (st.pc.Closed? || st.pc.Down?) && NoRestart(inputs)
    requires NoneGivenUp(Exec(ES_SINK, config, Step(ES_SINK, config, st, Start(producer)), inputs), |st.trail|)
    ensures var last := Exec(ES_SINK, config, Step(ES_SINK, config, st, Start(producer)), inputs);
            Sound(last) && |st.trail| <= |last.trail| && Passing(st.sink, st.committed, last)
  {
    var begun := Step(ES_SINK, config, st, Start(producer));
    StepKeepsSound(ES_SINK, config, st, Start(producer));
    RunKeepsSound(ES_SINK, config, begun, inputs);
    if inputs != [] {
      var n := |inputs| - 1;
      var before := Exec(ES_SINK, config, begun, inputs[..n]);
      RunKeepsSound(ES_SINK, config, begun, inputs[..n]);
      GivenUpBefore(config, before, inputs[n], |st.trail|);
      PassIsReplay(config, st, producer, inputs[..n]);
      StepPasses(config, st.sink, st.committed, before, inputs[n]);
    }
  }

  lemma RowOfPassing(base: Index, c: nat, st: Indexer, id: string) returns (q: nat)
    requires Passing(base, c, st)
    ensures q == Floor(st) || (st.pc != Committing(Succeeded) && q == Floor(st) + 1)
    ensures c <= q <= |st.log|
    ensures DocIn(st.sink, id)
         == if Touched(st.log, id, c, q) then RowOf(Version(st.log, id, q)) else DocIn(base, id)
  {
    q := if st.sink == Replay(base, st.log, c, Floor(st)) then Floor(st) else Floor(st) + 1;
    ReplayRow(base, st.log, id, c, q);
  }

  /** The exact row of each order anywhere in such a pass: as of the point q that the
      pass has indexed up to if the order occurs in that, else what the pass found. */
  lemma {:induction false} RowInPass(
      config: Config, st: Indexer, producer: bool, inputs: seq<Input<Change, HttpReply>>, id: string)
    returns (q: nat)
    requires Sound(st) && (st.pc.Closed? || st.pc.Down?) && NoRestart(inputs)
    requires NoneGivenUp(Exec(ES_SINK, config, Step(ES_SINK, config, st, Start(producer)), inputs), |st.trail|)
    ensures var last := Exec(ES_SINK, config, Step(ES_SINK, config, st, Start(producer)), inputs);
            && (q == Floor(last) || (last.pc != Committing(Succeeded) && q == Floor(last) + 1))
            && st.committed <= q <= |last.log|
            && DocIn(last.sink, id)
               == if Touched(last.log, id, st.committed, q) then RowOf(Version(last.log, id, q))
                  else DocIn(st.sink, id)
  {
    PassIsReplay(config, st, producer, inputs);
    q := RowOfPassing(st.sink, st.committed,
                      Exec(ES_SINK, config, Step(ES_SINK, config, st, Start(producer)), inputs), id);
  }
}
