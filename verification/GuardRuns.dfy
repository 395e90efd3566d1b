/** The guard and the retry loop in runs of the consumer: what retrying amounts to
    between one delivery and the next, and when the cache ends up with the log's
    last word, exactly. */
module GuardRuns {
  import opened Options
  import opened Records
  import opened RedisStore
  import opened Protocol
  import opened Offsets
  import opened SinkSpecs
  import opened History
  import opened RedisRetries
  import R = RedisRuns

  // ---- retries in a run ----------------------------------------------------

  /** The calls that a run from st makes. */
  function TriesIn(config: Config, st: R.Updater, inputs: seq<Input<Change, Reply>>): seq<Try>
  {
    if inputs == [] then []
    else
      var n := |inputs| - 1;
      var before := Exec(REDIS_SINK, config, st, inputs[..n]);
      TriesIn(config, st, inputs[..n])
      + if inputs[n].Go? && before.pc.Attempting? then [Try(inputs[n].env.reply, before.now)] else []
  }

  /** Nothing more has been delivered. */
  predicate SameDelivery(st: R.Updater, last: R.Updater)
  {
    forall i :: |st.trail| <= i < |last.trail| ==> !last.trail[i].Delivered?
  }

  lemma RetriedSnoc(s: Store, change: Change, tries: seq<Try>, again: Try)
    ensures Retried(s, change, tries + [again])
         == RedisProcess(Retried(s, change, tries), change, again.reply, again.at).sink
  {
    assert (tries + [again])[..|tries|] == tries;
  }

  /** As long as nothing is delivered, the thread is on the message at p or on none. */
  lemma StepSameMessage(config: Config, st: R.Updater, input: Input<Change, Reply>, p: nat)
    requires Sound(st) && (Trying(st.pc) ==> st.pos == p)
    ensures SameDelivery(st, Step(REDIS_SINK, config, st, input)) ==>
              (Trying(Step(REDIS_SINK, config, st, input).pc) ==> Step(REDIS_SINK, config, st, input).pos == p)
  {
    if input.Go? && st.pc.Polling? {
      var mark := AdvanceMark(REDIS_SINK, config, st, input.env);
      var next := Advance(REDIS_SINK, config, st, input.env);
      assert mark.Some? ==> next.trail[|st.trail|].Delivered?;
    }
  }

  lemma StepSink(config: Config, st: R.Updater, input: Input<Change, Reply>)
    requires Sound(st)
    ensures Step(REDIS_SINK, config, st, input).sink
         == if input.Go? && st.pc.Attempting?
            then RedisProcess(st.sink, st.log[st.pos].action, input.env.reply, st.now).sink
            else st.sink
  {
  }

  /** Retrying in a run: from the delivery of a record until the next delivery,
      through failures, lost replies, sleeps, a stop, a crash or a commit, the
      keyspace becomes what the calls made in between make of it, all of them for
      this one record. */
  lemma {:induction false} RunRetries(config: Config, st: R.Updater, inputs: seq<Input<Change, Reply>>)
    requires Sound(st) && Trying(st.pc)
    requires SameDelivery(st, Exec(REDIS_SINK, config, st, inputs))
    ensures var last := Exec(REDIS_SINK, config, st, inputs);
            && (Trying(last.pc) ==> last.pos == st.pos)
            && last.sink == Retried(st.sink, st.log[st.pos].action, TriesIn(config, st, inputs))
  {
    if inputs != [] {
      var n := |inputs| - 1;
      var before, last := Exec(REDIS_SINK, config, st, inputs[..n]), Exec(REDIS_SINK, config, st, inputs);
      RunKeepsSound(REDIS_SINK, config, st, inputs[..n]);
      StepKeepsSound(REDIS_SINK, config, before, inputs[n]);
      assert forall i :: 0 <= i < |before.trail| ==> last.trail[i] == before.trail[i];
      RunRetries(config, st, inputs[..n]);
      StepSameMessage(config, before, inputs[n], st.pos);
      StepSink(config, before, inputs[n]);
      if inputs[n].Go? && before.pc.Attempting? {
        assert before.log[st.pos] == st.log[st.pos];
        RetriedSnoc(st.sink, st.log[st.pos].action, TriesIn(config, st, inputs[..n]),
                    Try(inputs[n].env.reply, before.now));
      } else {
        assert TriesIn(config, st, inputs) == TriesIn(config, st, inputs[..n]);
      }
    }
  }

  predicate TimesFrom(tries: seq<Try>, from: int, to: int)
  {
    && from <= to
    && (forall i :: 0 <= i < |tries| ==> from <= tries[i].at <= to)
    && (forall i, j :: 0 <= i < j < |tries| ==> tries[i].at <= tries[j].at)
  }

  lemma TimesSnoc(tries: seq<Try>, from: int, to: int, again: seq<Try>, later: int)
    requires TimesFrom(tries, from, to) && to <= later && (again == [] || (|again| == 1 && again[0].at == to))
    ensures TimesFrom(tries + again, from, later)
  {
  }

  lemma {:induction false} TriesInOrder(config: Config, st: R.Updater, inputs: seq<Input<Change, Reply>>)
    requires Sound(st)
    ensures TimesFrom(TriesIn(config, st, inputs), st.now, Exec(REDIS_SINK, config, st, inputs).now)
  {
    if inputs != [] {
      var n := |inputs| - 1;
      var before, last := Exec(REDIS_SINK, config, st, inputs[..n]), Exec(REDIS_SINK, config, st, inputs);
      TriesInOrder(config, st, inputs[..n]);
      RunKeepsSound(REDIS_SINK, config, st, inputs[..n]);
      StepKeepsSound(REDIS_SINK, config, before, inputs[n]);
      var again := if inputs[n].Go? && before.pc.Attempting? then [Try(inputs[n].env.reply, before.now)] else [];
      TimesSnoc(TriesIn(config, st, inputs[..n]), st.now, before.now, again, last.now);
    }
  }

  /** Retry idempotence over runs: the keyspace is as if the record had been applied
      exactly once, at the time of one of the calls, or not at all, however long
      the retries take. */
  lemma {:induction false} RunRetryIdempotent(config: Config, st: R.Updater, inputs: seq<Input<Change, Reply>>)
    requires Sound(st) && Trying(st.pc)
    requires SameDelivery(st, Exec(REDIS_SINK, config, st, inputs))
    ensures var last := Exec(REDIS_SINK, config, st, inputs);
            last.sink == st.sink
            || AppliedOnce(st.sink, st.log[st.pos].action, TriesIn(config, st, inputs), last.sink)
  {
    RunRetries(config, st, inputs);
    TriesInOrder(config, st, inputs);
    RetryIdempotent(st.sink, st.log[st.pos].action, TriesIn(config, st, inputs));
  }

  // ---- the guard's verdict, exactly ------------------------------------------

  /** The first of the order's events below m with the greatest LSN, as a double. */
  predicate FirstGreatest(log: Log, id: string, m: nat, e: nat)
    requires m <= |log|
  {
    && e < m && EventOf(log[e], id).Some?
    && forall o :: 0 <= o < m && EventOf(log[o], id).Some? ==>
         && Outdated(EventOf(log[o], id).value, EventOf(log[e], id).value)
         && (o < e ==> !Outdated(EventOf(log[e], id).value, EventOf(log[o], id).value))
  }

  lemma {:induction false} GuardedIsGreatest(log: Log, id: string, m: nat) returns (e: nat)
    requires m <= |log| && Guarded(log, id, m).Some?
    ensures FirstGreatest(log, id, m, e) && Guarded(log, id, m) == EventOf(log[e], id)
  {
    if EventOf(log[m - 1], id).None? {
      e := GuardedIsGreatest(log, id, m - 1);
    } else if Guarded(log, id, m - 1).None? {
      GuardedNone(log, id, m - 1);
      e := m - 1;
    } else {
      e := GuardedIsGreatest(log, id, m - 1);
      if !Outdated(EventOf(log[m - 1], id).value, EventOf(log[e], id).value) {
        e := m - 1;
      }
    }
  }

  lemma {:induction false} GuardedNone(log: Log, id: string, m: nat)
    requires m <= |log|
    ensures Guarded(log, id, m).None? <==> forall o :: 0 <= o < m ==> EventOf(log[o], id).None?
  {
    if m != 0 {
      GuardedNone(log, id, m - 1);
    }
  }

  /** What was already absorbed changes nothing when it is replayed. */
  lemma ReplayAbsorbed(log: Log, id: string, p: nat, m: nat)
    requires p < m <= |log| && EventOf(log[p], id).Some?
    ensures Absorb(Guarded(log, id, m), EventOf(log[p], id).value) == Guarded(log, id, m)
  {
    GuardedNone(log, id, m);
    var e := GuardedIsGreatest(log, id, m);
  }

  lemma {:induction false} GuardedOfPrefix(log: Log, longer: Log, id: string, m: nat)
    requires m <= |log| && log <= longer
    ensures Guarded(longer, id, m) == Guarded(log, id, m)
  {
    if m != 0 {
      assert longer[m - 1] == log[m - 1];
      GuardedOfPrefix(log, longer, id, m - 1);
    }
  }

  lemma {:induction false} GuardedSettled(log: Log, id: string, p: nat, m: nat)
    requires p <= m <= |log| && forall o :: p <= o < m ==> EventOf(log[o], id).None?
    ensures Guarded(log, id, m) == Guarded(log, id, p)
  {
    if p < m {
      GuardedSettled(log, id, p, m - 1);
    }
  }

  // ---- the register in an unlapsed run ---------------------------------------

  predicate Alive(st: R.Updater, id: string)
  {
    LsnKey(id) in st.sink ==> Live(st.sink, LsnKey(id), st.now)
  }

  /** At no point of the run has the order's entry lapsed. */
  predicate NeverLapses(config: Config, inputs: seq<Input<Change, Reply>>, id: string)
  {
    forall n :: 0 <= n <= |inputs| ==> Alive(Exec(REDIS_SINK, config, Init(map[]), inputs[..n]), id)
  }

  /** The register is what one undisturbed pass over the first m messages leaves. */
  predicate MirrorsTo(st: R.Updater, id: string, m: nat)
  {
    && Paired(st.sink, id) && Floor(st) <= m <= |st.log|
    && SlotAt(st.sink, id, st.now) == Guarded(st.log, id, m)
  }

  predicate Mirrors(st: R.Updater, id: string)
  {
    exists m: nat :: m <= |st.log| && MirrorsTo(st, id, m)
  }

  lemma AttemptMirrors(config: Config, st: R.Updater, env: Env<Reply>, id: string)
    requires Sound(st) && Mirrors(st, id) && st.pc.Attempting? && Isolated(st.log, id)
    ensures Mirrors(Advance(REDIS_SINK, config, st, env), id)
  {
    var next := Advance(REDIS_SINK, config, st, env);
    var p, change := st.pos, st.log[st.pos].action;
    var after := RedisProcess(st.sink, change, env.reply, st.now);
    assert next.sink == after.sink && (next.pc == Committing(Succeeded) <==> !after.threw);
    var m: nat :| m <= |st.log| && MirrorsTo(st, id, m);
    if EventOf(st.log[p], id).None? {
      if !change.Ignored? && !env.reply.NotReached? {
        ScriptElsewhere(st.sink, change.id, EventIn(change), st.now, id, st.now);
      }
      assert MirrorsTo(next, id, if m == p then p + 1 else m);
    } else if env.reply.NotReached? {
      assert MirrorsTo(next, id, m);
    } else {
      ScriptIsAbsorb(st.sink, id, EventIn(change), st.now);
      if p < m { ReplayAbsorbed(st.log, id, p, m); }
      assert MirrorsTo(next, id, if m == p then p + 1 else m);
    }
  }

  lemma CommitMirrors(config: Config, st: R.Updater, env: Env<Reply>, id: string)
    requires Sound(st) && Mirrors(st, id) && st.pc.Committing?
    requires Clean(Advance(REDIS_SINK, config, st, env), id)
    ensures Mirrors(Advance(REDIS_SINK, config, st, env), id)
  {
    var next := Advance(REDIS_SINK, config, st, env);
    assert next.trail[|st.trail|] == Finished(st.pos, st.pc.fate);
    assert st.pc.fate.Succeeded? || EventOf(st.log[st.pos], id).None?;
    var m: nat :| m <= |st.log| && MirrorsTo(st, id, m);
    assert MirrorsTo(next, id, if m == st.pos then st.pos + 1 else m);
  }

  lemma IdleMirrors(st: R.Updater, next: R.Updater, id: string)
    requires Mirrors(st, id) && next.sink == st.sink && st.log <= next.log && st.now <= next.now
    requires Floor(next) <= Floor(st) && Alive(st, id) && Alive(next, id)
    ensures Mirrors(next, id)
  {
    var m: nat :| m <= |st.log| && MirrorsTo(st, id, m);
    SlotLapses(st.sink, id, st.now, next.now);
    GuardedOfPrefix(st.log, next.log, id, m);
    assert MirrorsTo(next, id, m);
  }

  /** Steps other than attempts and commits leave the sink alone and store nothing. */
  lemma IdleFloor(config: Config, st: R.Updater, input: Input<Change, Reply>)
    requires Sound(st) && !(input.Go? && (st.pc.Attempting? || st.pc.Committing?))
    ensures var next := Step(REDIS_SINK, config, st, input);
            next.sink == st.sink && Floor(next) <= Floor(st)
  {
  }

  lemma StepMirrors(config: Config, st: R.Updater, input: Input<Change, Reply>, id: string)
    requires Sound(st) && Mirrors(st, id) && Isolated(st.log, id) && Alive(st, id)
    requires Clean(Step(REDIS_SINK, config, st, input), id) && Alive(Step(REDIS_SINK, config, st, input), id)
    ensures Mirrors(Step(REDIS_SINK, config, st, input), id)
  {
    if input.Go? && st.pc.Attempting? {
      AttemptMirrors(config, st, input.env, id);
    } else if input.Go? && st.pc.Committing? {
      CommitMirrors(config, st, input.env, id);
    } else {
      StepKeepsSound(REDIS_SINK, config, st, input);
      IdleFloor(config, st, input);
      IdleMirrors(st, Step(REDIS_SINK, config, st, input), id);
    }
  }

  lemma CleanBefore(st: R.Updater, next: R.Updater, id: string)
    requires Sound(st) && st.log <= next.log && st.trail <= next.trail && Clean(next, id)
    ensures Clean(st, id)
  {
    assert forall i :: 0 <= i < |st.trail| ==> st.trail[i] == next.trail[i];
    assert forall o :: 0 <= o < |st.log| ==> st.log[o] == next.log[o];
  }

  lemma {:induction false} RunMirrors(config: Config, inputs: seq<Input<Change, Reply>>, id: string)
    requires var st := Exec(REDIS_SINK, config, Init(map[]), inputs); Isolated(st.log, id) && Clean(st, id)
    requires NeverLapses(config, inputs, id)
    ensures Sound(Exec(REDIS_SINK, config, Init(map[]), inputs))
    ensures Mirrors(Exec(REDIS_SINK, config, Init(map[]), inputs), id)
  {
    RunKeepsSound(REDIS_SINK, config, Init(map[]), inputs);
    if inputs == [] {
      assert MirrorsTo(Init(map[]), id, 0);
    } else {
      var n := |inputs| - 1;
      var st := Exec(REDIS_SINK, config, Init(map[]), inputs[..n]);
      RunKeepsSound(REDIS_SINK, config, Init(map[]), inputs[..n]);
      StepKeepsSound(REDIS_SINK, config, st, inputs[n]);
      LogBefore(st.log, Step(REDIS_SINK, config, st, inputs[n]).log, id);
      CleanBefore(st, Step(REDIS_SINK, config, st, inputs[n]), id);
      assert inputs[..|inputs|] == inputs;
      NeverLapsesBefore(config, inputs, id);
      RunMirrors(config, inputs[..n], id);
      StepMirrors(config, st, inputs[n], id);
    }
  }

  lemma NeverLapsesBefore(config: Config, inputs: seq<Input<Change, Reply>>, id: string)
    requires inputs != [] && NeverLapses(config, inputs, id)
    ensures NeverLapses(config, inputs[..|inputs| - 1], id)
    ensures Alive(Exec(REDIS_SINK, config, Init(map[]), inputs[..|inputs| - 1]), id)
  {
    var m := |inputs| - 1;
    forall n | 0 <= n <= m
      ensures Alive(Exec(REDIS_SINK, config, Init(map[]), inputs[..m][..n]), id)
    {
      assert inputs[..m][..n] == inputs[..n];
    }
  }

  /** The log's last word on the order is the first of its greatest. */
  predicate EndsGreatest(log: Log, id: string)
  {
    Version(log, id, |log|).Some? ==>
      exists e :: 0 <= e < |log| && FirstGreatest(log, id, |log|, e) && EventOf(log[e], id) == Version(log, id, |log|)
  }

  lemma {:induction false} GreatestIsGuarded(log: Log, id: string)
    ensures Guarded(log, id, |log|) == Version(log, id, |log|) <==> EndsGreatest(log, id)
  {
    GuardedNone(log, id, |log|);
    if Version(log, id, |log|).Some? {
      var last := LastEvent(log, id, |log|);
      var e := GuardedIsGreatest(log, id, |log|);
      if EndsGreatest(log, id) {
        var f :| 0 <= f < |log| && FirstGreatest(log, id, |log|, f) && EventOf(log[f], id) == Version(log, id, |log|);
        assert e == f;
      }
    } else if Guarded(log, id, |log|).Some? {
      var e := GuardedIsGreatest(log, id, |log|);
      VersionFrom(log, id, e, |log|);
    }
  }

  /** Convergence, exactly. In any run with retries, lost replies, failed commits,
      crashes and replays in which no event of the order was dead-lettered and its
      entry never lapsed, once all of its events lie below the position: the
      register is what one undisturbed pass of the guard would leave; and it is the
      fold of the log if and only if the first event with the greatest LSN, as a
      double, is the last one. */
  lemma {:induction false} ConvergesExactly(config: Config, inputs: seq<Input<Change, Reply>>, id: string)
    requires var st := Exec(REDIS_SINK, config, Init(map[]), inputs);
             Isolated(st.log, id) && Clean(st, id) && Consumed(st, id)
    requires NeverLapses(config, inputs, id)
    ensures var st := Exec(REDIS_SINK, config, Init(map[]), inputs);
            && SlotAt(st.sink, id, st.now) == Guarded(st.log, id, |st.log|)
            && (SlotAt(st.sink, id, st.now) == Version(st.log, id, |st.log|) <==> EndsGreatest(st.log, id))
  {
    RunMirrors(config, inputs, id);
    var st := Exec(REDIS_SINK, config, Init(map[]), inputs);
    var m: nat :| m <= |st.log| && MirrorsTo(st, id, m);
    GuardedSettled(st.log, id, m, |st.log|);
    GreatestIsGuarded(st.log, id);
  }
}
