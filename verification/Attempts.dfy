/** When an attempt fails, exactly, for each of the three sinks; and what runs come to
    in which the outside world always answers. */
module Attempts {
  import opened Json
  import opened Options
  import opened LuaNumber
  import opened Records
  import opened RedisStore
  import opened Protocol
  import opened Offsets
  import opened SinkSpecs
  import opened History
  import R = RedisRuns
  import E = EsRuns
  import N = NotifierRuns

  // ---- one attempt ----------------------------------------------------------

  /** A row's status can be read: it is an object whose status, if any, is a string. */
  predicate StatusReads(row: Json)
  {
    row.Obj? && (Find(row.members, "status").Some? ==> Find(row.members, "status").value.Str?)
  }

  /** In every reachable state the updater's attempt throws if and only if its call was
      not answered, or it wrote a row, over nothing as new, whose status cannot be
      read. Deletes and stale events that are answered never throw. */
  lemma {:induction false} CacheAttempt(
      config: Config, inputs: seq<Input<Change, Reply>>, env: Env<Reply>, id: string)
    requires var st := Exec(REDIS_SINK, config, Init(map[]), inputs);
             st.pc.Attempting? && Isolated(st.log, id)
    ensures var st := Exec(REDIS_SINK, config, Init(map[]), inputs);
            var held := SlotAt(st.sink, id, st.now);
            && Sound(st)
            && (EventOf(st.log[st.pos], id).Some? ==>
                  var event := EventOf(st.log[st.pos], id).value;
                  Advance(REDIS_SINK, config, st, env).trail
                  == st.trail + [Tried(st.pos, || env.reply != Answered
                                               || (&& event.doc.Some? && !StatusReads(event.doc.value)
                                                   && (held.Some? ==> Round(held.value.lsn) < Round(event.lsn))))])
            && (st.log[st.pos].action.Ignored? ==>
                  Advance(REDIS_SINK, config, st, env).trail == st.trail + [Tried(st.pos, false)])
  {
    R.RunTracks(config, inputs, id);
    var st := Exec(REDIS_SINK, config, Init(map[]), inputs);
    if EventOf(st.log[st.pos], id).Some? {
      ScriptIsAbsorb(st.sink, id, EventOf(st.log[st.pos], id).value, st.now);
    }
  }

  /** The indexer's throws if and only if it was not served, but a delete that is
      answered 404 does not. */
  lemma IndexAttempt(config: Config, st: E.Indexer, env: Env<HttpReply>)
    requires Sound(st) && st.pc.Attempting?
    ensures var change := st.log[st.pos].action;
            Advance(ES_SINK, config, st, env).trail
            == st.trail + [Tried(st.pos, && !change.Ignored? && env.reply != Served
                                         && !(change.Delete? && env.reply == HttpReply.Rejected(404)))]
  {
  }

  /** The notifier's throws if and only if the status cannot be read, or a mail is
      called for and the call was not answered; whether the key was set already
      makes no difference. */
  lemma NoticeAttempt(config: Config, st: N.Notifying, env: Env<Reply>)
    requires Sound(st) && st.pc.Attempting?
    ensures var notice := st.log[st.pos].action;
            Advance(NOTIFY_SINK, config, st, env).trail
            == st.trail + [Tried(st.pos, notice.Unreadable? || (notice.Mail? && env.reply != Answered))]
  {
  }

  /** A row whose status cannot be read costs the updater one attempt: the one that
      writes it throws, and the next, if Redis answers within 86400 s, finds it
      stored and returns. */
  lemma SecondAttemptPasses(s: Store, change: Change, at: int, later: int)
    requires change.Upsert? && !StatusReads(change.doc) && Paired(s, change.id)
    requires RedisProcess(s, change, Answered, at).sink != s && at <= later < at + 24 * 60 * 60 * 1000
    ensures var first := RedisProcess(s, change, Answered, at);
            && first.threw && DocAt(first.sink, change.id, at) == Some(change.doc)
            && RedisProcess(first.sink, change, Answered, later) == Attempted(first.sink, false)
  {
    ScriptIsAbsorb(s, change.id, EventIn(change), at);
    ScriptIsAbsorb(Script(s, change.id, EventIn(change), at), change.id, EventIn(change), later);
    assert |LsnKey(change.id)| != |OrderKey(change.id)|;
  }

  // ---- a sink that never fails ------------------------------------------------

  predicate NoneThrew(trail: seq<Mark>)
  {
    forall i :: 0 <= i < |trail| && trail[i].Tried? ==> !trail[i].threw
  }

  /** No schema is missing at any encounter. */
  predicate Schemas<A, R>(inputs: seq<Input<A, R>>)
  {
    forall i :: 0 <= i < |inputs| && inputs[i].Go? ==> inputs[i].env.schema
  }

  /** No record is on its way to the dead-letter queue, or has been there. */
  predicate AllPass<S, A>(st: State<S, A>)
  {
    && !st.pc.Caught? && !st.pc.Sleeping? && (st.pc.AttemptTest? ==> st.pc.attempt == 1)
    && (st.pc.GaveUp? ==> !st.running)
    && (InHand(st.pc) && st.pos < |st.log| && st.log[st.pos].Record? ==>
          !st.pc.Routing? && (st.pc.Committing? ==> st.pc.fate.Succeeded?))
    && (forall i :: 0 <= i < |st.trail| ==> MarkPasses(st.log, st.trail[i]))
  }

  predicate MarkPasses<A>(log: seq<Message<A>>, mark: Mark)
  {
    && (mark.Routed? ==> mark.offset < |log| && log[mark.offset].Undecodable?)
    && (mark.Finished? ==> mark.offset < |log| && (log[mark.offset].Record? ==> mark.fate.Succeeded?))
  }

  lemma AdvanceKeepsPassing<S, A, R>(sink: Sink<S, A, R>, config: Config, st: State<S, A>, env: Env<R>)
    requires Sound(st) && AllPass(st) && env.schema && 1 <= config.maxRetries
    requires NoneThrew(Advance(sink, config, st, env).trail)
    ensures AllPass(Advance(sink, config, st, env))
  {
    var next := Advance(sink, config, st, env);
    var mark := AdvanceMark(sink, config, st, env);
    if mark.Some? {
      assert next.trail[|st.trail|] == mark.value;
      forall i | 0 <= i < |next.trail|
        ensures MarkPasses(next.log, next.trail[i])
      {
        if i < |st.trail| { assert next.trail[i] == st.trail[i]; }
      }
    }
  }

  lemma AppendKeepsPassing<S, A>(st: State<S, A>, message: Message<A>)
    requires Sound(st) && AllPass(st)
    ensures AllPass(st.(log := st.log + [message]))
  {
    forall i | 0 <= i < |st.trail|
      ensures MarkPasses(st.log + [message], st.trail[i])
    {
      assert MarkPasses(st.log, st.trail[i]);
    }
  }

  lemma StepKeepsPassing<S, A, R>(sink: Sink<S, A, R>, config: Config, st: State<S, A>, input: Input<A, R>)
    requires Sound(st) && AllPass(st) && (input.Go? ==> input.env.schema) && 1 <= config.maxRetries
    requires NoneThrew(Step(sink, config, st, input).trail)
    ensures AllPass(Step(sink, config, st, input))
  {
    match input
    case Go(env) => AdvanceKeepsPassing(sink, config, st, env);
    case Append(message) => AppendKeepsPassing(st, message);
    case _ =>
  }

  lemma NoneThrewBefore(trail: seq<Mark>, longer: seq<Mark>)
    requires trail <= longer && NoneThrew(longer)
    ensures NoneThrew(trail)
  {
    assert forall i :: 0 <= i < |trail| ==> trail[i] == longer[i];
  }

  /** Over every run of any sink: while no attempt throws and no schema is missing, no
      record is ever routed, and every record that is finished is a success. */
  lemma {:induction false} RunPasses<S, A, R>(
      sink: Sink<S, A, R>, config: Config, s0: S, inputs: seq<Input<A, R>>)
    requires Schemas(inputs) && 1 <= config.maxRetries && NoneThrew(Exec(sink, config, Init(s0), inputs).trail)
    ensures Sound(Exec(sink, config, Init(s0), inputs)) && AllPass(Exec(sink, config, Init(s0), inputs))
  {
    RunKeepsSound(sink, config, Init(s0), inputs);
    if inputs != [] {
      var n := |inputs| - 1;
      var st := Exec(sink, config, Init(s0), inputs[..n]);
      RunKeepsSound(sink, config, Init(s0), inputs[..n]);
      StepKeepsSound(sink, config, st, inputs[n]);
      NoneThrewBefore(st.trail, Exec(sink, config, Init(s0), inputs).trail);
      RunPasses(sink, config, s0, inputs[..n]);
      StepKeepsPassing(sink, config, st, inputs[n]);
    }
  }

  lemma AllPassIsClean<S>(st: State<S, Change>, id: string)
    requires AllPass(st)
    ensures Clean(st, id)
  {
    forall i | 0 <= i < |st.trail|
      ensures MarkPasses(st.log, st.trail[i])
    {
    }
  }

  /** A step adds no failed attempt but by calling the sink and failing. */
  lemma StepThrew<S, A, R>(sink: Sink<S, A, R>, config: Config, st: State<S, A>, input: Input<A, R>)
    requires NoneThrew(st.trail)
    requires input.Go? && st.pc.Attempting? && st.pos < |st.log| && st.log[st.pos].Record? ==>
               !sink.process(st.sink, st.log[st.pos].action, input.env.reply, st.now).threw
    ensures NoneThrew(Step(sink, config, st, input).trail)
  {
  }

  lemma LogsGrow<S, A, R>(sink: Sink<S, A, R>, config: Config, st: State<S, A>, inputs: seq<Input<A, R>>)
    requires inputs != [] && Sound(st)
    ensures Sound(Exec(sink, config, st, inputs[..|inputs| - 1]))
    ensures Exec(sink, config, st, inputs[..|inputs| - 1]).log <= Exec(sink, config, st, inputs).log
  {
    var n := |inputs| - 1;
    RunKeepsSound(sink, config, st, inputs[..n]);
    StepKeepsSound(sink, config, Exec(sink, config, st, inputs[..n]), inputs[n]);
  }

  // ---- the three sinks ----------------------------------------------------------

  /** Every command sent to Redis is answered. */
  predicate Answering<A>(inputs: seq<Input<A, Reply>>)
  {
    forall i :: 0 <= i < |inputs| && inputs[i].Go? ==> inputs[i].env.reply == Answered
  }

  predicate StatusesRead(log: Log)
  {
    forall o :: 0 <= o < |log| && log[o].Record? && log[o].action.Upsert? ==> StatusReads(log[o].action.doc)
  }

  lemma {:induction false} CacheNeverThrows(config: Config, inputs: seq<Input<Change, Reply>>)
    requires Answering(inputs) && StatusesRead(Exec(REDIS_SINK, config, Init(map[]), inputs).log)
    ensures NoneThrew(Exec(REDIS_SINK, config, Init(map[]), inputs).trail)
  {
    if inputs != [] {
      var n := |inputs| - 1;
      var st := Exec(REDIS_SINK, config, Init(map[]), inputs[..n]);
      LogsGrow(REDIS_SINK, config, Init(map[]), inputs);
      assert forall o :: 0 <= o < |st.log| ==> st.log[o] == Exec(REDIS_SINK, config, Init(map[]), inputs).log[o];
      CacheNeverThrows(config, inputs[..n]);
      StepThrew(REDIS_SINK, config, st, inputs[n]);
    }
  }

  /** Where Redis answers, schemas can be had and statuses can be read, no attempt of the
      updater throws, on writes, deletes and stale events alike, and nothing is
      dead-lettered; so whatever else happens, a consumed order's live register is
      the fold of the log. */
  lemma {:induction false} CacheSucceeds(config: Config, inputs: seq<Input<Change, Reply>>, id: string)
    requires Answering(inputs) && Schemas(inputs) && 1 <= config.maxRetries
    requires StatusesRead(Exec(REDIS_SINK, config, Init(map[]), inputs).log)
    ensures var st := Exec(REDIS_SINK, config, Init(map[]), inputs);
            && NoneThrew(st.trail) && AllPass(st) && Clean(st, id)
            && (Isolated(st.log, id) && LastIsNewest(st.log, id) && Consumed(st, id)
                && SlotAt(st.sink, id, st.now).Some? ==>
                  SlotAt(st.sink, id, st.now) == Version(st.log, id, |st.log|))
  {
    var st := Exec(REDIS_SINK, config, Init(map[]), inputs);
    CacheNeverThrows(config, inputs);
    RunPasses(REDIS_SINK, config, map[], inputs);
    AllPassIsClean(st, id);
    if Isolated(st.log, id) && LastIsNewest(st.log, id) && Consumed(st, id) {
      R.Converges(config, inputs, id);
    }
  }

  /** Elasticsearch serves the call made by the input at n, if it is one; a delete it may
      answer with 404. */
  predicate ServesAt(config: Config, inputs: seq<Input<Change, HttpReply>>, n: nat)
    requires n < |inputs|
  {
    var st := Exec(ES_SINK, config, Init(map[]), inputs[..n]);
    inputs[n].Go? && st.pc.Attempting? && st.pos < |st.log| && st.log[st.pos].Record? ==>
      || inputs[n].env.reply == Served
      || (inputs[n].env.reply == HttpReply.Rejected(404) && st.log[st.pos].action.Delete?)
  }

  predicate Serving(config: Config, inputs: seq<Input<Change, HttpReply>>)
  {
    forall n :: 0 <= n < |inputs| ==> ServesAt(config, inputs, n)
  }

  lemma {:induction false} IndexNeverThrows(config: Config, inputs: seq<Input<Change, HttpReply>>)
    requires Serving(config, inputs)
    ensures NoneThrew(Exec(ES_SINK, config, Init(map[]), inputs).trail)
  {
    if inputs != [] {
      var n := |inputs| - 1;
      forall k | 0 <= k < n
        ensures ServesAt(config, inputs[..n], k)
      {
        assert inputs[..n][..k] == inputs[..k] && ServesAt(config, inputs, k);
      }
      IndexNeverThrows(config, inputs[..n]);
      assert ServesAt(config, inputs, n);
      StepThrew(ES_SINK, config, Exec(ES_SINK, config, Init(map[]), inputs[..n]), inputs[n]);
    }
  }

  /** Where Elasticsearch serves every call, the same of the index. */
  lemma {:induction false} IndexSucceeds(config: Config, inputs: seq<Input<Change, HttpReply>>, id: string)
    requires Serving(config, inputs) && Schemas(inputs) && 1 <= config.maxRetries
    ensures var st := Exec(ES_SINK, config, Init(map[]), inputs);
            && NoneThrew(st.trail) && AllPass(st) && Clean(st, id)
            && (Consumed(st, id) ==> E.DocIn(st.sink, id) == RowOf(Version(st.log, id, |st.log|)))
  {
    IndexNeverThrows(config, inputs);
    RunPasses(ES_SINK, config, map[], inputs);
    AllPassIsClean(Exec(ES_SINK, config, Init(map[]), inputs), id);
    E.Converges(config, inputs, id);
  }

  predicate NoneUnreadable(log: seq<Message<Notice>>)
  {
    forall o :: 0 <= o < |log| && log[o].Record? ==> !log[o].action.Unreadable?
  }

  lemma {:induction false} NoticesNeverThrow(config: Config, inputs: seq<Input<Notice, Reply>>)
    requires Answering(inputs) && NoneUnreadable(Exec(NOTIFY_SINK, config, N.QUIET, inputs).log)
    ensures NoneThrew(Exec(NOTIFY_SINK, config, N.QUIET, inputs).trail)
  {
    if inputs != [] {
      var n := |inputs| - 1;
      var st := Exec(NOTIFY_SINK, config, N.QUIET, inputs[..n]);
      LogsGrow(NOTIFY_SINK, config, N.QUIET, inputs);
      assert forall o :: 0 <= o < |st.log| ==> st.log[o] == Exec(NOTIFY_SINK, config, N.QUIET, inputs).log[o];
      NoticesNeverThrow(config, inputs[..n]);
      StepThrew(NOTIFY_SINK, config, st, inputs[n]);
    }
  }

  lemma {:induction false} CallsAreAnswered(
      config: Config, inputs: seq<Input<Notice, Reply>>, id: string, status: string)
    requires Answering(inputs)
    ensures var calls := N.Calls(config, inputs, id, status);
            forall i :: 0 <= i < |calls| ==> calls[i].answered
  {
    if inputs != [] {
      var n := |inputs| - 1;
      CallsAreAnswered(config, inputs[..n], id, status);
      var call := N.CallIn(Exec(NOTIFY_SINK, config, N.QUIET, inputs[..n]), inputs[n], id, status);
      assert N.Calls(config, inputs, id, status)
          == N.Calls(config, inputs[..n], id, status) + if call.Some? then [call.value] else [];
    }
  }

  /** Where Redis answers, schemas can be had and statuses can be read, no attempt of the
      notifier throws, whether or not the key was set already, and every notification
      that a message below the position asks for has been emailed: exactly once, if
      it was never called for again after its key had lapsed. */
  lemma {:induction false} EachGetsOne(
      config: Config, inputs: seq<Input<Notice, Reply>>, id: string, status: string, o: nat)
    requires Answering(inputs) && Schemas(inputs) && 1 <= config.maxRetries && Announced(status)
    requires var st := Exec(NOTIFY_SINK, config, N.QUIET, inputs);
             N.Proper(st.log) && NoneUnreadable(st.log) && o < st.pos && o < |st.log| && N.Asks(st.log[o], id, status)
    ensures var st := Exec(NOTIFY_SINK, config, N.QUIET, inputs);
            var sent := N.Emails(N.ClaimsOf(st.sink.claims, id, status));
            && NoneThrew(st.trail) && AllPass(st) && 0 < sent
            && (N.Prompt(N.Calls(config, inputs, id, status)) ==> sent == 1)
  {
    var st := Exec(NOTIFY_SINK, config, N.QUIET, inputs);
    NoticesNeverThrow(config, inputs);
    RunPasses(NOTIFY_SINK, config, N.QUIET.sink, inputs);
    forall fate | Finished(o, fate) in st.trail
      ensures fate == Succeeded
    {
      var i :| 0 <= i < |st.trail| && st.trail[i] == Finished(o, fate);
      assert MarkPasses(st.log, st.trail[i]);
    }
    N.AtLeastOnce(config, inputs, id, status, o);
    CallsAreAnswered(config, inputs, id, status);
    N.ClaimsAreWinners(config, inputs, id, status);
    N.FirstWins(N.Calls(config, inputs, id, status));
    N.MissedExactly(config, inputs, id, status);
    N.ExactlyOnce(config, inputs, id, status);
  }

  /** A record whose status the notifier cannot read is never a success: it is retried to
      the end and given up. */
  lemma {:induction false} UnreadableNeverSucceeds(config: Config, inputs: seq<Input<Notice, Reply>>, o: nat)
    requires var st := Exec(NOTIFY_SINK, config, N.QUIET, inputs);
             o < |st.log| && st.log[o].Record? && st.log[o].action.Unreadable?
    ensures Finished(o, Succeeded) !in Exec(NOTIFY_SINK, config, N.QUIET, inputs).trail
    ensures !N.Achieved(Exec(NOTIFY_SINK, config, N.QUIET, inputs), o)
  {
    if inputs != [] {
      var n := |inputs| - 1;
      var st, next := Exec(NOTIFY_SINK, config, N.QUIET, inputs[..n]), Exec(NOTIFY_SINK, config, N.QUIET, inputs);
      LogsGrow(NOTIFY_SINK, config, N.QUIET, inputs);
      N.RunHeeds(config, inputs[..n], "", "");
      if N.Achieved(next, o) { N.StepAchieves(config, st, inputs[n], o); }
      if o < |st.log| {
        assert st.log[o] == next.log[o];
        UnreadableNeverSucceeds(config, inputs[..n], o);
      }
    }
  }
}
