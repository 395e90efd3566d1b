/** Notifications over whole runs of the notifier's consumer: which calls win the
    right to send an email, and how many emails go out. */
module NotifierRuns {
  import opened Options
  import opened Records
  import opened RedisStore
  import opened Protocol
  import opened Offsets
  import opened SinkSpecs

  type Notifying = State<Mailroom, Notice>

  const QUIET: Notifying := Init(Mailroom(map[], []))

  predicate Asks(message: Message<Notice>, id: string, status: string)
  {
    message.Record? && message.action == Mail(id, status)
  }

  /** Only the two announced statuses are ever mailed (see `Records.NoticeOf`). */
  predicate Proper(log: seq<Message<Notice>>)
  {
    forall i :: 0 <= i < |log| && log[i].Record? && log[i].action.Mail? ==> Announced(log[i].action.status)
  }

  /** A SET NX for one (order, status) that Redis executed, and whether the notifier
      got its reply. */
  datatype Call = Call(at: int, answered: bool)

  /** The call that a step of the run makes, if it makes one for the pair. */
  function CallIn(st: Notifying, input: Input<Notice, Reply>, id: string, status: string): Option<Call>
  {
    if input.Go? && st.pc.Attempting? && st.pos < |st.log| && Asks(st.log[st.pos], id, status)
       && !input.env.reply.NotReached?
    then Some(Call(st.now, input.env.reply.Answered?))
    else None
  }

  function Calls(config: Config, inputs: seq<Input<Notice, Reply>>, id: string, status: string): seq<Call>
  {
    if inputs == [] then []
    else
      var n := |inputs| - 1;
      var call := CallIn(Exec(NOTIFY_SINK, config, QUIET, inputs[..n]), inputs[n], id, status);
      Calls(config, inputs[..n], id, status) + if call.Some? then [call.value] else []
  }

  /** The reference: a call wins if and only if no call has won in the 86400 s
      before it. */
  function Winners(calls: seq<Call>): seq<Call>
  {
    if calls == [] then []
    else
      var before, c := Winners(calls[..|calls| - 1]), calls[|calls| - 1];
      if before != [] && c.at < before[|before| - 1].at + TTL then before else before + [c]
  }

  /** The claims Redis granted for one pair. */
  function ClaimsOf(claims: seq<Claimed>, id: string, status: string): seq<Call>
  {
    if claims == [] then []
    else
      var c := claims[|claims| - 1];
      ClaimsOf(claims[..|claims| - 1], id, status)
      + if c.id == id && c.status == status then [Call(c.at, c.emailed)] else []
  }

  /** An email goes out exactly for a claim whose reply came back. */
  function Emails(claims: seq<Call>): nat
  {
    if claims == [] then 0
    else Emails(claims[..|claims| - 1]) + if claims[|claims| - 1].answered then 1 else 0
  }

  // ---- the claims are the winners ------------------------------------------

  predicate Tallied(m: Mailroom, calls: seq<Call>, id: string, status: string)
  {
    var won, key := Winners(calls), EmailKey(id, status);
    && ClaimsOf(m.claims, id, status) == won
    && (won == [] ==> key !in m.store)
    && (won != [] ==> key in m.store && m.store[key].expiresAt == won[|won| - 1].at + TTL)
  }

  lemma WinnersSnoc(calls: seq<Call>, c: Call)
    ensures var won := Winners(calls);
            Winners(calls + [c]) == if won != [] && c.at < won[|won| - 1].at + TTL then won else won + [c]
  {
    assert (calls + [c])[..|calls|] == calls;
  }

  lemma ClaimsSnoc(claims: seq<Claimed>, c: Claimed, id: string, status: string)
    ensures ClaimsOf(claims + [c], id, status)
         == ClaimsOf(claims, id, status) + if c.id == id && c.status == status then [Call(c.at, c.emailed)] else []
  {
    assert (claims + [c])[..|claims|] == claims;
  }

  lemma OwnCall(m: Mailroom, calls: seq<Call>, reply: Reply, now: int, id: string, status: string)
    requires Tallied(m, calls, id, status) && !reply.NotReached?
    ensures Tallied(NotifyProcess(m, Mail(id, status), reply, now).sink,
                    calls + [Call(now, reply.Answered?)], id, status)
  {
    WinnersSnoc(calls, Call(now, reply.Answered?));
    ClaimsSnoc(m.claims, Claimed(id, status, now, reply.Answered?), id, status);
  }

  lemma OtherCall(m: Mailroom, calls: seq<Call>, notice: Notice, reply: Reply, now: int, id: string, status: string)
    requires Tallied(m, calls, id, status) && Announced(status)
    requires notice.Mail? ==> Announced(notice.status)
    requires notice != Mail(id, status) || reply.NotReached?
    ensures Tallied(NotifyProcess(m, notice, reply, now).sink, calls, id, status)
  {
    var after := NotifyProcess(m, notice, reply, now).sink;
    if after != m {
      ClaimsSnoc(m.claims, Claimed(notice.id, notice.status, now, reply.Answered?), id, status);
      if EmailKey(notice.id, notice.status) == EmailKey(id, status) {
        EmailKeyInjective(notice.id, notice.status, id, status);
      }
    }
  }

  predicate Calling(st: Notifying, input: Input<Notice, Reply>)
  {
    input.Go? && st.pc.Attempting? && st.pos < |st.log| && st.log[st.pos].Record?
  }

  lemma StepMailroom(config: Config, st: Notifying, input: Input<Notice, Reply>)
    ensures Step(NOTIFY_SINK, config, st, input).sink
         == if Calling(st, input) then NotifyProcess(st.sink, st.log[st.pos].action, input.env.reply, st.now).sink
            else st.sink
  {
  }

  lemma StepTallies(
      config: Config, st: Notifying, input: Input<Notice, Reply>, calls: seq<Call>, id: string, status: string)
    requires Proper(st.log) && Announced(status) && Tallied(st.sink, calls, id, status)
    ensures var call := CallIn(st, input, id, status);
            Tallied(Step(NOTIFY_SINK, config, st, input).sink,
                    calls + if call.Some? then [call.value] else [], id, status)
  {
    assert calls + [] == calls;
    StepMailroom(config, st, input);
    if Calling(st, input) {
      var notice, reply := st.log[st.pos].action, input.env.reply;
      if notice == Mail(id, status) && !reply.NotReached? {
        OwnCall(st.sink, calls, reply, st.now, id, status);
      } else {
        OtherCall(st.sink, calls, notice, reply, st.now, id, status);
      }
    }
  }

  lemma ProperBefore(config: Config, st: Notifying, input: Input<Notice, Reply>)
    requires Proper(Step(NOTIFY_SINK, config, st, input).log)
    ensures Proper(st.log)
  {
    assert forall i :: 0 <= i < |st.log| ==> Step(NOTIFY_SINK, config, st, input).log[i] == st.log[i];
  }

  /** Over every run, whatever is retried, replayed, lost, dead-lettered or expires:
      the claims granted for a pair are exactly the winners among its calls. */
  lemma {:induction false} ClaimsAreWinners(
      config: Config, inputs: seq<Input<Notice, Reply>>, id: string, status: string)
    requires Proper(Exec(NOTIFY_SINK, config, QUIET, inputs).log) && Announced(status)
    ensures Tallied(Exec(NOTIFY_SINK, config, QUIET, inputs).sink, Calls(config, inputs, id, status), id, status)
  {
    if inputs != [] {
      var n := |inputs| - 1;
      var st := Exec(NOTIFY_SINK, config, QUIET, inputs[..n]);
      ProperBefore(config, st, inputs[n]);
      ClaimsAreWinners(config, inputs[..n], id, status);
      StepTallies(config, st, inputs[n], Calls(config, inputs[..n], id, status), id, status);
    }
  }

  // ---- spacing -----------------------------------------------------------

  lemma {:induction false} WinnersSpaced(calls: seq<Call>)
    ensures forall i, j :: 0 <= i < j < |Winners(calls)| ==> Winners(calls)[i].at + TTL <= Winners(calls)[j].at
  {
    if calls != [] {
      WinnersSpaced(calls[..|calls| - 1]);
    }
  }

  /** In every run two emails for the same order and status are at least 86400 s
      apart. */
  lemma {:induction false} RunSpaces(config: Config, inputs: seq<Input<Notice, Reply>>, id: string, status: string)
    requires Proper(Exec(NOTIFY_SINK, config, QUIET, inputs).log) && Announced(status)
    ensures var claims := ClaimsOf(Exec(NOTIFY_SINK, config, QUIET, inputs).sink.claims, id, status);
            forall i, j :: 0 <= i < j < |claims| ==> claims[i].at + TTL <= claims[j].at
  {
    ClaimsAreWinners(config, inputs, id, status);
    WinnersSpaced(Calls(config, inputs, id, status));
  }

  // ---- at least once -------------------------------------------------------

  /** The loop has been done with the message at o by a success, or is about to be. */
  predicate Achieved(st: Notifying, o: nat)
  {
    Finished(o, Succeeded) in st.trail || (st.pc == Committing(Succeeded) && o == st.pos)
  }

  /** A request that has been achieved has been called for. */
  predicate Heeded(st: Notifying, calls: seq<Call>, id: string, status: string)
  {
    forall o :: 0 <= o < |st.log| && Achieved(st, o) && Asks(st.log[o], id, status) ==> calls != []
  }

  ghost predicate AchievedInLog(st: Notifying)
  {
    forall o: nat :: Achieved(st, o) ==> o < |st.log|
  }

  /** Only a call that does not throw achieves a message. */
  lemma AdvanceAchieves(config: Config, st: Notifying, env: Env<Reply>, o: nat)
    requires Achieved(Advance(NOTIFY_SINK, config, st, env), o)
    ensures || Achieved(st, o)
            || (&& st.pc.Attempting? && o == st.pos < |st.log| && st.log[o].Record?
                && !NotifyProcess(st.sink, st.log[o].action, env.reply, st.now).threw)
  {
    var mark := AdvanceMark(NOTIFY_SINK, config, st, env);
  }

  lemma StepAchieves(config: Config, st: Notifying, input: Input<Notice, Reply>, o: nat)
    requires Achieved(Step(NOTIFY_SINK, config, st, input), o)
    ensures || Achieved(st, o)
            || (&& Calling(st, input) && o == st.pos
                && !NotifyProcess(st.sink, st.log[o].action, input.env.reply, st.now).threw)
  {
    if input.Go? {
      AdvanceAchieves(config, st, input.env, o);
    } else {
      assert Achieved(st, o);
    }
  }

  lemma StepHeeds(
      config: Config, st: Notifying, input: Input<Notice, Reply>, calls: seq<Call>, id: string, status: string)
    requires AchievedInLog(st) && Heeded(st, calls, id, status)
    ensures var call := CallIn(st, input, id, status);
            && AchievedInLog(Step(NOTIFY_SINK, config, st, input))
            && Heeded(Step(NOTIFY_SINK, config, st, input), calls + if call.Some? then [call.value] else [], id, status)
  {
    var next := Step(NOTIFY_SINK, config, st, input);
    assert forall o :: 0 <= o < |st.log| ==> next.log[o] == st.log[o];
    forall o: nat | Achieved(next, o)
      ensures o < |st.log|
      ensures Asks(st.log[o], id, status) ==> Achieved(st, o) || CallIn(st, input, id, status).Some?
    {
      StepAchieves(config, st, input, o);
    }
  }

  lemma {:induction false} RunHeeds(config: Config, inputs: seq<Input<Notice, Reply>>, id: string, status: string)
    ensures AchievedInLog(Exec(NOTIFY_SINK, config, QUIET, inputs))
    ensures Heeded(Exec(NOTIFY_SINK, config, QUIET, inputs), Calls(config, inputs, id, status), id, status)
  {
    if inputs != [] {
      var n := |inputs| - 1;
      RunHeeds(config, inputs[..n], id, status);
      StepHeeds(config, Exec(NOTIFY_SINK, config, QUIET, inputs[..n]), inputs[n],
                Calls(config, inputs[..n], id, status), id, status);
    }
  }

  predicate Asked(log: seq<Message<Notice>>, id: string, status: string)
  {
    exists o :: 0 <= o < |log| && Asks(log[o], id, status)
  }

  lemma AskedBefore(log: seq<Message<Notice>>, longer: seq<Message<Notice>>, id: string, status: string)
    requires log <= longer && Asked(log, id, status)
    ensures Asked(longer, id, status)
  {
    var o :| 0 <= o < |log| && Asks(log[o], id, status);
    assert longer[o] == log[o];
  }

  /** Nobody calls for a notification that no message asks for. */
  lemma {:induction false} CallsAreAsked(config: Config, inputs: seq<Input<Notice, Reply>>, id: string, status: string)
    requires Calls(config, inputs, id, status) != []
    ensures Asked(Exec(NOTIFY_SINK, config, QUIET, inputs).log, id, status)
  {
    var n := |inputs| - 1;
    var st := Exec(NOTIFY_SINK, config, QUIET, inputs[..n]);
    RunKeepsSound(NOTIFY_SINK, config, QUIET, inputs[..n]);
    StepKeepsSound(NOTIFY_SINK, config, st, inputs[n]);
    if CallIn(st, inputs[n], id, status).None? {
      CallsAreAsked(config, inputs[..n], id, status);
    }
    AskedBefore(st.log, Exec(NOTIFY_SINK, config, QUIET, inputs).log, id, status);
  }

  /** At least once, over runs of any length: a request below the position has been
      claimed, unless it was given up after all its attempts; and if any pass ended
      in a success, it has been claimed whatever became of it in others. */
  lemma {:induction false} AtLeastOnce(
      config: Config, inputs: seq<Input<Notice, Reply>>, id: string, status: string, o: nat)
    requires var st := Exec(NOTIFY_SINK, config, QUIET, inputs);
             Proper(st.log) && o < st.pos && o < |st.log| && Asks(st.log[o], id, status)
    requires Announced(status)
    ensures var st := Exec(NOTIFY_SINK, config, QUIET, inputs);
            && (ClaimsOf(st.sink.claims, id, status) == [] ==>
                  Finished(o, DeadLettered) in st.trail || Finished(o, HandoffFailed) in st.trail)
            && (Finished(o, Succeeded) in st.trail ==> ClaimsOf(st.sink.claims, id, status) != [])
  {
    RunHeeds(config, inputs, id, status);
    ClaimsAreWinners(config, inputs, id, status);
    FirstWins(Calls(config, inputs, id, status));
    RunKeepsSound(NOTIFY_SINK, config, QUIET, inputs);
    var st := Exec(NOTIFY_SINK, config, QUIET, inputs);
    var fate := FateOf(st, o);
    assert Finished(o, Succeeded) in st.trail ==> Achieved(st, o);
    assert fate == Succeeded || fate == DeadLettered || fate == HandoffFailed;
  }

  lemma FateOf(st: Notifying, o: nat) returns (fate: Fate)
    requires Sound(st) && o < st.pos
    ensures Finished(o, fate) in st.trail
  {
    assert Accounted(st.trail, o);
    var i :| 0 <= i < |st.trail| && st.trail[i].Finished? && st.trail[i].offset == o;
    fate := st.trail[i].fate;
  }

  // ---- exactly once --------------------------------------------------------

  /** All calls fall within the life of the key that the first one sets. */
  predicate Prompt(calls: seq<Call>)
  {
    forall i :: 0 <= i < |calls| ==> calls[i].at < calls[0].at + TTL
  }

  lemma {:induction false} FirstWins(calls: seq<Call>)
    ensures calls != [] ==> Winners(calls) != [] && Winners(calls)[0] == calls[0]
    ensures calls != [] && Prompt(calls) ==> Winners(calls) == [calls[0]]
    ensures |Winners(calls)| == 1 ==> Prompt(calls)
  {
    if calls != [] {
      var n := |calls| - 1;
      FirstWins(calls[..n]);
      assert forall i :: 0 <= i < n ==> calls[..n][i] == calls[i];
      if n == 0 {
        assert Winners(calls[..0]) == [];
      } else {
        assert Prompt(calls) ==> Prompt(calls[..n]);
        assert |Winners(calls)| == 1 ==> Prompt(calls[..n]);
      }
    }
  }

  /** Exactly once: a pair that was called for at all is claimed exactly once if and
      only if all its calls fall within 86400 s of the first; and then its email is
      sent, once, if and only if the first call was answered. */
  lemma {:induction false} ExactlyOnce(config: Config, inputs: seq<Input<Notice, Reply>>, id: string, status: string)
    requires Proper(Exec(NOTIFY_SINK, config, QUIET, inputs).log) && Announced(status)
    requires Calls(config, inputs, id, status) != []
    ensures var calls := Calls(config, inputs, id, status);
            var claims := ClaimsOf(Exec(NOTIFY_SINK, config, QUIET, inputs).sink.claims, id, status);
            && (|claims| == 1 <==> Prompt(calls))
            && (Prompt(calls) ==> Emails(claims) == if calls[0].answered then 1 else 0)
  {
    var calls := Calls(config, inputs, id, status);
    ClaimsAreWinners(config, inputs, id, status);
    FirstWins(calls);
    if Prompt(calls) {
      assert [calls[0]][..0] == [];
      assert Emails([]) == 0;
    }
  }

  predicate NoneAnswered(claims: seq<Call>)
  {
    forall i :: 0 <= i < |claims| ==> !claims[i].answered
  }

  lemma {:induction false} NoEmails(claims: seq<Call>)
    ensures Emails(claims) == 0 <==> NoneAnswered(claims)
  {
    if claims != [] {
      NoEmails(claims[..|claims| - 1]);
    }
  }

  /** A notification is missed, over any run of any length, if and only if every
      call that won was one whose reply was lost; where the calls fall within
      86400 s of each other, if and only if the first call lost its reply or no
      call ever reached Redis. */
  lemma {:induction false} MissedExactly(config: Config, inputs: seq<Input<Notice, Reply>>, id: string, status: string)
    requires Proper(Exec(NOTIFY_SINK, config, QUIET, inputs).log) && Announced(status)
    ensures var calls := Calls(config, inputs, id, status);
            var sent := Emails(ClaimsOf(Exec(NOTIFY_SINK, config, QUIET, inputs).sink.claims, id, status));
            && (sent == 0 <==> NoneAnswered(Winners(calls)))
            && (Prompt(calls) ==> (sent == 0 <==> calls == [] || !calls[0].answered))
  {
    ClaimsAreWinners(config, inputs, id, status);
    var calls := Calls(config, inputs, id, status);
    var claims := ClaimsOf(Exec(NOTIFY_SINK, config, QUIET, inputs).sink.claims, id, status);
    assert claims == Winners(calls);
    NoEmails(claims);
    FirstWins(calls);
  }
}
