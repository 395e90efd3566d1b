/** Retrying against Redis: idempotence of the retry loop, and when the guard
    loses an update. */
module RedisRetries {
  import opened Json
  import opened Options
  import opened LuaNumber
  import opened Records
  import opened RedisStore
  import opened Protocol
  import opened SinkSpecs
  import opened History

  datatype Try = Try(reply: Reply, at: int)

  function Retried(s: Store, change: Change, tries: seq<Try>): Store
  {
    if tries == [] then s
    else
      var n := |tries| - 1;
      RedisProcess(Retried(s, change, tries[..n]), change, tries[n].reply, tries[n].at).sink
  }

  predicate InOrder(tries: seq<Try>)
  {
    forall i, j :: 0 <= i < j < |tries| ==> tries[i].at <= tries[j].at
  }

  /** The store after exactly one undisturbed call, made at the time of some try. */
  predicate AppliedOnce(s: Store, change: Change, tries: seq<Try>, result: Store)
  {
    exists i :: 0 <= i < |tries| && result == RedisProcess(s, change, Answered, tries[i].at).sink
  }

  /** After an accepted application the same event is stale until it lapses; then it
      is accepted again, and leaves what a single application at that time would. */
  lemma AgainIsOnce(s: Store, change: Change, at: int, again: Try)
    requires at <= again.at && RedisProcess(s, change, Answered, at).sink != s
    ensures var once := RedisProcess(s, change, Answered, at).sink;
            var twice := RedisProcess(once, change, again.reply, again.at).sink;
            twice == once || twice == RedisProcess(s, change, Answered, again.at).sink
  {
    assert |LsnKey(change.id)| != |OrderKey(change.id)|;
  }

  lemma FirstEffect(s: Store, change: Change, attempt: Try)
    ensures var after := RedisProcess(s, change, attempt.reply, attempt.at).sink;
            after == s || after == RedisProcess(s, change, Answered, attempt.at).sink
  {
  }

  /** Retry idempotence: whatever mix of unreached calls, lost replies and answers
      the loop goes through, and however long it takes, the store (expiry times
      included) is as if the event had been applied exactly once, at the time of one
      of the tries, or not at all. */
  lemma {:induction false} RetryIdempotent(s: Store, change: Change, tries: seq<Try>)
    requires InOrder(tries)
    ensures Retried(s, change, tries) == s || AppliedOnce(s, change, tries, Retried(s, change, tries))
  {
    if tries != [] {
      var n := |tries| - 1;
      var before := Retried(s, change, tries[..n]);
      assert forall i :: 0 <= i < n ==> tries[..n][i] == tries[i];
      RetryIdempotent(s, change, tries[..n]);
      if before == s {
        FirstEffect(s, change, tries[n]);
      } else {
        var i :| 0 <= i < n && before == RedisProcess(s, change, Answered, tries[..n][i].at).sink;
        AgainIsOnce(s, change, tries[i].at, tries[n]);
      }
    }
  }

  /** When the last try got through, answered or not, the order's register holds
      an LSN that is not older than the event's as a double, and up to 2^53 not
      older as an integer. So it does when the loop reports success. */
  lemma {:induction false} SuccessIsStored(s: Store, change: Change, tries: seq<Try>)
    requires !change.Ignored? && tries != [] && Paired(s, change.id)
    requires !tries[|tries| - 1].reply.NotReached?
    ensures var slot := SlotAt(Retried(s, change, tries), change.id, tries[|tries| - 1].at);
            && slot.Some? && Round(change.lsn) <= Round(slot.value.lsn)
            && (-TWO_53 <= change.lsn <= TWO_53 && -TWO_53 <= slot.value.lsn <= TWO_53 ==>
                  change.lsn <= slot.value.lsn)
  {
    var n := |tries| - 1;
    RetriedPaired(s, change, tries[..n]);
    ScriptIsAbsorb(Retried(s, change, tries[..n]), change.id, EventIn(change), tries[n].at);
    var slot := SlotAt(Retried(s, change, tries), change.id, tries[n].at).value;
    if -TWO_53 <= change.lsn <= TWO_53 && -TWO_53 <= slot.lsn <= TWO_53 {
      ExactUpTo53Bits(change.lsn);
      ExactUpTo53Bits(slot.lsn);
    }
  }

  lemma {:induction false} RetriedPaired(s: Store, change: Change, tries: seq<Try>)
    requires !change.Ignored? && Paired(s, change.id)
    ensures Paired(Retried(s, change, tries), change.id)
  {
    if tries != [] {
      var n := |tries| - 1;
      RetriedPaired(s, change, tries[..n]);
      ScriptIsAbsorb(Retried(s, change, tries[..n]), change.id, EventIn(change), tries[n].at);
    }
  }

  // ---- when the guard loses an update --------------------------------------

  /** The register after one undisturbed pass over the first m messages. */
  function Guarded(log: Log, id: string, m: nat): Option<Slot>
    requires m <= |log|
  {
    if m == 0 then None
    else
      match EventOf(log[m - 1], id)
      case Some(event) => Absorb(Guarded(log, id, m - 1), event)
      case None => Guarded(log, id, m - 1)
  }

  /** Every event of the order is its first, repeats the one before it, or has an
      LSN that is greater as a double. */
  predicate StepwiseNewer(log: Log, id: string)
  {
    forall j {:trigger log[j]} :: 0 <= j < |log| && EventOf(log[j], id).Some? && Version(log, id, j).Some? ==>
      || EventOf(log[j], id) == Version(log, id, j)
      || Round(Version(log, id, j).value.lsn) < Round(EventOf(log[j], id).value.lsn)
  }

  predicate Faithful(log: Log, id: string)
  {
    forall m: nat {:trigger Guarded(log, id, m)} :: m <= |log| ==> Guarded(log, id, m) == Version(log, id, m)
  }

  /** Exactly when the guard never drops an update: the register follows the log
      at every point if and only if each LSN is newer as a double than the one
      before it. Beyond 2^53 strictly increasing LSNs are not enough. */
  lemma GuardFollowsLog(log: Log, id: string)
    ensures Faithful(log, id) <==> StepwiseNewer(log, id)
  {
    if StepwiseNewer(log, id) {
      forall m: nat {:trigger Guarded(log, id, m)} | m <= |log|
        ensures Guarded(log, id, m) == Version(log, id, m)
      {
        NewerFollows(log, id, m);
      }
    }
    if Faithful(log, id) {
      forall j {:trigger log[j]} | 0 <= j < |log| && EventOf(log[j], id).Some? && Version(log, id, j).Some?
        ensures EventOf(log[j], id) == Version(log, id, j)
             || Round(Version(log, id, j).value.lsn) < Round(EventOf(log[j], id).value.lsn)
      {
        assert Guarded(log, id, j) == Version(log, id, j);
        assert Guarded(log, id, j + 1) == Version(log, id, j + 1);
      }
    }
  }

  lemma {:induction false} NewerFollows(log: Log, id: string, m: nat)
    requires m <= |log| && StepwiseNewer(log, id)
    ensures Guarded(log, id, m) == Version(log, id, m)
  {
    if m != 0 {
      NewerFollows(log, id, m - 1);
      assert log[m - 1] == log[m - 1];
    }
  }

  /** Up to 2^53, strictly increasing LSNs are all it takes. */
  lemma ExactLsnsRise(log: Log, id: string)
    requires forall i :: 0 <= i < |log| && EventOf(log[i], id).Some? ==>
               -TWO_53 <= EventOf(log[i], id).value.lsn <= TWO_53
    requires forall i, j :: 0 <= i < j < |log| && EventOf(log[i], id).Some? && EventOf(log[j], id).Some? ==>
               EventOf(log[i], id).value.lsn < EventOf(log[j], id).value.lsn
    ensures Rising(log, id) && StepwiseNewer(log, id)
  {
    forall i | 0 <= i < |log| && EventOf(log[i], id).Some?
      ensures Round(EventOf(log[i], id).value.lsn) == EventOf(log[i], id).value.lsn
    {
      ExactUpTo53Bits(EventOf(log[i], id).value.lsn);
    }
    forall j {:trigger log[j]} | 0 <= j < |log| && EventOf(log[j], id).Some? && Version(log, id, j).Some?
      ensures Round(Version(log, id, j).value.lsn) < Round(EventOf(log[j], id).value.lsn)
    {
      var e := LastEvent(log, id, j);
    }
  }

  function Two(first: Change, second: Change): Log
  {
    [Record(first, true, true), Record(second, true, true)]
  }

  /** One LSN past 2^53 an update is dropped: the cache keeps the older row. */
  lemma UpdateDropped(id: string, older: Json, newer: Json)
    ensures var log: Log := Two(Upsert(id, older, TWO_53), Upsert(id, newer, TWO_53 + 1));
            Guarded(log, id, 2) == Some(Slot(TWO_53, Some(older))) != Version(log, id, 2)
  {
    TightAt53Bits();
    var log: Log := Two(Upsert(id, older, TWO_53), Upsert(id, newer, TWO_53 + 1));
    assert Guarded(log, id, 1) == Some(Slot(TWO_53, Some(older)));
    assert Version(log, id, 2) == Some(Slot(TWO_53 + 1, Some(newer)));
  }
}
