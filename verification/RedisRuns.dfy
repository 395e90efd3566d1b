/** The Redis cache over whole runs of its consumer: what is cached for an order
    is always a version the row really had, and as new as every event of the
    order the consumer has stored; at the end of the log it is the fold of the
    log. */
module RedisRuns {
  import opened Options
  import opened LuaNumber
  import opened Records
  import opened RedisStore
  import opened Protocol
  import opened Offsets
  import opened SinkSpecs
  import opened History

  type Updater = State<Store, Change>

  /** At least as new as an event: later in the log, or not older to Lua. */
  predicate AsNew(log: Log, id: string, o: nat, e: nat)
    requires o < |log| && EventOf(log[o], id).Some?
    requires e < |log| && EventOf(log[e], id).Some?
  {
    o <= e || Round(EventOf(log[o], id).value.lsn) <= Round(EventOf(log[e], id).value.lsn)
  }

  /** The slot is the event at e, and no stored event of the order is newer. */
  predicate HeldFrom(st: Updater, id: string, slot: Slot, e: nat)
  {
    && e < st.high && e < |st.log| && EventOf(st.log[e], id) == Some(slot)
    && forall o: nat :: o < |st.log| && Stored(st, o) && EventOf(st.log[o], id).Some? ==> AsNew(st.log, id, o, e)
  }

  /** The register holds an event the row really had, as new as every event the
      consumer has stored and is past; and a stored event has left an entry. */
  predicate Tracks(st: Updater, id: string)
  {
    var slot := SlotAt(st.sink, id, st.now);
    && Paired(st.sink, id)
    && (slot.Some? ==> exists e: nat :: e < st.high && HeldFrom(st, id, slot.value, e))
    && (forall o: nat :: o < |st.log| && Stored(st, o) && EventOf(st.log[o], id).Some? ==> LsnKey(id) in st.sink)
  }

  /** One script of the order's own event: the register becomes that event, or
      already holds one that is not older. */
  lemma OwnScript(st: Updater, id: string, s: Store) returns (e: nat)
    requires Tracks(st, id) && st.pos < st.high && st.pos < |st.log| && EventOf(st.log[st.pos], id).Some?
    requires s == Script(st.sink, id, EventOf(st.log[st.pos], id).value, st.now)
    requires forall o: nat :: Stored(st, o) ==> o < st.pos
    ensures var slot := SlotAt(s, id, st.now);
            && Paired(s, id) && LsnKey(id) in s && slot.Some?
            && HeldFrom(st, id, slot.value, e) && AsNew(st.log, id, st.pos, e)
  {
    ScriptIsAbsorb(st.sink, id, EventOf(st.log[st.pos], id).value, st.now);
    var slot := SlotAt(s, id, st.now).value;
    if slot == EventOf(st.log[st.pos], id).value {
      e := st.pos;
    } else {
      e :| e < st.high && HeldFrom(st, id, slot, e);
    }
  }

  lemma AttemptTracks(config: Config, st: Updater, env: Env<Reply>, id: string)
    requires Sound(st) && Tracks(st, id) && st.pc.Attempting? && Isolated(st.log, id)
    ensures Tracks(Advance(REDIS_SINK, config, st, env), id)
  {
    var next := Advance(REDIS_SINK, config, st, env);
    var change := st.log[st.pos].action;
    var after := RedisProcess(st.sink, change, env.reply, st.now);
    assert next.sink == after.sink && (next.pc == Committing(Succeeded) <==> !after.threw);
    forall o: nat | Stored(next, o)
      ensures Stored(st, o) || (o == st.pos && !after.threw)
    {
      AdvanceStored(REDIS_SINK, config, st, env, o);
    }
    var was, slot := SlotAt(st.sink, id, st.now), SlotAt(after.sink, id, st.now);
    if !change.Ignored? && !env.reply.NotReached? && change.id == id {
      var e := OwnScript(st, id, after.sink);
      assert HeldFrom(next, id, slot.value, e);
    } else {
      if !change.Ignored? && !env.reply.NotReached? {
        ScriptElsewhere(st.sink, change.id, EventIn(change), st.now, id, st.now);
      }
      assert slot == was;
      if slot.Some? {
        var e: nat :| e < st.high && HeldFrom(st, id, slot.value, e);
        assert HeldFrom(next, id, slot.value, e);
      }
    }
  }

  /** Steps that leave the store alone and store nothing new. */
  lemma IdleTracks(st: Updater, next: Updater, id: string)
    requires Sound(st) && Tracks(st, id) && next.sink == st.sink && st.log <= next.log
    requires st.high <= next.high && st.now <= next.now
    requires forall o: nat :: Stored(next, o) ==> Stored(st, o)
    ensures Tracks(next, id)
  {
    SlotLapses(st.sink, id, st.now, next.now);
    assert forall o :: 0 <= o < |st.log| ==> next.log[o] == st.log[o];
    var slot := SlotAt(next.sink, id, next.now);
    if slot.Some? {
      var e: nat :| e < st.high && HeldFrom(st, id, slot.value, e);
      assert HeldFrom(next, id, slot.value, e);
    }
  }

  lemma StepTracks(config: Config, st: Updater, input: Input<Change, Reply>, id: string)
    requires Sound(st) && Tracks(st, id) && Isolated(st.log, id)
    ensures Tracks(Step(REDIS_SINK, config, st, input), id)
  {
    if input.Go? && st.pc.Attempting? {
      AttemptTracks(config, st, input.env, id);
    } else {
      IdleStep(REDIS_SINK, config, st, input);
      IdleTracks(st, Step(REDIS_SINK, config, st, input), id);
    }
  }

  /** Over every run: any interleaving of deliveries, retries, lost replies,
      failed commits, dead letters, stops, crashes and expiries, starting empty. */
  lemma {:induction false} RunTracks(config: Config, inputs: seq<Input<Change, Reply>>, id: string)
    requires Isolated(Exec(REDIS_SINK, config, Init(map[]), inputs).log, id)
    ensures Sound(Exec(REDIS_SINK, config, Init(map[]), inputs))
    ensures Tracks(Exec(REDIS_SINK, config, Init(map[]), inputs), id)
  {
    RunKeepsSound(REDIS_SINK, config, Init(map[]), inputs);
    if inputs != [] {
      var n := |inputs| - 1;
      var st := Exec(REDIS_SINK, config, Init(map[]), inputs[..n]);
      RunKeepsSound(REDIS_SINK, config, Init(map[]), inputs[..n]);
      StepKeepsSound(REDIS_SINK, config, st, inputs[n]);
      LogBefore(st.log, Step(REDIS_SINK, config, st, inputs[n]).log, id);
      RunTracks(config, inputs[..n], id);
      StepTracks(config, st, inputs[n], id);
    }
  }

  /** An event of the order that the loop was last done with by a success. */
  predicate Succeeding(st: Updater, id: string, o: nat)
  {
    o < |st.log| && EventOf(st.log[o], id).Some? && LastFate(st.trail, o) == Some(Succeeded)
  }

  /** Freshness: a document found in the cache is, in every run, with expiry and
      crashes at any moment, the row of an event e of the order that the consumer
      has met, and as new as every event of the order below the position that was
      last passed by a success, whatever became of the others. Where LSNs rise,
      none of those comes after e in the log. */
  lemma {:induction false} CachedIsFresh(config: Config, inputs: seq<Input<Change, Reply>>, id: string)
    requires Isolated(Exec(REDIS_SINK, config, Init(map[]), inputs).log, id)
    ensures var st := Exec(REDIS_SINK, config, Init(map[]), inputs);
            && st.pos <= st.high <= |st.log|
            && (DocAt(st.sink, id, st.now).Some? ==>
                  exists e: nat ::
                    && e < st.high && EventOf(st.log[e], id).Some?
                    && EventOf(st.log[e], id).value.doc == DocAt(st.sink, id, st.now)
                    && (forall o: nat :: o < st.pos && Succeeding(st, id, o) ==> AsNew(st.log, id, o, e))
                    && (Rising(st.log, id) ==> forall o: nat :: o < st.pos && Succeeding(st, id, o) ==> o <= e))
  {
    RunTracks(config, inputs, id);
    var st := Exec(REDIS_SINK, config, Init(map[]), inputs);
    if DocAt(st.sink, id, st.now).Some? {
      var slot := SlotAt(st.sink, id, st.now);
      var e: nat :| e < st.high && HeldFrom(st, id, slot.value, e);
      forall o: nat | o < st.pos && Succeeding(st, id, o)
        ensures AsNew(st.log, id, o, e) && (Rising(st.log, id) ==> o <= e)
      {
        assert Stored(st, o);
      }
    }
  }

  /** Convergence: if the order's last event is its newest and none of its events
      was dead-lettered, then once all of them lie below the position its register
      is present if it has any event, and, unless it has lapsed, holds exactly the
      document (or tombstone) and LSN of the folded log. */
  lemma {:induction false} Converges(config: Config, inputs: seq<Input<Change, Reply>>, id: string)
    requires var st := Exec(REDIS_SINK, config, Init(map[]), inputs);
             Isolated(st.log, id) && LastIsNewest(st.log, id) && Clean(st, id) && Consumed(st, id)
    ensures var st := Exec(REDIS_SINK, config, Init(map[]), inputs);
            && Paired(st.sink, id)
            && (Version(st.log, id, |st.log|).Some? ==> LsnKey(id) in st.sink)
            && (Live(st.sink, LsnKey(id), st.now) ==> SlotAt(st.sink, id, st.now).Some?)
            && (SlotAt(st.sink, id, st.now).Some? ==>
                  SlotAt(st.sink, id, st.now) == Version(st.log, id, |st.log|))
            && (DocAt(st.sink, id, st.now).Some? ==>
                  DocAt(st.sink, id, st.now) == RowOf(Version(st.log, id, |st.log|)))
  {
    RunTracks(config, inputs, id);
    var st := Exec(REDIS_SINK, config, Init(map[]), inputs);
    var slot := SlotAt(st.sink, id, st.now);
    if slot.Some? {
      var e: nat :| e < st.high && HeldFrom(st, id, slot.value, e);
      VersionFrom(st.log, id, e, |st.log|);
    }
    if Version(st.log, id, |st.log|).Some? {
      var last := LastEvent(st.log, id, |st.log|);
      assert last < st.pos;
      CleanStored(st, id, last);
      if slot.Some? {
        var e: nat :| e < st.high && HeldFrom(st, id, slot.value, e);
        assert AsNew(st.log, id, last, e);
        if last <= e { VersionFrom(st.log, id, e, |st.log|); }
      }
    }
  }
}
