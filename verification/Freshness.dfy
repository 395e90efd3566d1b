/** When a GET is no older, in the order of the WAL, than anything the updater has
    consumed: if capture never went back, or if the order's cache entry never
    lapsed; and a run in which both happened and it is older. */
module Freshness {
  import opened Json
  import opened Options
  import opened LuaNumber
  import opened Records
  import opened RedisStore
  import opened Protocol
  import opened Offsets
  import opened SinkSpecs
  import opened History
  import opened Database
  import opened OrderApi
  import opened Uuid
  import opened EndToEnd
  import R = RedisRuns
  import G = GuardRuns

  /** Version m of the order is no older than any entry of it that the updater has
      consumed. */
  predicate NoOlder(w: World, id: string, m: nat)
  {
    && 0 < m <= |w.db.wal| && !w.db.wal[m - 1].Ignored?
    && forall o :: 0 <= o < w.updater.pos && o < |w.updater.log| && EventOf(w.updater.log[o], id).Some? ==>
         EventOf(w.updater.log[o], id).value.lsn <= w.db.wal[m - 1].lsn
  }

  // ---- without republication ---------------------------------------------------

  /** The records of the topic come in the order of their LSNs, from the part of the
      WAL that has been published. */
  predicate InWalOrder(w: World)
  {
    && w.sent <= |w.db.wal|
    && (forall o :: 0 <= o < |w.updater.log| && w.updater.log[o].Record? ==>
          w.updater.log[o].action in w.db.wal[..w.sent])
    && (forall i, j :: 0 <= i < j < |w.updater.log| && w.updater.log[i].Record? && w.updater.log[j].Record? ==>
          LsnOf(w.updater.log[i].action) < LsnOf(w.updater.log[j].action))
  }

  function LsnOf(change: Change): int
  {
    if change.Ignored? then 0 else change.lsn
  }

  lemma BeforeSent(w: World, i: nat)
    requires Folded(w.db) && InWalOrder(w) && w.sent < |w.db.wal|
    requires i < |w.updater.log| && w.updater.log[i].Record?
    ensures LsnOf(w.updater.log[i].action) < LsnOf(w.db.wal[w.sent])
  {
    var k :| 0 <= k < w.sent && w.db.wal[..w.sent][k] == w.updater.log[i].action;
    assert w.db.wal[k] == w.updater.log[i].action;
  }

  /** The same of a world that has published one entry more. */
  lemma EntryInOrder(w: World, next: World, utf8: bool)
    requires Folded(w.db) && InWalOrder(w) && w.sent < |w.db.wal|
    requires next.db == w.db && next.sent == w.sent + 1
    requires next.updater.log == w.updater.log + [Record(w.db.wal[w.sent], true, utf8)]
    ensures InWalOrder(next)
  {
    assert next.db.wal[..next.sent] == w.db.wal[..w.sent] + [w.db.wal[w.sent]];
    forall i | 0 <= i < |w.updater.log| && w.updater.log[i].Record?
      ensures LsnOf(w.updater.log[i].action) < LsnOf(w.db.wal[w.sent])
    {
      BeforeSent(w, i);
    }
  }

  lemma PublishInOrder(config: Config, w: World, utf8: bool)
    requires Folded(w.db) && InWalOrder(w)
    ensures InWalOrder(Happen(config, w, Publish(utf8)))
  {
    TopicGrows(config, w, Publish(utf8));
    var next := Happen(config, w, Publish(utf8));
    if !w.owed && w.sent < |w.db.wal| {
      EntryInOrder(w, next, utf8);
    } else {
      assert next.db == w.db && next.sent == w.sent;
    }
  }

  lemma HappenInOrder(config: Config, w: World, event: Event)
    requires Folded(w.db) && InWalOrder(w) && !event.Rewind?
    requires event.Sql? ==> w.db.wal <= Execute(w.db, event.statement).wal
    ensures InWalOrder(Happen(config, w, event))
  {
    if event.Publish? {
      PublishInOrder(config, w, event.utf8);
    } else {
      TopicGrows(config, w, event);
      assert Happen(config, w, event).db.wal[..w.sent] == w.db.wal[..w.sent];
    }
  }

  lemma {:induction false} RunInOrder(config: Config, events: seq<Event>)
    requires ProperInserts(events) && NoRewind(events)
    ensures Folded(Reach(config, events).db) && InWalOrder(Reach(config, events))
  {
    WorldFolds(config, events, "");
    if events != [] {
      var n := |events| - 1;
      var before := Reach(config, events[..n]);
      RunInOrder(config, events[..n]);
      if events[n].Sql? { ExecuteKeepsFolded(before.db, events[n].statement); }
      HappenInOrder(config, before, events[n]);
    }
  }

  // ---- what is cached ----------------------------------------------------------

  /** The cached document is the event at e, and none consumed has a greater LSN. */
  predicate Greatest(st: R.Updater, id: string, e: nat)
  {
    && e < |st.log| && EventOf(st.log[e], id).Some?
    && EventOf(st.log[e], id).value.doc == DocAt(st.sink, id, st.now)
    && forall o: nat :: o < st.pos && o < |st.log| && EventOf(st.log[o], id).Some? ==>
         Round(EventOf(st.log[o], id).value.lsn) <= Round(EventOf(st.log[e], id).value.lsn)
  }

  /** In a run in which the entry never lapses. */
  lemma {:induction false} UnlapsedGreatest(config: Config, inputs: seq<Input<Change, Reply>>, id: string)
    returns (e: nat)
    requires var st := Exec(REDIS_SINK, config, Init(map[]), inputs);
             Isolated(st.log, id) && Clean(st, id) && DocAt(st.sink, id, st.now).Some?
    requires G.NeverLapses(config, inputs, id)
    ensures Greatest(Exec(REDIS_SINK, config, Init(map[]), inputs), id, e)
  {
    G.RunMirrors(config, inputs, id);
    var st := Exec(REDIS_SINK, config, Init(map[]), inputs);
    var m: nat :| m <= |st.log| && G.MirrorsTo(st, id, m);
    e := G.GuardedIsGreatest(st.log, id, m);
  }

  /** Where the topic is in WAL order. */
  lemma OrderedGreatest(w: World, id: string, e: nat)
    requires InWalOrder(w) && Clean(w.updater, id) && Sound(w.updater) && CachedFrom(w.updater, id, e)
    ensures Greatest(w.updater, id, e)
  {
    var st := w.updater;
    forall o: nat | o < st.pos && o < |st.log| && EventOf(st.log[o], id).Some?
      ensures Round(EventOf(st.log[o], id).value.lsn) <= Round(EventOf(st.log[e], id).value.lsn)
    {
      CleanStored(st, id, o);
      assert R.Succeeding(st, id, o);
      if o <= e { RoundMonotone(EventOf(st.log[o], id).value.lsn, EventOf(st.log[e], id).value.lsn); }
    }
  }

  lemma GreatestNoOlder(w: World, id: string, e: nat) returns (m: nat)
    requires InStep(w, id) && Undisturbed(w, id) && Greatest(w.updater, id, e)
    ensures m <= |w.db.wal| && NoOlder(w, id, m)
    ensures RowOf(Version(LogOf(w.db.wal), id, m)) == DocAt(w.updater.sink, id, w.updater.now)
  {
    var k := EntryOf(w, id, e);
    m := k + 1;
    forall o: nat | o < w.updater.pos && o < |w.updater.log| && EventOf(w.updater.log[o], id).Some?
      ensures EventOf(w.updater.log[o], id).value.lsn <= w.db.wal[k].lsn
    {
      var l := EntryOf(w, id, o);
      WalOrder(w.db, id, l, k);
    }
  }

  lemma {:induction false} CachedNoOlder(config: Config, events: seq<Event>, id: string) returns (m: nat)
    requires ProperInserts(events) && Canonical(id) && Undisturbed(Reach(config, events), id)
    requires NoRewind(events) || G.NeverLapses(config, Feed(config, events), id)
    requires var st := Reach(config, events).updater; DocAt(st.sink, id, st.now).Some?
    ensures var w := Reach(config, events);
            && m <= |w.db.wal| && NoOlder(w, id, m)
            && RowOf(Version(LogOf(w.db.wal), id, m)) == DocAt(w.updater.sink, id, w.updater.now)
  {
    var w := Reach(config, events);
    WorldFolds(config, events, id);
    TopicIsolated(w, id);
    UpdaterRuns(config, events);
    var e: nat;
    if NoRewind(events) {
      RunInOrder(config, events);
      e := RunHolds(config, Feed(config, events), id);
      OrderedGreatest(w, id, e);
    } else {
      e := UnlapsedGreatest(config, Feed(config, events), id);
    }
    m := GreatestNoOlder(w, id, e);
  }

  // ---- what is answered -----------------------------------------------------------

  /** The current row, or a version no older than what has been consumed. */
  ghost predicate Recent(w: World, id: string, body: Json, source: string)
  {
    var log := LogOf(w.db.wal);
    exists m: nat :: m <= |log| && IsVersion(log, id, m, body, source) && (m == |log| || NoOlder(w, id, m))
  }

  lemma CurrentRecent(w: World, id: string)
    requires InStep(w, id) && id in w.db.rows
    ensures Recent(w, id, Tagged(w.db.rows[id], "postgres"), "postgres")
  {
    CurrentAnswer(w, id);
  }

  lemma CachedRecent(w: World, id: string, m: nat, row: Json)
    requires m <= |w.db.wal| && NoOlder(w, id, m) && RowOf(Version(LogOf(w.db.wal), id, m)) == Some(row)
    requires row.Obj?
    ensures Recent(w, id, Tagged(row, "redis"), "redis")
  {
    TaggedShows(row, "redis");
    assert IsVersion(LogOf(w.db.wal), id, m, Tagged(row, "redis"), "redis");
  }

  lemma AnswerRecent(w: World, connected: bool, id: string, net: Net, other: Reading, up: bool)
    requires Canonical(id)
    requires id in w.db.rows ==> Recent(w, id, Tagged(w.db.rows[id], "postgres"), "postgres")
    requires var cached := DocAt(w.updater.sink, id, w.updater.now);
             cached.Some? ==> cached.value.Obj? && Recent(w, id, Tagged(cached.value, "redis"), "redis")
    ensures Answer(w, connected, id, net, other, up).Found? ==>
              Recent(w, id, Answer(w, connected, id, net, other, up).body,
                     if CacheHit(w, connected, id, net) then "redis" else "postgres")
  {
  }

  /** Where capture never went back, or the entry never lapsed, with LSNs that rise as
      doubles and no dead letter for the order: a successful GET answers with the
      current row or with a version that is no older, in the order of the WAL, than
      anything of the order the updater has consumed. */
  lemma {:induction false} ReadsNoOlder(
      config: Config, events: seq<Event>, connected: bool, id: string, net: Net, other: Reading, up: bool)
    requires ProperInserts(events) && Canonical(id) && Undisturbed(Reach(config, events), id)
    requires NoRewind(events) || G.NeverLapses(config, Feed(config, events), id)
    ensures var w := Reach(config, events);
            var res := Answer(w, connected, id, net, other, up);
            res.Found? ==>
              Recent(w, id, res.body, if CacheHit(w, connected, id, net) then "redis" else "postgres")
  {
    var w := Reach(config, events);
    WorldFolds(config, events, id);
    CachedIsVersion(config, events, id);
    var cached := DocAt(w.updater.sink, id, w.updater.now);
    if cached.Some? {
      var m := CachedNoOlder(config, events, id);
      CachedAnswer(w, id, cached.value);
      CachedRecent(w, id, m, cached.value);
    }
    if id in w.db.rows { CurrentRecent(w, id); }
    AnswerRecent(w, connected, id, net, other, up);
  }

  // ---- and when not ---------------------------------------------------------------

  /** Events happening in some state of the world. */
  function Then(config: Config, w: World, events: seq<Event>): World
  {
    if events == [] then w
    else Happen(config, Then(config, w, events[..|events| - 1]), events[|events| - 1])
  }

  lemma {:induction false} ReachThen(config: Config, first: seq<Event>, rest: seq<Event>)
    ensures Reach(config, first + rest) == Then(config, Reach(config, first), rest)
  {
    if rest == [] {
      assert first + rest == first;
    } else {
      var n := |rest| - 1;
      assert (first + rest)[..|first + rest| - 1] == first + rest[..n];
      ReachThen(config, first, rest[..n]);
    }
  }

  lemma ThenOne(config: Config, w: World, events: seq<Event>, event: Event)
    ensures Then(config, w, events + [event]) == Happen(config, Then(config, w, events), event)
  {
    assert (events + [event])[..|events|] == events;
  }

  const GO: Event := Consumer(Go(SMOOTH))

  const FIVE := [GO, GO, GO, GO, GO]

  /** An updater one applied message further. */
  function Advanced(st: R.Updater): R.Updater
    requires st.pos < |st.log| && st.log[st.pos].Record? && !st.log[st.pos].action.Ignored?
  {
    st.(sink := Script(st.sink, st.log[st.pos].action.id, EventIn(st.log[st.pos].action), st.now),
        trail := st.trail + [Delivered(st.pos, true)] + [Tried(st.pos, false)] + [Finished(st.pos, Succeeded)],
        high := Max(st.high, st.pos + 1), pos := st.pos + 1, committed := st.pos + 1)
  }

  const SMOOTH: Env<Reply> := Env(true, true, Answered, true, true, true)

  function Smoothly(config: Config, st: R.Updater): R.Updater
  {
    Advance(REDIS_SINK, config, st, SMOOTH)
  }

  lemma FiveAdvances(config: Config, st: R.Updater)
    requires st.pc == LoopTest && st.running && 1 <= config.maxRetries
    requires st.pos < |st.log| && st.log[st.pos].Record?
    requires st.log[st.pos].action.Upsert? && StatusOf(st.log[st.pos].action.doc, "UNKNOWN").Some?
    ensures Smoothly(config, Smoothly(config, Smoothly(config, Smoothly(config, Smoothly(config, st))))) == Advanced(st)
  {
    var met := st.(high := Max(st.high, st.pos + 1), trail := st.trail + [Delivered(st.pos, true)]);
    assert Smoothly(config, st) == st.(pc := Polling);
    assert Smoothly(config, st.(pc := Polling)) == met.(pc := AttemptTest(1, config.initialBackoff));
    assert Smoothly(config, met.(pc := AttemptTest(1, config.initialBackoff)))
        == met.(pc := Attempting(1, config.initialBackoff));
    var change := st.log[st.pos].action;
    var tried := met.(sink := Script(st.sink, change.id, EventIn(change), st.now),
                      trail := met.trail + [Tried(st.pos, false)], pc := Committing(Succeeded));
    assert Smoothly(config, met.(pc := Attempting(1, config.initialBackoff))) == tried;
  }

  /** Five steps of the updater: it meets a message, applies it and commits. */
  lemma Consumes(config: Config, w: World)
    requires w.updater.pc == LoopTest && w.updater.running && 1 <= config.maxRetries
    requires w.updater.pos < |w.updater.log| && w.updater.log[w.updater.pos].Record?
    requires var change := w.updater.log[w.updater.pos].action;
             change.Upsert? && StatusOf(change.doc, "UNKNOWN").Some?
    ensures Then(config, w, FIVE) == w.(updater := Advanced(w.updater))
  {
    var none: seq<Event> := [];
    ThenOne(config, w, none, GO);
    ThenOne(config, w, none + [GO], GO);
    ThenOne(config, w, none + [GO] + [GO], GO);
    ThenOne(config, w, none + [GO] + [GO] + [GO], GO);
    ThenOne(config, w, none + [GO] + [GO] + [GO] + [GO], GO);
    assert none + [GO] + [GO] + [GO] + [GO] + [GO] == FIVE;
    FiveAdvances(config, w.updater);
  }

  /** An order is created and its status set; both entries are published and the
      updater starts. */
  function Beginning(id: string, row: Json, status: string): seq<Event>
  {
    [Sql(Insert(id, row, 0)), Sql(SetStatus(id, status, 0)), Publish(true), Publish(true), Consumer(Start(true))]
  }

  /** Capture goes back to the first entry, and the cache entry lapses. */
  const RELAPSE: seq<Event> := [Rewind(0), Publish(true), Consumer(Tick(TTL))]

  function Republication(id: string, row: Json, status: string): seq<Event>
  {
    Beginning(id, row, status) + FIVE + FIVE + RELAPSE + FIVE
  }

  function Entries(id: string, row: Json, later: Json): seq<Change>
  {
    [Upsert(id, row, 1), Upsert(id, later, 2)]
  }

  lemma Begun(config: Config, id: string, row: Json, status: string)
    ensures var later := SetField(row, "status", Str(status));
            var w := Reach(config, Beginning(id, row, status));
            && w.db.wal == Entries(id, row, later) && w.db.lsn == 2 && w.sent == 2 && !w.owed
            && w.db.rows == map[id := later]
            && w.updater == Starting(id, row, later)
  {
    var e := Beginning(id, row, status);
    var none: seq<Event> := [];
    ReachSnoc(config, none, e[0]);
    ReachSnoc(config, none + [e[0]], e[1]);
    ReachSnoc(config, none + [e[0]] + [e[1]], e[2]);
    ReachSnoc(config, none + [e[0]] + [e[1]] + [e[2]], e[3]);
    ReachSnoc(config, none + [e[0]] + [e[1]] + [e[2]] + [e[3]], e[4]);
    assert none + [e[0]] + [e[1]] + [e[2]] + [e[3]] + [e[4]] == e;
    var two := Happen(config, Happen(config, BLANK, e[0]), e[1]);
    assert two.db.wal == Entries(id, row, SetField(row, "status", Str(status)));
    var three := Happen(config, two, e[2]);
    assert three.updater.log == [Record(Upsert(id, row, 1), true, true)];
  }

  lemma ReachSnoc(config: Config, events: seq<Event>, event: Event)
    ensures Reach(config, events + [event]) == Happen(config, Reach(config, events), event)
  {
    assert (events + [event])[..|events|] == events;
  }

  lemma Relapses(config: Config, w: World)
    requires w.updater.pc == LoopTest && !w.owed && w.db.wal != []
    ensures var next := Then(config, w, RELAPSE);
            && next.db == w.db
            && next.updater == Relapsed(w.updater, w.db.wal[0])
  {
    var none: seq<Event> := [];
    ThenOne(config, w, none, Rewind(0));
    ThenOne(config, w, none + [Rewind(0)], Publish(true));
    ThenOne(config, w, none + [Rewind(0)] + [Publish(true)], Consumer(Tick(TTL)));
    assert none + [Rewind(0)] + [Publish(true)] + [Consumer(Tick(TTL))] == RELAPSE;
    var one := Happen(config, w, Rewind(0));
    assert one == w.(sent := 0, owed := false);
  }

  /** The updater's store after the run: the older row, under the older LSN. */
  lemma StoreRelapses(id: string, row: Json, later: Json)
    ensures var first := Script(map[], id, Slot(1, Some(row)), 0);
            var second := Script(first, id, Slot(2, Some(later)), 0);
            DocAt(Script(second, id, Slot(1, Some(row)), TTL), id, TTL) == Some(row)
  {
    ExactUpTo53Bits(1);
    ExactUpTo53Bits(2);
    assert |LsnKey(id)| != |OrderKey(id)|;
  }

  function Relapsed(st: R.Updater, entry: Change): R.Updater
  {
    st.(log := st.log + [Record(entry, true, true)], now := st.now + TTL)
  }

  /** The updater with both entries in its log, before it has consumed any. */
  function Starting(id: string, row: Json, later: Json): R.Updater
  {
    Init(map[]).(log := [Record(Upsert(id, row, 1), true, true), Record(Upsert(id, later, 2), true, true)],
                 running := true, producer := true, pc := LoopTest)
  }

  lemma TwoConsumed(config: Config, id: string, row: Json, status: string) returns (w: World)
    requires RowOfOrder(row, id) && StatusOf(row, "UNKNOWN").Some? && 1 <= config.maxRetries
    ensures var later := SetField(row, "status", Str(status));
            && w == Reach(config, Beginning(id, row, status) + FIVE + FIVE)
            && w.db.wal == Entries(id, row, later) && w.db.lsn == 2 && !w.owed
            && w.updater == Advanced(Advanced(Starting(id, row, later)))
  {
    var begun := Beginning(id, row, status);
    SetFieldKeepsRow(row, id, Str(status));
    Begun(config, id, row, status);
    Consumes(config, Reach(config, begun));
    ReachThen(config, begun, FIVE);
    Consumes(config, Reach(config, begun + FIVE));
    ReachThen(config, begun + FIVE, FIVE);
    w := Reach(config, begun + FIVE + FIVE);
  }

  lemma RunOfRepublication(config: Config, id: string, row: Json, status: string) returns (w: World)
    requires RowOfOrder(row, id) && StatusOf(row, "UNKNOWN").Some? && 1 <= config.maxRetries
    ensures var later := SetField(row, "status", Str(status));
            && w == Reach(config, Republication(id, row, status))
            && w.db.wal == Entries(id, row, later) && w.db.lsn == 2
            && w.updater == Advanced(Relapsed(Advanced(Advanced(Starting(id, row, later))), Upsert(id, row, 1)))
  {
    var events := Beginning(id, row, status) + FIVE + FIVE;
    var consumed := TwoConsumed(config, id, row, status);
    Relapses(config, consumed);
    ReachThen(config, events, RELAPSE);
    Consumes(config, Reach(config, events + RELAPSE));
    ReachThen(config, events + RELAPSE, FIVE);
    w := Reach(config, Republication(id, row, status));
  }

  /** What that leaves. */
  lemma AfterRepublication(id: string, row: Json, later: Json, st: R.Updater)
    requires st == Advanced(Relapsed(Advanced(Advanced(Starting(id, row, later))), Upsert(id, row, 1)))
    ensures |st.log| == 3 && st.log[1] == Record(Upsert(id, later, 2), true, true)
    ensures st.pos == 3 && DocAt(st.sink, id, st.now) == Some(row) && Clean(st, id)
  {
    StoreRelapses(id, row, later);
    assert st.trail == [Delivered(0, true), Tried(0, false), Finished(0, Succeeded),
                        Delivered(1, true), Tried(1, false), Finished(1, Succeeded),
                        Delivered(2, true), Tried(2, false), Finished(2, Succeeded)];
  }

  /** The first entry's row is the row of that version only, and it is older than the
      second. */
  lemma FirstVersionOnly(w: World, id: string, row: Json, later: Json)
    requires w.db.wal == Entries(id, row, later) && later != row
    requires 1 < |w.updater.log| && 1 < w.updater.pos && w.updater.log[1] == Record(Upsert(id, later, 2), true, true)
    ensures forall m: nat :: m <= |w.db.wal| && RowOf(Version(LogOf(w.db.wal), id, m)) == Some(row) ==>
              m != |w.db.wal| && !NoOlder(w, id, m)
  {
    var log := LogOf(w.db.wal);
    assert log[0].action == w.db.wal[0] && log[1].action == w.db.wal[1];
    assert EventOf(w.updater.log[1], id).value.lsn == 2;
    assert Version(log, id, 2) == EventOf(log[1], id);
    forall m: nat | m <= |w.db.wal| && RowOf(Version(log, id, m)) == Some(row)
      ensures m != |w.db.wal| && !NoOlder(w, id, m)
    {
      assert m == 1;
    }
  }

  lemma CacheAnswers(w: World, id: string, row: Json)
    requires row.Obj? && DocAt(w.updater.sink, id, w.updater.now) == Some(row)
    ensures Answer(w, true, id, Replied, Malformed, true).Found?
    ensures Shows(Answer(w, true, id, Replied, Malformed, true).body, row, "redis")
  {
    TaggedShows(row, "redis");
  }

  lemma RepublicationIsProper(id: string, row: Json, status: string)
    requires Canonical(id) && RowOfOrder(row, id)
    ensures ProperInserts(Republication(id, row, status))
  {
    var rest: seq<Event> := FIVE + FIVE + RELAPSE + FIVE;
    assert forall i :: 0 <= i < |rest| ==> !rest[i].Sql?;
    assert Republication(id, row, status) == Beginning(id, row, status) + rest;
  }

  lemma EntriesRise(id: string, row: Json, later: Json)
    ensures Rising(LogOf(Entries(id, row, later)), id)
  {
    ExactUpTo53Bits(1);
    ExactUpTo53Bits(2);
  }

  /** Otherwise it can be older: after a republication of an entry that had lapsed, a
      GET answers with the first version of an order, although the updater has
      consumed the second, nothing was dead-lettered and the LSNs are 1 and 2. */
  lemma {:induction false} OlderAfterRepublication(config: Config, id: string, row: Json, status: string)
    requires Canonical(id) && RowOfOrder(row, id) && StatusOf(row, "UNKNOWN").Some? && 1 <= config.maxRetries
    requires SetField(row, "status", Str(status)) != row
    ensures var events := Republication(id, row, status);
            var w := Reach(config, events);
            && ProperInserts(events) && Undisturbed(w, id)
            && Answer(w, true, id, Replied, Malformed, true).Found?
            && Shows(Answer(w, true, id, Replied, Malformed, true).body, row, "redis")
            && 1 < |w.updater.log| && 1 < w.updater.pos && EventOf(w.updater.log[1], id).Some?
            && !exists m: nat :: && m <= |w.db.wal| && RowOf(Version(LogOf(w.db.wal), id, m)) == Some(row)
                                 && (m == |w.db.wal| || NoOlder(w, id, m))
  {
    var w := RunOfRepublication(config, id, row, status);
    AfterRepublication(id, row, SetField(row, "status", Str(status)), w.updater);
    CacheAnswers(w, id, row);
    FirstVersionOnly(w, id, row, SetField(row, "status", Str(status)));
    RepublicationIsProper(id, row, status);
    EntriesRise(id, row, SetField(row, "status", Str(status)));
  }
}
