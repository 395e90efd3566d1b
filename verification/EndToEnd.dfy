/** Database, change data capture, the cache's and the index's consumers and the API
    together: what the index holds and what a GET may answer in any reachable
    state of the whole. */
module EndToEnd {
  import opened Json
  import opened Options
  import opened LuaNumber
  import opened Records
  import opened RedisStore
  import opened Protocol
  import opened Offsets
  import opened SinkSpecs
  import opened History
  import opened Database
  import opened OrderApi
  import opened Uuid
  import R = RedisRuns
  import E = EsRuns
  import D = Debezium
  import opened Avro
  import opened Utf8Text

  /** `sent` is how much of the WAL capture has published since it last started;
      `owed` that the null message which follows a delete is still to come. */
  datatype World = World(db: Db, updater: R.Updater, indexer: E.Indexer, sent: nat, owed: bool)

  /** A statement commits; capture publishes the next message; capture restarts and
      will publish again from an earlier point; or one of the consumers' machines
      takes any step of its own (it cannot append to the log). The raw bytes of a
      published entry are UTF-8 or not. */
  datatype Event =
    | Sql(statement: Statement)
    | Publish(utf8: bool)
    | Rewind(to: nat)
    | Consumer(input: Input<Change, Reply>)
    | Indexing(reply: Input<Change, HttpReply>)

  const BLANK := World(EMPTY_DB, Init(map[]), Init(map[]), 0, false)

  /** What capture publishes next, if it has anything. */
  function Outgoing(w: World, utf8: bool): Option<Message<Change>>
  {
    if w.owed then Some(Undecodable(true))
    else if w.sent < |w.db.wal| then Some(Record(w.db.wal[w.sent], true, utf8))
    else None
  }

  /** The input that an event amounts to for the updater's machine, if any. */
  function InputOf(w: World, event: Event): Option<Input<Change, Reply>>
  {
    match event
    case Publish(utf8) => if Outgoing(w, utf8).Some? then Some(Append(Outgoing(w, utf8).value)) else None
    case Consumer(input) => if input.Append? then None else Some(input)
    case _ => None
  }

  /** And for the indexer's, which reads the same topic. */
  function IndexInputOf(w: World, event: Event): Option<Input<Change, HttpReply>>
  {
    match event
    case Publish(utf8) => if Outgoing(w, utf8).Some? then Some(Append(Outgoing(w, utf8).value)) else None
    case Indexing(input) => if input.Append? then None else Some(input)
    case _ => None
  }

  function Happen(config: Config, w: World, event: Event): World
  {
    var input, indexing := InputOf(w, event), IndexInputOf(w, event);
    var updater := if input.Some? then Step(REDIS_SINK, config, w.updater, input.value) else w.updater;
    var indexer := if indexing.Some? then Step(ES_SINK, config, w.indexer, indexing.value) else w.indexer;
    var db := if event.Sql? then Execute(w.db, event.statement) else w.db;
    var publishes := event.Publish? && !w.owed && w.sent < |w.db.wal|;
    World(db, updater, indexer,
          if event.Rewind? then Min(event.to, w.sent) else if publishes then w.sent + 1 else w.sent,
          if publishes then w.db.wal[w.sent].Delete? else w.owed && !event.Publish? && !event.Rewind?)
  }

  function Reach(config: Config, events: seq<Event>): World
  {
    if events == [] then BLANK
    else Happen(config, Reach(config, events[..|events| - 1]), events[|events| - 1])
  }

  /** The inputs the updater's machine was fed. */
  function Feed(config: Config, events: seq<Event>): seq<Input<Change, Reply>>
  {
    if events == [] then []
    else
      var n := |events| - 1;
      match InputOf(Reach(config, events[..n]), events[n])
      case Some(input) => Feed(config, events[..n]) + [input]
      case None => Feed(config, events[..n])
  }

  function IndexFeed(config: Config, events: seq<Event>): seq<Input<Change, HttpReply>>
  {
    if events == [] then []
    else
      var n := |events| - 1;
      match IndexInputOf(Reach(config, events[..n]), events[n])
      case Some(input) => IndexFeed(config, events[..n]) + [input]
      case None => IndexFeed(config, events[..n])
  }

  /** Inserted rows name their orders, by the canonical ids that a UUID column holds
      and generate_uuid makes. */
  predicate ProperInserts(events: seq<Event>)
  {
    forall i :: 0 <= i < |events| && events[i].Sql? && events[i].statement.Insert? ==>
      Canonical(events[i].statement.id) && RowOfOrder(events[i].statement.row, events[i].statement.id)
  }

  lemma {:induction false} UpdaterRuns(config: Config, events: seq<Event>)
    ensures Reach(config, events).updater == Exec(REDIS_SINK, config, Init(map[]), Feed(config, events))
  {
    if events != [] {
      var n := |events| - 1;
      UpdaterRuns(config, events[..n]);
      var input := InputOf(Reach(config, events[..n]), events[n]);
      if input.Some? {
        ExecSnoc(REDIS_SINK, config, Init(map[]), Feed(config, events[..n]), input.value);
      }
    }
  }

  lemma {:induction false} IndexerRuns(config: Config, events: seq<Event>)
    ensures Reach(config, events).indexer == Exec(ES_SINK, config, Init(map[]), IndexFeed(config, events))
  {
    if events != [] {
      var n := |events| - 1;
      IndexerRuns(config, events[..n]);
      var input := IndexInputOf(Reach(config, events[..n]), events[n]);
      if input.Some? {
        ExecSnoc(ES_SINK, config, Init(map[]), IndexFeed(config, events[..n]), input.value);
      }
    }
  }

  // ---- the topic and the WAL ------------------------------------------------

  /** Every record in the topic is an entry of the WAL. */
  predicate FromWal(topic: Log, wal: seq<Change>)
  {
    forall o :: 0 <= o < |topic| && topic[o].Record? ==> topic[o].action in wal
  }

  /** The last the topic says of the order is what the WAL says at some point j, no
      earlier than what has been published since capture last started. */
  predicate CarriesTo(w: World, id: string, j: nat)
  {
    && w.sent <= j <= |w.db.wal|
    && Version(w.updater.log, id, |w.updater.log|) == Version(LogOf(w.db.wal), id, j)
  }

  predicate Carries(w: World, id: string)
  {
    && w.indexer.log == w.updater.log && FromWal(w.updater.log, w.db.wal) && w.sent <= |w.db.wal|
    && exists j: nat :: j <= |w.db.wal| && CarriesTo(w, id, j)
  }

  lemma LogKept<S, A, R>(sink: Sink<S, A, R>, config: Config, st: State<S, A>, input: Input<A, R>)
    ensures Step(sink, config, st, input).log == if input.Append? then st.log + [input.message] else st.log
  {
  }

  /** How the topic grows, the same for both consumers. */
  lemma TopicGrows(config: Config, w: World, event: Event)
    ensures var next := Happen(config, w, event);
            var sent := if event.Publish? then Outgoing(w, event.utf8) else None;
            && next.updater.log == (if sent.Some? then w.updater.log + [sent.value] else w.updater.log)
            && next.indexer.log == (if sent.Some? then w.indexer.log + [sent.value] else w.indexer.log)
  {
    var input, indexing := InputOf(w, event), IndexInputOf(w, event);
    if input.Some? { LogKept(REDIS_SINK, config, w.updater, input.value); }
    if indexing.Some? { LogKept(ES_SINK, config, w.indexer, indexing.value); }
  }

  lemma SqlCarries(config: Config, w: World, statement: Statement, id: string)
    requires Carries(w, id) && w.db.wal <= Execute(w.db, statement).wal
    ensures Carries(Happen(config, w, Sql(statement)), id)
  {
    var next := Happen(config, w, Sql(statement));
    TopicGrows(config, w, Sql(statement));
    var j: nat :| j <= |w.db.wal| && CarriesTo(w, id, j);
    assert LogOf(w.db.wal) <= LogOf(next.db.wal);
    VersionOfPrefix(LogOf(w.db.wal), LogOf(next.db.wal), id, j);
    assert CarriesTo(next, id, j);
  }

  /** Appending a message that is not about the order, or the next WAL entry. */
  lemma AppendCarries(log: Log, message: Message<Change>, wal: Log, id: string, j: nat, sent: nat)
    requires sent <= j <= |wal| && Version(log, id, |log|) == Version(wal, id, j)
    requires EventOf(message, id).None? || (sent < |wal| && EventOf(message, id) == EventOf(wal[sent], id))
    ensures EventOf(message, id).None? ==> Version(log + [message], id, |log| + 1) == Version(wal, id, j)
    ensures EventOf(message, id).Some? ==> Version(log + [message], id, |log| + 1) == Version(wal, id, sent + 1)
  {
    VersionOfPrefix(log, log + [message], id, |log|);
  }

  lemma PublishFromWal(config: Config, w: World, utf8: bool)
    requires w.indexer.log == w.updater.log && FromWal(w.updater.log, w.db.wal) && w.sent <= |w.db.wal|
    ensures var next := Happen(config, w, Publish(utf8));
            next.indexer.log == next.updater.log && FromWal(next.updater.log, next.db.wal) && next.sent <= |next.db.wal|
  {
    TopicGrows(config, w, Publish(utf8));
  }

  lemma PublishCarriesTo(config: Config, w: World, utf8: bool, id: string, j: nat) returns (k: nat)
    requires j <= |w.db.wal| && CarriesTo(w, id, j)
    ensures k <= |w.db.wal| && CarriesTo(Happen(config, w, Publish(utf8)), id, k)
  {
    TopicGrows(config, w, Publish(utf8));
    var topic, wal, sent := w.updater.log, LogOf(w.db.wal), Outgoing(w, utf8);
    k := j;
    if sent.Some? {
      if !w.owed {
        assert EventOf(sent.value, id) == EventOf(wal[w.sent], id);
        if EventOf(sent.value, id).Some? || j == w.sent { k := w.sent + 1; }
      }
      AppendCarries(topic, sent.value, wal, id, j, w.sent);
    }
  }

  lemma PublishCarries(config: Config, w: World, utf8: bool, id: string)
    requires Carries(w, id)
    ensures Carries(Happen(config, w, Publish(utf8)), id)
  {
    PublishFromWal(config, w, utf8);
    var j: nat :| j <= |w.db.wal| && CarriesTo(w, id, j);
    var k := PublishCarriesTo(config, w, utf8, id, j);
  }

  lemma HappenCarries(config: Config, w: World, event: Event, id: string)
    requires Carries(w, id) && (event.Sql? ==> w.db.wal <= Execute(w.db, event.statement).wal)
    ensures Carries(Happen(config, w, event), id)
  {
    match event
    case Sql(statement) => SqlCarries(config, w, statement, id);
    case Publish(utf8) => PublishCarries(config, w, utf8, id);
    case _ =>
      TopicGrows(config, w, event);
      var j: nat :| j <= |w.db.wal| && CarriesTo(w, id, j);
      assert CarriesTo(Happen(config, w, event), id, j);
  }

  /** The table is the fold of the WAL, and the topic carries it. */
  predicate InStep(w: World, id: string)
  {
    && Folded(w.db) && Carries(w, id)
    && RowIn(w.db, id) == RowOf(Version(LogOf(w.db.wal), id, |w.db.wal|))
  }

  lemma HappenInStep(config: Config, w: World, event: Event, id: string)
    requires InStep(w, id)
    requires event.Sql? && event.statement.Insert? ==>
               Canonical(event.statement.id) && RowOfOrder(event.statement.row, event.statement.id)
    ensures InStep(Happen(config, w, event), id)
  {
    if event.Sql? {
      ExecuteFolds(w.db, event.statement, id);
    }
    HappenCarries(config, w, event, id);
  }

  lemma BlankInStep(id: string)
    ensures InStep(BLANK, id)
  {
    assert CarriesTo(BLANK, id, 0);
  }

  lemma {:induction false} RunInStep(config: Config, events: seq<Event>, id: string)
    requires ProperInserts(events)
    ensures InStep(Reach(config, events), id)
  {
    if events == [] {
      BlankInStep(id);
    } else {
      var n := |events| - 1;
      RunInStep(config, events[..n], id);
      HappenInStep(config, Reach(config, events[..n]), events[n], id);
    }
  }

  lemma AllPublished(w: World, id: string)
    requires InStep(w, id) && w.sent == |w.db.wal|
    ensures Version(w.updater.log, id, |w.updater.log|) == Version(LogOf(w.db.wal), id, |w.db.wal|)
  {
  }

  /** In every reachable state the table is the fold of the WAL; the topic says
      nothing the WAL does not, although it may repeat itself; and once capture has
      published all of the WAL, the two end in the same version of every order. */
  lemma {:induction false} WorldFolds(config: Config, events: seq<Event>, id: string)
    requires ProperInserts(events)
    ensures var w := Reach(config, events);
            && InStep(w, id)
            && (w.sent == |w.db.wal| ==>
                  Version(w.updater.log, id, |w.updater.log|) == Version(LogOf(w.db.wal), id, |w.db.wal|))
  {
    RunInStep(config, events, id);
    if Reach(config, events).sent == |Reach(config, events).db.wal| {
      AllPublished(Reach(config, events), id);
    }
  }

  /** Capture never goes back to publish again. */
  predicate NoRewind(events: seq<Event>)
  {
    forall i :: 0 <= i < |events| ==> !events[i].Rewind?
  }

  /** A delete in the topic is followed by a null message, the last one to be yet. */
  predicate DeletesFollowed(topic: Log, owed: bool)
  {
    forall o :: 0 <= o < |topic| ==> FollowedAt(topic, owed, o)
  }

  predicate FollowedAt(topic: Log, owed: bool, o: nat)
    requires o < |topic|
  {
    topic[o].Record? && topic[o].action.Delete? ==>
      if o + 1 < |topic| then topic[o + 1].Undecodable? else owed
  }

  lemma HappenFollows(config: Config, w: World, event: Event)
    requires DeletesFollowed(w.updater.log, w.owed) && !event.Rewind?
    ensures DeletesFollowed(Happen(config, w, event).updater.log, Happen(config, w, event).owed)
  {
    TopicGrows(config, w, event);
    var topic, next := w.updater.log, Happen(config, w, event);
    var sent := if event.Publish? then Outgoing(w, event.utf8) else None;
    assert next.owed <==> if sent.Some? then sent.value.Record? && sent.value.action.Delete? else w.owed;
    forall o | 0 <= o < |next.updater.log|
      ensures FollowedAt(next.updater.log, next.owed, o)
    {
      if o < |topic| { assert FollowedAt(topic, w.owed, o); }
    }
  }

  /** While capture does not go back, every delete is followed by a null message. */
  lemma {:induction false} NullAfterDelete(config: Config, events: seq<Event>)
    requires NoRewind(events)
    ensures DeletesFollowed(Reach(config, events).updater.log, Reach(config, events).owed)
  {
    if events != [] {
      var n := |events| - 1;
      NullAfterDelete(config, events[..n]);
      HappenFollows(config, Reach(config, events[..n]), events[n]);
    }
  }

  // ---- ids of another form --------------------------------------------------

  /** Nothing but an LSN is ever stored under the key of the id. */
  predicate NoStrayDocument(s: Store, id: string)
  {
    OrderKey(id) in s ==> !s[OrderKey(id)].value.Document?
  }

  lemma ScriptStrays(s: Store, id: string, event: Slot, now: int, other: string)
    requires Canonical(id) && !Canonical(other) && NoStrayDocument(s, other)
    ensures NoStrayDocument(Script(s, id, event, now), other)
  {
    if OrderKey(id) == OrderKey(other) {
      OrderKeyInjective(id, other);
    }
  }

  predicate ProperLog(log: Log)
  {
    forall i :: 0 <= i < |log| && log[i].Record? && !log[i].action.Ignored? ==> Canonical(log[i].action.id)
  }

  lemma {:induction false} RunStrays(config: Config, inputs: seq<Input<Change, Reply>>, id: string)
    requires ProperLog(Exec(REDIS_SINK, config, Init(map[]), inputs).log) && !Canonical(id)
    ensures NoStrayDocument(Exec(REDIS_SINK, config, Init(map[]), inputs).sink, id)
  {
    if inputs != [] {
      var n := |inputs| - 1;
      var st := Exec(REDIS_SINK, config, Init(map[]), inputs[..n]);
      RunKeepsSound(REDIS_SINK, config, Init(map[]), inputs[..n]);
      StepKeepsSound(REDIS_SINK, config, st, inputs[n]);
      assert forall i :: 0 <= i < |st.log| ==> st.log[i] == Step(REDIS_SINK, config, st, inputs[n]).log[i];
      RunStrays(config, inputs[..n], id);
      StepStrays(config, st, inputs[n], id);
    }
  }

  lemma StepStrays(config: Config, st: R.Updater, input: Input<Change, Reply>, id: string)
    requires ProperLog(st.log) && !Canonical(id) && NoStrayDocument(st.sink, id)
    ensures NoStrayDocument(Step(REDIS_SINK, config, st, input).sink, id)
  {
    if input.Go? && st.pc.Attempting? && st.pos < |st.log| && st.log[st.pos].Record? {
      var change := st.log[st.pos].action;
      var after := RedisProcess(st.sink, change, input.env.reply, st.now);
      assert Step(REDIS_SINK, config, st, input).sink == after.sink;
      if !change.Ignored? {
        ScriptStrays(st.sink, change.id, EventIn(change), st.now, id);
      }
    }
  }

  lemma TopicProper(w: World)
    requires Folded(w.db) && FromWal(w.updater.log, w.db.wal)
    ensures ProperLog(w.updater.log)
  {
    forall o | 0 <= o < |w.updater.log| && w.updater.log[o].Record? && !w.updater.log[o].action.Ignored?
      ensures Canonical(w.updater.log[o].action.id)
    {
      var k :| 0 <= k < |w.db.wal| && w.db.wal[k] == w.updater.log[o].action;
    }
  }

  /** In every reachable state no document lies under the key of an id that is not
      canonical UUID text, colons or not, so a GET for one always asks the database. */
  lemma {:induction false} WorldStrays(config: Config, events: seq<Event>, id: string)
    requires ProperInserts(events) && !Canonical(id)
    ensures NoStrayDocument(Reach(config, events).updater.sink, id)
  {
    WorldFolds(config, events, id);
    TopicProper(Reach(config, events));
    UpdaterRuns(config, events);
    RunStrays(config, Feed(config, events), id);
  }

  // ---- coherence -----------------------------------------------------------

  /** The answer to a GET in a state of the world. */
  function Answer(w: World, connected: bool, id: string, net: Net, other: Reading, up: bool): Response
  {
    Handle(connected, Request(id, w.updater.sink, w.updater.now, w.db, net, other, up)).0
  }

  /** Every entry the WAL has for the order has been published and consumed. */
  predicate CaughtUp(w: World, id: string)
  {
    && Consumed(w.updater, id)
    && forall k :: w.sent <= k < |w.db.wal| ==> EventOf(LogOf(w.db.wal)[k], id).None?
  }

  /** No event of the order was dead-lettered, and its LSNs rise as doubles, as all do
      up to 2^53 (see `Database.ExactWalRises`). */
  predicate Undisturbed(w: World, id: string)
  {
    Rising(LogOf(w.db.wal), id) && Clean(w.updater, id)
  }

  /** The WAL entry before m was met by the updater at e, and no event of the order
      below its position is both later in the topic and newer in the WAL. */
  predicate NoneNewer(w: World, id: string, m: nat, e: nat)
  {
    var topic := w.updater.log;
    && 0 < m <= |w.db.wal| && e < |topic|
    && topic[e].Record? && topic[e].action == w.db.wal[m - 1] && EventOf(topic[e], id).Some?
    && forall o :: 0 <= o < w.updater.pos && o < |topic| && EventOf(topic[o], id).Some? ==>
         o <= e || EventOf(topic[o], id).value.lsn <= w.db.wal[m - 1].lsn
  }

  lemma TopicIsolated(w: World, id: string)
    requires Folded(w.db) && FromWal(w.updater.log, w.db.wal) && Canonical(id)
    ensures Isolated(w.updater.log, id)
  {
    forall o | 0 <= o < |w.updater.log| && w.updater.log[o].Record? && !w.updater.log[o].action.Ignored?
      ensures Apart(w.updater.log[o].action.id, id)
    {
      var k :| 0 <= k < |w.db.wal| && w.db.wal[k] == w.updater.log[o].action;
      CanonicalIsColonFree(id);
      CanonicalIsColonFree(w.db.wal[k].id);
      ColonFreeApart(w.db.wal[k].id, id);
    }
  }

  /** Where an event of the topic stands in the WAL. */
  lemma EntryOf(w: World, id: string, o: nat) returns (k: nat)
    requires Folded(w.db) && FromWal(w.updater.log, w.db.wal)
    requires o < |w.updater.log| && EventOf(w.updater.log[o], id).Some?
    ensures k < |w.db.wal| && w.updater.log[o].action == w.db.wal[k]
    ensures EventOf(LogOf(w.db.wal)[k], id) == EventOf(w.updater.log[o], id)
  {
    k :| 0 <= k < |w.db.wal| && w.db.wal[k] == w.updater.log[o].action;
  }

  /** A topic that ends in the current version of the order ends in its newest. */
  lemma TopicEndsNewest(w: World, id: string)
    requires Folded(w.db) && Carries(w, id) && Rising(LogOf(w.db.wal), id)
    requires Version(w.updater.log, id, |w.updater.log|) == Version(LogOf(w.db.wal), id, |w.db.wal|)
    ensures LastIsNewest(w.updater.log, id)
  {
    var topic, wal := w.updater.log, LogOf(w.db.wal);
    var last := Version(topic, id, |topic|);
    if last.Some? {
      var end := LastEvent(wal, id, |wal|);
      forall o | 0 <= o < |topic| && EventOf(topic[o], id).Some?
        ensures EventOf(topic[o], id) == last || Round(EventOf(topic[o], id).value.lsn) < Round(last.value.lsn)
      {
        var k := EntryOf(w, id, o);
        assert k <= end;
      }
    }
  }

  /** A caught-up order: the topic ends in its current version. */
  lemma CaughtUpTopic(w: World, id: string)
    requires Carries(w, id) && CaughtUp(w, id)
    ensures Version(w.updater.log, id, |w.updater.log|) == Version(LogOf(w.db.wal), id, |w.db.wal|)
  {
    var j: nat :| j <= |w.db.wal| && CarriesTo(w, id, j);
    VersionSettled(LogOf(w.db.wal), id, j, |w.db.wal|);
  }

  /** Where the LSNs of the order rise as doubles, what looks no newer to Lua comes no
      later in the WAL. */
  lemma WalOrder(db: Db, id: string, l: nat, k: nat)
    requires Folded(db) && Rising(LogOf(db.wal), id) && l < |db.wal| && k < |db.wal|
    requires db.wal[l].id == id && db.wal[k].id == id && Round(db.wal[l].lsn) <= Round(db.wal[k].lsn)
    ensures l <= k && db.wal[l].lsn <= db.wal[k].lsn
  {
    var log := LogOf(db.wal);
    assert log[l].action == db.wal[l] && log[k].action == db.wal[k];
    assert EventOf(log[l], id).Some? && EventOf(log[k], id).Some?;
  }

  lemma CachedNoneNewer(w: World, id: string, k: nat, e: nat)
    requires Folded(w.db) && FromWal(w.updater.log, w.db.wal) && Undisturbed(w, id) && Sound(w.updater)
    requires e < |w.updater.log| && EventOf(w.updater.log[e], id).Some?
    requires k < |w.db.wal| && w.updater.log[e].action == w.db.wal[k]
    requires forall o: nat :: o < w.updater.pos && R.Succeeding(w.updater, id, o) ==> R.AsNew(w.updater.log, id, o, e)
    ensures NoneNewer(w, id, k + 1, e)
  {
    forall o | 0 <= o < w.updater.pos && o < |w.updater.log| && EventOf(w.updater.log[o], id).Some?
      ensures o <= e || EventOf(w.updater.log[o], id).value.lsn <= w.db.wal[k].lsn
    {
      NoneNewerAt(w, id, k, e, o);
    }
  }

  lemma NoneNewerAt(w: World, id: string, k: nat, e: nat, o: nat)
    requires Folded(w.db) && FromWal(w.updater.log, w.db.wal) && Undisturbed(w, id) && Sound(w.updater)
    requires e < |w.updater.log| && EventOf(w.updater.log[e], id).Some?
    requires k < |w.db.wal| && w.updater.log[e].action == w.db.wal[k]
    requires o < w.updater.pos && o < |w.updater.log| && EventOf(w.updater.log[o], id).Some?
    requires R.Succeeding(w.updater, id, o) ==> R.AsNew(w.updater.log, id, o, e)
    ensures o <= e || EventOf(w.updater.log[o], id).value.lsn <= w.db.wal[k].lsn
  {
    CleanStored(w.updater, id, o);
    var l := EntryOf(w, id, o);
    if e < o {
      WalOrder(w.db, id, l, k);
    }
  }

  /** The current version, or one such that nothing the updater has consumed of the
      order is both later in the topic and newer in the WAL. */
  predicate Tenable(w: World, id: string, m: nat)
  {
    m == |w.db.wal| || exists e: nat :: e < |w.updater.log| && NoneNewer(w, id, m, e)
  }

  predicate WalRowAsOf(w: World, id: string, row: Option<Json>, m: nat)
  {
    && m <= |w.db.wal| && RowOf(Version(LogOf(w.db.wal), id, m)) == row
    && (Undisturbed(w, id) ==> Tenable(w, id, m))
  }

  /** What may be cached for an order. */
  predicate Cacheable(w: World, id: string, row: Option<Json>)
  {
    && (exists m: nat :: m <= |w.db.wal| && WalRowAsOf(w, id, row, m))
    && (Undisturbed(w, id) && CaughtUp(w, id) ==> RowOf(Version(LogOf(w.db.wal), id, |w.db.wal|)) == row)
  }

  /** What the cache theorems give for an updater. */
  predicate CachedFrom(st: R.Updater, id: string, e: nat)
  {
    && e < |st.log| && EventOf(st.log[e], id).Some?
    && EventOf(st.log[e], id).value.doc == DocAt(st.sink, id, st.now)
    && (forall o: nat :: o < st.pos && R.Succeeding(st, id, o) ==> R.AsNew(st.log, id, o, e))
    && (LastIsNewest(st.log, id) && Clean(st, id) && Consumed(st, id) ==>
          DocAt(st.sink, id, st.now) == RowOf(Version(st.log, id, |st.log|)))
  }

  lemma {:induction false} RunHolds(config: Config, inputs: seq<Input<Change, Reply>>, id: string) returns (e: nat)
    requires var st := Exec(REDIS_SINK, config, Init(map[]), inputs);
             Isolated(st.log, id) && DocAt(st.sink, id, st.now).Some?
    ensures Sound(Exec(REDIS_SINK, config, Init(map[]), inputs))
    ensures CachedFrom(Exec(REDIS_SINK, config, Init(map[]), inputs), id, e)
  {
    var st := Exec(REDIS_SINK, config, Init(map[]), inputs);
    RunKeepsSound(REDIS_SINK, config, Init(map[]), inputs);
    R.CachedIsFresh(config, inputs, id);
    e :| && e < st.high && EventOf(st.log[e], id).Some?
         && EventOf(st.log[e], id).value.doc == DocAt(st.sink, id, st.now)
         && (forall o: nat :: o < st.pos && R.Succeeding(st, id, o) ==> R.AsNew(st.log, id, o, e));
    if LastIsNewest(st.log, id) && Clean(st, id) && Consumed(st, id) {
      R.Converges(config, inputs, id);
    }
  }

  lemma {:induction false} CachedIsVersion(config: Config, events: seq<Event>, id: string)
    requires ProperInserts(events) && Canonical(id)
    ensures var w := Reach(config, events);
            var cached := DocAt(w.updater.sink, id, w.updater.now);
            cached.Some? ==> Cacheable(w, id, cached)
  {
    var w := Reach(config, events);
    WorldFolds(config, events, id);
    TopicIsolated(w, id);
    if DocAt(w.updater.sink, id, w.updater.now).Some? {
      UpdaterRuns(config, events);
      var e := RunHolds(config, Feed(config, events), id);
      EventCacheable(w, id, e);
    }
  }

  lemma EventCacheable(w: World, id: string, e: nat)
    requires InStep(w, id) && Sound(w.updater)
    requires e < |w.updater.log| && EventOf(w.updater.log[e], id).Some?
    requires forall o: nat :: o < w.updater.pos && R.Succeeding(w.updater, id, o) ==> R.AsNew(w.updater.log, id, o, e)
    requires LastIsNewest(w.updater.log, id) && Clean(w.updater, id) && Consumed(w.updater, id) ==>
               EventOf(w.updater.log[e], id).value.doc == RowOf(Version(w.updater.log, id, |w.updater.log|))
    ensures Cacheable(w, id, EventOf(w.updater.log[e], id).value.doc)
  {
    var row := EventOf(w.updater.log[e], id).value.doc;
    var k := EntryOf(w, id, e);
    assert Version(LogOf(w.db.wal), id, k + 1) == EventOf(w.updater.log[e], id);
    if Undisturbed(w, id) {
      CachedNoneNewer(w, id, k, e);
      if CaughtUp(w, id) {
        CaughtUpTopic(w, id);
        TopicEndsNewest(w, id);
      }
    }
    assert WalRowAsOf(w, id, row, k + 1);
  }

  /** `body` shows the order as of the first m WAL entries, field by field. */
  ghost predicate IsVersion(log: Log, id: string, m: nat, body: Json, source: string)
    requires m <= |log|
  {
    var row := RowOf(Version(log, id, m));
    row.Some? && Shows(body, row.value, source)
  }

  /** What a successful answer is: a version of the row, and a tenable one. */
  ghost predicate Coherent(w: World, id: string, body: Json, source: string)
  {
    var log := LogOf(w.db.wal);
    && (exists m: nat ::
          m <= |log| && IsVersion(log, id, m, body, source) && (Undisturbed(w, id) ==> Tenable(w, id, m)))
    && (Undisturbed(w, id) && CaughtUp(w, id) ==> IsVersion(log, id, |log|, body, source) && RowIn(w.db, id).Some?)
  }

  lemma CachedAnswer(w: World, id: string, row: Json)
    requires InStep(w, id) && Cacheable(w, id, Some(row))
    ensures row.Obj? && Coherent(w, id, Tagged(row, "redis"), "redis")
  {
    var log := LogOf(w.db.wal);
    var m: nat :| m <= |w.db.wal| && WalRowAsOf(w, id, Some(row), m);
    var k := LastEvent(log, id, m);
    assert log[k].action == w.db.wal[k];
    TaggedShows(row, "redis");
    assert IsVersion(log, id, m, Tagged(row, "redis"), "redis");
  }

  lemma CurrentAnswer(w: World, id: string)
    requires InStep(w, id) && id in w.db.rows
    ensures Coherent(w, id, Tagged(w.db.rows[id], "postgres"), "postgres")
    ensures IsVersion(LogOf(w.db.wal), id, |w.db.wal|, Tagged(w.db.rows[id], "postgres"), "postgres")
  {
    var log := LogOf(w.db.wal);
    TaggedShows(w.db.rows[id], "postgres");
    assert IsVersion(log, id, |log|, Tagged(w.db.rows[id], "postgres"), "postgres");
  }

  /** The answer about the order that PostgreSQL knows as `id`, exactly: from the cache
      if it was hit there, else the current row, its absence, or a failure. */
  ghost predicate Answers(w: World, id: string, res: Response, hit: bool, up: bool)
  {
    if hit then res.Found? && Coherent(w, id, res.body, "redis")
    else if !up then res == Failed
    else if RowIn(w.db, id).None? then res == NotFound
    else
      && res.Found? && Coherent(w, id, res.body, "postgres")
      && IsVersion(LogOf(w.db.wal), id, |w.db.wal|, res.body, "postgres")
  }

  /** The cache answers: its connection has never missed a reply, and a live document
      lies under the text the request gives for the id. */
  predicate CacheHit(w: World, connected: bool, id: string, net: Net)
  {
    connected && net.Replied? && DocAt(w.updater.sink, id, w.updater.now).Some?
  }

  /** Coherence of the read path, in every reachable state and for every id that is
      read as a UUID, in canonical or any other spelling: a successful GET answers,
      field by field, with a version of the row that the database really held, at
      some point of its WAL up to now, and says which store it is from; without a
      cached document it is the current one, and a 404 means that the database has
      no such row, a 500 that it is down. With LSNs that rise as doubles and no dead letter for the order, the
      version is the current one, or nothing the updater has consumed of the order
      is both later in the topic and newer than it (see `Freshness` for when it is
      no older at all); and once the updater has consumed all of the order's
      entries it is the current row, whichever store answered. An id that is no
      UUID gets a 500. */
  lemma {:induction false} ReadCoherence(
      config: Config, events: seq<Event>, connected: bool, id: string, net: Net, other: Reading, up: bool)
    requires ProperInserts(events) && (other.Names? ==> Canonical(other.id))
    ensures var w := Reach(config, events);
            var res := Answer(w, connected, id, net, other, up);
            match ReadingOf(id, other)
            case Names(known) => Answers(w, known, res, CacheHit(w, connected, id, net), up)
            case Malformed => res == Failed
            case Beyond(row) =>
              if !up then res == Failed
              else if row.None? then res == NotFound
              else res.Found? && (row.value.Obj? ==> Shows(res.body, row.value, "postgres"))
    ensures !Canonical(id) ==> !CacheHit(Reach(config, events), connected, id, net)
  {
    var w := Reach(config, events);
    if Canonical(id) {
      WorldFolds(config, events, id);
      CachedIsVersion(config, events, id);
      AnswerCoheres(w, connected, id, net, other, up);
    } else {
      WorldStrays(config, events, id);
      match other
      case Names(known) =>
        WorldFolds(config, events, known);
        if known in w.db.rows { CurrentAnswer(w, known); }
      case Beyond(row) =>
        if row.Some? && row.value.Obj? { TaggedShows(row.value, "postgres"); }
      case Malformed =>
    }
  }

  lemma AnswerCoheres(
      w: World, connected: bool, id: string, net: Net, other: Reading, up: bool)
    requires InStep(w, id) && Canonical(id)
    requires var cached := DocAt(w.updater.sink, id, w.updater.now); cached.Some? ==> Cacheable(w, id, cached)
    ensures Answers(w, id, Answer(w, connected, id, net, other, up), CacheHit(w, connected, id, net), up)
  {
    var cached := DocAt(w.updater.sink, id, w.updater.now);
    if cached.Some? { CachedAnswer(w, id, cached.value); }
    if id in w.db.rows { CurrentAnswer(w, id); }
  }

  // ---- the index, and the envelope ---------------------------------------------

  /** Every entry the WAL has for the order has been published and indexed. */
  predicate IndexCaughtUp(w: World, id: string)
  {
    && Consumed(w.indexer, id)
    && forall k :: w.sent <= k < |w.db.wal| ==> EventOf(LogOf(w.db.wal)[k], id).None?
  }

  /** The index against the table, in every reachable state, republications included:
      once an order's entries have all been published and indexed without a dead
      letter, its document is its row, or its absence; and a document cached for it
      by a caught-up updater is the same. */
  lemma {:induction false} IndexCoherence(config: Config, events: seq<Event>, id: string)
    requires ProperInserts(events) && Canonical(id)
    ensures var w := Reach(config, events);
            Clean(w.indexer, id) && IndexCaughtUp(w, id) ==>
              && E.DocIn(w.indexer.sink, id) == RowIn(w.db, id)
              && (Undisturbed(w, id) && CaughtUp(w, id) && DocAt(w.updater.sink, id, w.updater.now).Some? ==>
                    DocAt(w.updater.sink, id, w.updater.now) == E.DocIn(w.indexer.sink, id))
  {
    var w := Reach(config, events);
    WorldFolds(config, events, id);
    CachedIsVersion(config, events, id);
    if Clean(w.indexer, id) && IndexCaughtUp(w, id) {
      IndexerRuns(config, events);
      E.Converges(config, IndexFeed(config, events), id);
      EndsInTable(w, id);
    }
  }

  lemma EndsInTable(w: World, id: string)
    requires InStep(w, id) && IndexCaughtUp(w, id)
    ensures RowOf(Version(w.indexer.log, id, |w.indexer.log|)) == RowIn(w.db, id)
  {
    var j: nat :| j <= |w.db.wal| && CarriesTo(w, id, j);
    VersionSettled(LogOf(w.db.wal), id, j, |w.db.wal|);
  }

  lemma EntryOnTheWire(w: World, codec: Codec, payload: Bytes, name: string, ms: int, key: string)
    requires Folded(w.db) && name != "id" && Framed(payload)
    requires !w.owed && w.sent < |w.db.wal| && !w.db.wal[w.sent].Ignored? && w.db.wal[w.sent].lsn < TWO_63
    requires codec.serdes(payload) == Converts(Some(D.Envelope(w.db.wal[w.sent], name, ms)))
    ensures Outgoing(w, Utf8(payload)) == Some(MessageOf(codec, payload, j => ChangeOf(j, key)))
  {
    assert |w.db.wal[w.sent].id| == 36;
    D.PublishedEntry(codec, payload, w.db.wal[w.sent], name, ms, key);
  }

  /** What capture publishes is what the consumers make of the bytes on the wire: the
      envelope of the next WAL entry, in the framed Avro format. */
  lemma {:induction false} PublishedOnTheWire(
      config: Config, events: seq<Event>, codec: Codec, payload: Bytes, name: string, ms: int, key: string)
    requires ProperInserts(events) && name != "id"
    requires var w := Reach(config, events);
             && !w.owed && w.sent < |w.db.wal| && !w.db.wal[w.sent].Ignored? && w.db.wal[w.sent].lsn < TWO_63
             && Framed(payload)
             && codec.serdes(payload) == Converts(Some(D.Envelope(w.db.wal[w.sent], name, ms)))
    ensures InputOf(Reach(config, events), Publish(Utf8(payload)))
         == Some(Append(MessageOf(codec, payload, j => ChangeOf(j, key))))
  {
    var w := Reach(config, events);
    WorldFolds(config, events, "");
    EntryOnTheWire(w, codec, payload, name, ms, key);
  }
}
