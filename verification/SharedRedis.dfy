/** The updater's and the notifier's consumers side by side on the one Redis, taking
    turns in any order: neither notices what the other does to the keyspace, so
    what is proved of each alone holds of both together. */
module SharedRedis {
  import opened Options
  import opened Records
  import opened RedisStore
  import opened Protocol
  import opened SinkSpecs
  import opened History
  import R = RedisRuns
  import N = NotifierRuns
  import G = GuardRuns

  datatype Joint = Joint(updater: R.Updater, notifier: N.Notifying)

  datatype Turn = OfUpdater(change: Input<Change, Reply>) | OfNotifier(notice: Input<Notice, Reply>)

  const AT_REST := Joint(Init(map[]), N.QUIET)

  /** One consumer moves; the other finds the keyspace and the clock as it left them. */
  function Move(config: Config, j: Joint, turn: Turn): Joint
  {
    match turn
    case OfUpdater(input) =>
      var u := Step(REDIS_SINK, config, j.updater, input);
      Joint(u, j.notifier.(sink := Mailroom(u.sink, j.notifier.sink.claims), now := u.now))
    case OfNotifier(input) =>
      var n := Step(NOTIFY_SINK, config, j.notifier, input);
      Joint(j.updater.(sink := n.sink.store, now := n.now), n)
  }

  function Together(config: Config, turns: seq<Turn>): Joint
  {
    if turns == [] then AT_REST else Move(config, Together(config, turns[..|turns| - 1]), turns[|turns| - 1])
  }

  /** The updater's own inputs; of the notifier's turns it sees only the time pass. */
  function ForUpdater(config: Config, turns: seq<Turn>): seq<Input<Change, Reply>>
  {
    if turns == [] then []
    else
      var n := |turns| - 1;
      var before := Together(config, turns[..n]);
      ForUpdater(config, turns[..n])
      + [if turns[n].OfUpdater? then turns[n].change
         else Tick(Max(Together(config, turns).notifier.now - before.notifier.now, 0))]
  }

  function ForNotifier(config: Config, turns: seq<Turn>): seq<Input<Notice, Reply>>
  {
    if turns == [] then []
    else
      var n := |turns| - 1;
      var before := Together(config, turns[..n]);
      ForNotifier(config, turns[..n])
      + [if turns[n].OfNotifier? then turns[n].notice
         else Tick(Max(Together(config, turns).updater.now - before.updater.now, 0))]
  }

  // ---- the two sides of the keyspace -----------------------------------------

  /** The stores agree on the keys that begin with this letter: `o` for the orders,
      `e` for the notifications. */
  ghost predicate SameSide(a: Store, b: Store, side: char)
  {
    forall key: string :: key != "" && key[0] == side ==> (key in a <==> key in b) && (key in a ==> a[key] == b[key])
  }

  lemma OrderSide(id: string)
    ensures OrderKey(id)[0] == 'o' && LsnKey(id)[0] == 'o'
  {
  }

  lemma ProcessSame(a: Store, b: Store, change: Change, reply: Reply, now: int)
    requires SameSide(a, b, 'o')
    ensures RedisProcess(a, change, reply, now).threw == RedisProcess(b, change, reply, now).threw
    ensures SameSide(RedisProcess(a, change, reply, now).sink, RedisProcess(b, change, reply, now).sink, 'o')
    ensures SameSide(RedisProcess(a, change, reply, now).sink, a, 'e')
  {
    if !change.Ignored? { OrderSide(change.id); }
  }

  lemma NotifySame(a: Mailroom, b: Mailroom, notice: Notice, reply: Reply, now: int)
    requires SameSide(a.store, b.store, 'e') && a.claims == b.claims
    ensures NotifyProcess(a, notice, reply, now).threw == NotifyProcess(b, notice, reply, now).threw
    ensures SameSide(NotifyProcess(a, notice, reply, now).sink.store,
                     NotifyProcess(b, notice, reply, now).sink.store, 'e')
    ensures NotifyProcess(a, notice, reply, now).sink.claims == NotifyProcess(b, notice, reply, now).sink.claims
    ensures SameSide(NotifyProcess(a, notice, reply, now).sink.store, a.store, 'o')
  {
    if notice.Mail? { assert EmailKey(notice.id, notice.status)[0] == 'e'; }
  }

  // ---- each as if alone ------------------------------------------------------

  ghost predicate UpdaterLike(alone: R.Updater, u: R.Updater)
  {
    u == alone.(sink := u.sink) && SameSide(alone.sink, u.sink, 'o')
  }

  ghost predicate NotifierLike(alone: N.Notifying, n: N.Notifying)
  {
    && n == alone.(sink := n.sink) && SameSide(alone.sink.store, n.sink.store, 'e')
    && alone.sink.claims == n.sink.claims
  }

  predicate CallsSink<S, A, R>(st: State<S, A>, input: Input<A, R>)
  {
    input.Go? && st.pc.Attempting? && st.pos < |st.log| && st.log[st.pos].Record?
  }

  function Called<S, A, R>(sink: Sink<S, A, R>, st: State<S, A>, input: Input<A, R>): Attempted<S>
    requires CallsSink(st, input)
  {
    sink.process(st.sink, st.log[st.pos].action, input.env.reply, st.now)
  }

  lemma CallStep<S, A, R>(sink: Sink<S, A, R>, config: Config, st: State<S, A>, input: Input<A, R>)
    requires CallsSink(st, input)
    ensures var after := Called(sink, st, input);
            && Step(sink, config, st, input)
               == st.(sink := after.sink, trail := st.trail + [Tried(st.pos, after.threw)],
                      pc := if after.threw then Caught(st.pc.attempt, st.pc.backoff) else Committing(Succeeded))
  {
  }

  lemma OtherAdvance<S, A, R>(sink: Sink<S, A, R>, config: Config, st: State<S, A>, s: S, env: Env<R>)
    requires !CallsSink(st, Go(env))
    ensures Advance(sink, config, st, env).sink == st.sink
    ensures Advance(sink, config, st.(sink := s), env) == Advance(sink, config, st, env).(sink := s)
  {
    match st.pc
    case Polling =>
    case Routing(_) =>
    case _ =>
  }

  /** A step changes the sink only by calling it, and of the sink nothing but whether
      the call threw matters to the rest of the state. */
  lemma StepThroughSink<S, A, R>(
      sink: Sink<S, A, R>, config: Config, a: State<S, A>, b: State<S, A>, input: Input<A, R>)
    requires b == a.(sink := b.sink)
    requires CallsSink(a, input) ==> Called(sink, a, input).threw == Called(sink, b, input).threw
    ensures var x, y := Step(sink, config, a, input), Step(sink, config, b, input);
            && y == x.(sink := y.sink)
            && x.sink == (if CallsSink(a, input) then Called(sink, a, input).sink else a.sink)
            && y.sink == (if CallsSink(a, input) then Called(sink, b, input).sink else b.sink)
  {
    if CallsSink(a, input) {
      CallStep(sink, config, a, input);
      CallStep(sink, config, b, input);
    } else if input.Go? {
      OtherAdvance(sink, config, a, b.sink, input.env);
    }
  }

  lemma UpdaterStep(config: Config, alone: R.Updater, u: R.Updater, input: Input<Change, Reply>)
    requires UpdaterLike(alone, u)
    ensures UpdaterLike(Step(REDIS_SINK, config, alone, input), Step(REDIS_SINK, config, u, input))
    ensures SameSide(Step(REDIS_SINK, config, u, input).sink, u.sink, 'e')
  {
    if CallsSink(u, input) {
      ProcessSame(alone.sink, u.sink, u.log[u.pos].action, input.env.reply, u.now);
      ProcessSame(u.sink, u.sink, u.log[u.pos].action, input.env.reply, u.now);
    }
    StepThroughSink(REDIS_SINK, config, alone, u, input);
  }

  lemma NotifierStep(config: Config, alone: N.Notifying, n: N.Notifying, input: Input<Notice, Reply>)
    requires NotifierLike(alone, n)
    ensures NotifierLike(Step(NOTIFY_SINK, config, alone, input), Step(NOTIFY_SINK, config, n, input))
    ensures SameSide(Step(NOTIFY_SINK, config, n, input).sink.store, n.sink.store, 'o')
  {
    if CallsSink(n, input) {
      NotifySame(alone.sink, n.sink, n.log[n.pos].action, input.env.reply, n.now);
      NotifySame(n.sink, n.sink, n.log[n.pos].action, input.env.reply, n.now);
    }
    StepThroughSink(NOTIFY_SINK, config, alone, n, input);
  }

  lemma ClockForward<S, A, R>(sink: Sink<S, A, R>, config: Config, st: State<S, A>, input: Input<A, R>)
    ensures st.now <= Step(sink, config, st, input).now
  {
  }

  /** Two consumers with one keyspace and one clock, each like one that is alone. */
  ghost predicate AsIfAlone(j: Joint, u: R.Updater, n: N.Notifying)
  {
    && j.updater.sink == j.notifier.sink.store && j.updater.now == j.notifier.now
    && UpdaterLike(u, j.updater) && NotifierLike(n, j.notifier)
  }

  lemma UpdaterMoves(config: Config, j: Joint, u: R.Updater, n: N.Notifying, input: Input<Change, Reply>)
    requires AsIfAlone(j, u, n)
    ensures var next := Move(config, j, OfUpdater(input));
            && j.updater.now <= next.updater.now
            && AsIfAlone(next, Step(REDIS_SINK, config, u, input),
                           Step(NOTIFY_SINK, config, n, Tick(next.updater.now - j.updater.now)))
  {
    ClockForward(REDIS_SINK, config, j.updater, input);
    UpdaterStep(config, u, j.updater, input);
  }

  lemma NotifierMoves(config: Config, j: Joint, u: R.Updater, n: N.Notifying, input: Input<Notice, Reply>)
    requires AsIfAlone(j, u, n)
    ensures var next := Move(config, j, OfNotifier(input));
            && j.notifier.now <= next.notifier.now
            && AsIfAlone(next, Step(REDIS_SINK, config, u, Tick(next.notifier.now - j.notifier.now)),
                           Step(NOTIFY_SINK, config, n, input))
  {
    ClockForward(NOTIFY_SINK, config, j.notifier, input);
    NotifierStep(config, n, j.notifier, input);
  }

  /** Whatever turns they take, each is where it would be if it had run alone, with
      time passing while the other moved; its side of the keyspace is the same. */
  lemma {:induction false} Separate(config: Config, turns: seq<Turn>)
    ensures AsIfAlone(Together(config, turns),
                        Exec(REDIS_SINK, config, Init(map[]), ForUpdater(config, turns)),
                        Exec(NOTIFY_SINK, config, N.QUIET, ForNotifier(config, turns)))
  {
    if turns != [] {
      var n := |turns| - 1;
      var before := Together(config, turns[..n]);
      var u, m := ForUpdater(config, turns[..n]), ForNotifier(config, turns[..n]);
      Separate(config, turns[..n]);
      match turns[n]
      case OfUpdater(input) =>
        UpdaterMoves(config, before, Exec(REDIS_SINK, config, Init(map[]), u),
                     Exec(NOTIFY_SINK, config, N.QUIET, m), input);
        var later := Together(config, turns).updater.now - before.updater.now;
        ExecSnoc(REDIS_SINK, config, Init(map[]), u, input);
        ExecSnoc(NOTIFY_SINK, config, N.QUIET, m, Tick(later));
      case OfNotifier(input) =>
        NotifierMoves(config, before, Exec(REDIS_SINK, config, Init(map[]), u),
                      Exec(NOTIFY_SINK, config, N.QUIET, m), input);
        var later := Together(config, turns).notifier.now - before.notifier.now;
        ExecSnoc(REDIS_SINK, config, Init(map[]), u, Tick(later));
        ExecSnoc(NOTIFY_SINK, config, N.QUIET, m, input);
    }
  }

  // ---- what follows ---------------------------------------------------------

  lemma SameRegister(a: Store, b: Store, id: string, now: int)
    requires SameSide(a, b, 'o')
    ensures SlotAt(a, id, now) == SlotAt(b, id, now) && DocAt(a, id, now) == DocAt(b, id, now)
    ensures Paired(a, id) == Paired(b, id) && (LsnKey(id) in a <==> LsnKey(id) in b)
    ensures Live(a, LsnKey(id), now) == Live(b, LsnKey(id), now)
  {
    OrderSide(id);
  }

  /** The cache, with notifiers on the same Redis: its register is as fresh as ever,
      and at the end of the order's log it is the fold of the log, exactly when it
      would be without them. */
  lemma {:induction false} SharedCache(config: Config, turns: seq<Turn>, id: string)
    requires Isolated(Together(config, turns).updater.log, id)
    ensures var st := Together(config, turns).updater;
            && R.Tracks(st, id)
            && (LastIsNewest(st.log, id) && Clean(st, id) && Consumed(st, id)
                && SlotAt(st.sink, id, st.now).Some? ==>
                  SlotAt(st.sink, id, st.now) == Version(st.log, id, |st.log|))
            && (Clean(st, id) && Consumed(st, id) && G.NeverLapses(config, ForUpdater(config, turns), id) ==>
                  (SlotAt(st.sink, id, st.now) == Version(st.log, id, |st.log|) <==> G.EndsGreatest(st.log, id)))
  {
    Separate(config, turns);
    var st, inputs := Together(config, turns).updater, ForUpdater(config, turns);
    var alone := Exec(REDIS_SINK, config, Init(map[]), inputs);
    SameRegister(alone.sink, st.sink, id, st.now);
    R.RunTracks(config, inputs, id);
    TracksLike(alone, st, id);
    if Clean(st, id) && Consumed(st, id) {
      CleanLike(alone, st, id);
      if LastIsNewest(st.log, id) { R.Converges(config, inputs, id); }
      if G.NeverLapses(config, inputs, id) { G.ConvergesExactly(config, inputs, id); }
    }
  }

  lemma CleanLike(alone: R.Updater, st: R.Updater, id: string)
    requires UpdaterLike(alone, st) && Clean(st, id) && Consumed(st, id)
    ensures Clean(alone, id) && Consumed(alone, id)
  {
  }

  lemma TracksLike(alone: R.Updater, st: R.Updater, id: string)
    requires UpdaterLike(alone, st) && R.Tracks(alone, id)
    ensures R.Tracks(st, id)
  {
    SameRegister(alone.sink, st.sink, id, st.now);
    assert forall o: nat :: Stored(st, o) == Stored(alone, o);
    var slot := SlotAt(st.sink, id, st.now);
    if slot.Some? {
      var e: nat :| e < alone.high && R.HeldFrom(alone, id, slot.value, e);
      assert R.HeldFrom(st, id, slot.value, e);
    }
  }

  /** Notifications, with the cache on the same Redis: the claims granted are exactly
      the winners among the calls. */
  lemma {:induction false} SharedNotices(config: Config, turns: seq<Turn>, id: string, status: string)
    requires N.Proper(Together(config, turns).notifier.log) && Announced(status)
    ensures N.ClaimsOf(Together(config, turns).notifier.sink.claims, id, status)
         == N.Winners(N.Calls(config, ForNotifier(config, turns), id, status))
  {
    Separate(config, turns);
    N.ClaimsAreWinners(config, ForNotifier(config, turns), id, status);
  }
}
