/** The two stores against each other. */
module DualStore {
  import opened Records
  import opened RedisStore
  import opened Protocol
  import opened SinkSpecs
  import opened History
  import R = RedisRuns
  import E = EsRuns

  /** Dual-store agreement: when both consumers of one log have passed every event
      of an order without dead-lettering any, the index holds the order's row,
      and the cache holds the same row unless its entries have lapsed. */
  lemma {:induction false} Agreement(config: Config,
      toRedis: seq<Input<Change, Reply>>, toEs: seq<Input<Change, HttpReply>>, id: string)
    requires var r := Exec(REDIS_SINK, config, Init(map[]), toRedis);
             var e := Exec(ES_SINK, config, Init(map[]), toEs);
             && r.log == e.log
             && Isolated(r.log, id) && LastIsNewest(r.log, id) && Clean(r, id)
             && Consumed(r, id) && Clean(e, id) && Consumed(e, id)
    ensures var r := Exec(REDIS_SINK, config, Init(map[]), toRedis);
            var e := Exec(ES_SINK, config, Init(map[]), toEs);
            && E.DocIn(e.sink, id) == RowOf(Version(e.log, id, |e.log|))
            && (DocAt(r.sink, id, r.now).Some? ==> DocAt(r.sink, id, r.now) == E.DocIn(e.sink, id))
            && ((LsnKey(id) in r.sink ==> Live(r.sink, LsnKey(id), r.now)) ==>
                  DocAt(r.sink, id, r.now) == E.DocIn(e.sink, id))
  {
    R.Converges(config, toRedis, id);
    E.Converges(config, toEs, id);
  }
}
