/** The whole-run theorems, read off the fields of a consumer object: what its
    sink holds wherever `Run` has left it, after any number of restarts. */
module LoopOutcomes {
  import opened Records
  import opened RedisStore
  import opened Protocol
  import opened Offsets
  import opened SinkSpecs
  import opened History
  import opened ConsumerLoop
  import R = RedisRuns
  import E = EsRuns

  /** A cache consumer that has passed every event of an order holds the fold of
      its log for that order, unless it has lapsed. */
  lemma CacheAfterRun(c: KafkaConsumerBase<Store, Change, Reply>, pc: Pc, id: string)
    requires c.processRecord == REDIS_SINK && c.At(pc, Init(map[]))
    requires Isolated(c.log, id) && LastIsNewest(c.log, id) && Clean(c.View(pc), id) && Consumed(c.View(pc), id)
    ensures c.committed <= c.pos <= |c.log|
    ensures SlotAt(c.sink, id, c.now).Some? ==> SlotAt(c.sink, id, c.now) == Version(c.log, id, |c.log|)
    ensures DocAt(c.sink, id, c.now).Some? ==> DocAt(c.sink, id, c.now) == RowOf(Version(c.log, id, |c.log|))
  {
    var inputs := c.script[..c.cursor];
    RunKeepsSound(REDIS_SINK, c.config, Init(map[]), inputs);
    R.Converges(c.config, inputs, id);
  }

  /** An index consumer that has passed every event of an order agrees with the
      fold of its log. */
  lemma IndexAfterRun(c: KafkaConsumerBase<Index, Change, HttpReply>, pc: Pc, id: string)
    requires c.processRecord == ES_SINK && c.At(pc, Init(map[]))
    requires Clean(c.View(pc), id) && Consumed(c.View(pc), id)
    ensures E.DocIn(c.sink, id) == RowOf(Version(c.log, id, |c.log|))
  {
    E.Converges(c.config, c.script[..c.cursor], id);
  }
}
