/** The read path: GET /api/v1/orders/:id, cache first, database on any trouble. */
module OrderApi {
  import opened Json
  import opened Options
  import opened RedisStore
  import opened Database
  import opened Sinks

  /** What became of the GET sent to Redis. */
  datatype Net = NoReply | OddReply | Replied

  datatype Lookup = Hit(value: Value) | Miss | Threw

  /** Statuses 200 or 201, 404, 400 and 500. */
  datatype Response = Found(body: Json) | NotFound | BadRequest | Failed

  /** `RedisClient::Get`: the result, and whether the context survives. */
  function CacheGet(connected: bool, store: Store, now: int, key: string, net: Net): (Lookup, bool)
  {
    if !connected then (Threw, false)
    else
      match net
      case NoReply => (Threw, false)
      case OddReply => (Threw, true)
      case Replied => (if Live(store, key, now) then Hit(store[key].value) else Miss, true)
  }

  /** The cached text parses to something that takes a "source" member. */
  function Usable(lookup: Lookup): Option<Json>
  {
    if lookup.Hit? && lookup.value.Document? && lookup.value.doc.Obj? then Some(lookup.value.doc)
    else if lookup.Hit? && lookup.value.Document? && lookup.value.doc.Null? then Some(Obj([]))
    else None
  }

  function Tagged(row: Json, source: string): Json
  {
    SetField(row, "source", Str(source))
  }

  /** The body is the row and says where it is from: `source` apart, what it has under
      any name is what the row has. */
  ghost predicate Shows(body: Json, row: Json, source: string)
  {
    && body.Obj? && row.Obj? && Find(body.members, "source") == Some(Str(source))
    && forall name: string :: name != "source" ==> Find(body.members, name) == Find(row.members, name)
  }

  lemma TaggedShows(row: Json, source: string)
    requires row.Obj?
    ensures Shows(Tagged(row, source), row, source)
  {
    forall name: string
      ensures Find(Tagged(row, source).members, name)
           == if name == "source" then Some(Str(source)) else Find(row.members, name)
    {
      FindSet(row.members, "source", Str(source), name);
    }
  }

  /** The reference: asking the database directly. `other` is how it reads an id that
      is no canonical UUID text. */
  function Direct(db: Db, id: string, other: Reading, up: bool): Response
  {
    var reading := ReadingOf(id, other);
    if !up || reading.Malformed? then Failed
    else
      var row := if reading.Names? then RowIn(db, reading.id) else reading.row;
      if row.Some? then Found(Tagged(row.value, "postgres")) else NotFound
  }

  /** A GET and everything it meets: the cache, the clock, the database, the net. */
  datatype Request = Request(id: string, store: Store, now: int, db: Db, net: Net, other: Reading, up: bool)

  function Handle(connected: bool, r: Request): (Response, bool)
  {
    var (lookup, alive) := CacheGet(connected, r.store, r.now, OrderKey(r.id), r.net);
    (if Usable(lookup).Some? then Found(Tagged(Usable(lookup).value, "redis"))
     else Direct(r.db, r.id, r.other, r.up),
     alive)
  }

  class RedisClient {
    const server: RedisServer
    /** `context_` is not null. Nothing reconnects it. */
    var connected: bool

    constructor (server: RedisServer)
      ensures this.server == server && connected
    {
      this.server, connected := server, true;
    }

    method Get(key: string, net: Net) returns (lookup: Lookup)
      modifies this`connected
      ensures (lookup, connected) == CacheGet(old(connected), server.store, server.now, key, net)
    {
      if !connected { return Threw; }
      if net.NoReply? {
        connected := false;
        return Threw;
      }
      if net.OddReply? { return Threw; }
      if !Live(server.store, key, server.now) { return Miss; }
      return Hit(server.store[key].value);
    }
  }

  class ApiServer {
    const redis: RedisClient
    const database: DatabaseClient

    constructor (redis: RedisClient, database: DatabaseClient)
      ensures this.redis == redis && this.database == database
    {
      this.redis, this.database := redis, database;
    }

    /** Inner try for the cache, any trouble there ignored; outer try for the rest. A
        live cached object is answered as it is but for its source, and a cached null
        as an object that has nothing else; otherwise the database answers, whose
        rows are objects. */
    method GetOrder(id: string, net: Net, other: Reading, up: bool) returns (res: Response)
      modifies redis`connected
      ensures redis.connected == (old(redis.connected) && !net.NoReply?)
      ensures var key, store := "order:" + id, redis.server.store;
              if && old(redis.connected) && net.Replied? && key in store && redis.server.now < store[key].expiresAt
                 && store[key].value.Document? && (store[key].value.doc.Obj? || store[key].value.doc.Null?)
              then
                && res.Found?
                && Shows(res.body, if store[key].value.doc.Null? then Obj([]) else store[key].value.doc, "redis")
              else
                match ReadingOf(id, other)
                case Names(known) =>
                  if !up then res == Failed
                  else if known !in database.db.rows then res == NotFound
                  else res.Found? && (database.db.rows[known].Obj? ==>
                                        Shows(res.body, database.db.rows[known], "postgres"))
                case Malformed => res == Failed
                case Beyond(row) =>
                  if !up then res == Failed
                  else if row.None? then res == NotFound
                  else res.Found? && (row.value.Obj? ==> Shows(res.body, row.value, "postgres"))
      ensures (res, redis.connected)
           == Handle(old(redis.connected),
                     Request(id, redis.server.store, redis.server.now, database.db, net, other, up))
    {
      var lookup := redis.Get("order:" + id, net);
      if lookup.Hit? && lookup.value.Document? {
        var response := lookup.value.doc;
        if response.Null? { response := Obj([]); }
        if response.Obj? {
          TaggedShows(response, "redis");
          return Found(Tagged(response, "redis"));
        }
      }
      var ok, row := database.GetOrderById(id, other, up);
      if !ok { return Failed; }
      if row.None? { return NotFound; }
      if row.value.Obj? { TaggedShows(row.value, "postgres"); }
      return Found(Tagged(row.value, "postgres"));
    }

    /** POST. `body` is the row the request asks for, or None where the text does not
        parse or lacks a member. 400 and 500 leave no row, except that a 500 hides
        a row whose commit was not acknowledged. */
    method PostOrder(orderId: string, body: Option<Json>, gap: nat, outcome: Outcome) returns (res: Response)
      modifies database
      ensures body.None? ==> res == BadRequest && database.db == old(database.db)
      ensures body.Some? ==>
                && res == (if outcome.Done? && orderId !in old(database.db).rows
                           then Found(Obj([Member("id", Str(orderId)), Member("status", Str("CREATED"))]))
                           else Failed)
                && database.db == if outcome.Rejected? then old(database.db)
                                  else Execute(old(database.db), Insert(orderId, body.value, gap))
      ensures !res.Found? && database.db != old(database.db) <==>
                body.Some? && outcome.AckLost? && orderId !in old(database.db).rows
    {
      if body.None? { return BadRequest; }
      var created := database.CreateOrder(orderId, body.value, gap, outcome);
      if created.None? { return Failed; }
      return Found(Obj([Member("id", Str(created.value)), Member("status", Str("CREATED"))]));
    }

    /** PATCH: 200, 404 when no row was affected, 400 for a bad body, 500 when the
        statement throws, the update then made or not. */
    method PatchStatus(orderId: string, other: Reading, body: Option<string>, gap: nat, outcome: Outcome)
      returns (res: Response)
      modifies database
      ensures body.None? ==> res == BadRequest && database.db == old(database.db)
      ensures body.Some? ==>
                match ReadingOf(orderId, other)
                case Names(id) =>
                  && res == (if !outcome.Done? then Failed
                             else if id in old(database.db).rows then Found(Obj([Member("updated", Bool(true))]))
                             else NotFound)
                  && database.db == (if outcome.Rejected? then old(database.db)
                                     else Execute(old(database.db), SetStatus(id, body.value, gap)))
                case _ => res == Failed && database.db == old(database.db)
      ensures res.NotFound? ==> database.db == old(database.db)
    {
      if body.None? { return BadRequest; }
      var found := database.UpdateOrderStatus(orderId, other, body.value, gap, outcome);
      if found.None? { return Failed; }
      if !found.value { return NotFound; }
      return Found(Obj([Member("updated", Bool(true))]));
    }
  }

  // ---- traces of requests -------------------------------------------------

  function Serve(connected: bool, rs: seq<Request>): (out: (seq<Response>, bool))
    ensures |out.0| == |rs|
  {
    if rs == [] then ([], connected)
    else
      var (responses, alive) := Serve(connected, rs[..|rs| - 1]);
      var (response, last) := Handle(alive, rs[|rs| - 1]);
      (responses + [response], last)
  }

  /** Whatever happens to the cache, a trace is served as the database alone would
      serve it, except where a live, usable document was found over a connection
      that had never missed a reply before. */
  lemma {:induction false} ServedDirectly(rs: seq<Request>, i: int)
    requires 0 <= i < |rs|
    requires || (exists k :: 0 <= k <= i && rs[k].net.NoReply?)
             || !rs[i].net.Replied?
             || Usable(CacheGet(true, rs[i].store, rs[i].now, OrderKey(rs[i].id), Replied).0).None?
    ensures Serve(true, rs).0[i] == Direct(rs[i].db, rs[i].id, rs[i].other, rs[i].up)
  {
    var n := |rs| - 1;
    if i < n {
      if k :| 0 <= k <= i && rs[k].net.NoReply? {
        assert rs[..n][k] == rs[k];
      }
      ServedDirectly(rs[..n], i);
    } else {
      StaysDown(rs[..n]);
      if k :| 0 <= k <= i && rs[k].net.NoReply? {
        assert k < n ==> rs[..n][k] == rs[k];
      }
    }
  }

  /** The context is alive only while no reply was ever missed. */
  lemma {:induction false} StaysDown(rs: seq<Request>)
    ensures Serve(true, rs).1 <==> !exists k :: 0 <= k < |rs| && rs[k].net.NoReply?
  {
    if rs != [] {
      var n := |rs| - 1;
      StaysDown(rs[..n]);
      if k :| 0 <= k < |rs| && rs[k].net.NoReply? {
        assert k < n ==> rs[..n][k] == rs[k];
      }
      if k :| 0 <= k < n && rs[..n][k].net.NoReply? {
        assert rs[k].net.NoReply?;
      }
    }
  }
}
