/** The three overrides of `ProcessRecord`, each with its own copy of the record
    classification, acting on servers they update in place. Each is proved equal
    to the sink function that the whole-run theorems are about. */
module Sinks {
  import opened Json
  import opened Options
  import opened LuaNumber
  import opened Records
  import opened RedisStore
  import opened Protocol
  import opened SinkSpecs

  // ---- servers ----------------------------------------------------------

  class RedisServer {
    var store: Store
    var now: int

    /** EVAL lua_upsert 1 key doc lsn 86400: true if it returned 1. */
    method EvalUpsert(key: string, doc: Json, lsn: int, ghost id: string) returns (accepted: bool)
      requires key == OrderKey(id)
      modifies this`store
      ensures store == LuaUpsert(old(store), id, doc, lsn, now)
      ensures accepted == !Stale(old(store), id, lsn, now)
    {
      var lsnKey := key + ":lsn";
      var current := if Live(store, lsnKey, now) then Some(store[lsnKey].value) else None;
      if current.Some? && ToNumber(current.value).Some? && Round(lsn) <= ToNumber(current.value).value {
        return false;
      }
      store := store[key := Entry(Document(doc), now + TTL)];
      store := store[lsnKey := Entry(Number(lsn), now + TTL)];
      return true;
    }

    /** EVAL lua_del 1 key lsn 86400 */
    method EvalDelete(key: string, lsn: int, ghost id: string)
      requires key == OrderKey(id)
      modifies this`store
      ensures store == LuaDelete(old(store), id, lsn, now)
    {
      var lsnKey := key + ":lsn";
      var current := if Live(store, lsnKey, now) then Some(store[lsnKey].value) else None;
      if current.Some? && ToNumber(current.value).Some? && Round(lsn) <= ToNumber(current.value).value {
        return;
      }
      store := store - {key};
      store := store[lsnKey := Entry(Number(lsn), now + TTL)];
    }

    /** SET key 1 EX 86400 NX: true if it answered OK. */
    method SetIfAbsent(key: string) returns (ok: bool)
      modifies this`store
      ensures store == SetNx(old(store), key, now)
      ensures ok == !Live(old(store), key, now)
    {
      ok := !Live(store, key, now);
      if ok {
        store := store[key := Entry(One, now + TTL)];
      }
    }
  }

  class EsServer {
    var index: Index

    /** PUT /orders/_doc/id; 0 is cpr's status for no answer. */
    method Put(id: string, doc: Json, reply: HttpReply) returns (status: int)
      modifies this
      ensures index == if reply.Served? || reply.ReplyLost? then old(index)[id := doc] else old(index)
      ensures 200 <= status < 300 <==> reply.Served?
      ensures reply.Rejected? ==> status == reply.status
    {
      match reply
      case Unreached => status := 0;
      case Rejected(code) => status := code;
      case ReplyLost => index, status := index[id := doc], 0;
      case Served => index, status := index[id := doc], 200;
    }

    /** DELETE /orders/_doc/id; answers 404 only where there is no such document. */
    method Delete(id: string, reply: HttpReply) returns (status: int)
      modifies this
      ensures index == if reply.Served? || reply.ReplyLost? || reply == Rejected(404) then old(index) - {id}
                       else old(index)
      ensures 200 <= status < 300 || status == 404 <==> reply.Served? || reply == Rejected(404)
      ensures status == 404 ==> id !in index
    {
      match reply
      case Unreached => status := 0;
      case Rejected(code) =>
        status := code;
        if code == 404 { index := index - {id}; }
      case ReplyLost => index, status := index - {id}, 0;
      case Served =>
        status := if id in index then 200 else 404;
        index := index - {id};
    }
  }

  // ---- connections ------------------------------------------------------

  datatype Context = Absent | Broken | Ready

  /** How the network treats one call: whether a needed reconnect succeeds, what
      becomes of the command, and whether its failure breaks the context. */
  datatype Link = Link(connects: bool, reply: Reply, breaks: bool)

  function Effective(context: Context, link: Link): Reply
  {
    if context.Ready? || link.connects then link.reply else NotReached
  }

  // ---- RedisUpdater -----------------------------------------------------

  class RedisUpdater {
    const server: RedisServer
    var context: Context

    constructor (server: RedisServer)
      ensures this.server == server && context == Absent
    {
      this.server, context := server, Absent;
    }

    /** A missing or broken context is replaced; false where it throws. */
    method EnsureConnected(connects: bool) returns (ok: bool)
      modifies this`context
      ensures ok == (old(context).Ready? || connects)
      ensures context == if ok then Ready else Broken
    {
      if !context.Ready? {
        context := if connects then Ready else Broken;
      }
      ok := context.Ready?;
    }

    method ExtractLsn(record: Json) returns (lsn: int)
      ensures lsn == Lsn(record)
    {
      if Contains(record, "source") && Get(record, "source").Obj? {
        var src := Get(record, "source");
        if Contains(src, "lsn") && !Get(src, "lsn").Null? {
          var v := Get(src, "lsn");
          if IsNumber(v) {
            return NumberAsInt64(v);
          } else if v.Str? {
            if Stoll(v.s).Some? { return Stoll(v.s).value; }
          } else if v.Obj? {
            var i := 0;
            while i < |v.members|
              invariant 0 <= i <= |v.members| && FirstLsn(v.members) == FirstLsn(v.members[i..])
            {
              var field := v.members[i].value;
              assert v.members[i..][1..] == v.members[i + 1..];
              if IsNumber(field) { return NumberAsInt64(field); }
              if field.Str? && Stoll(field.s).Some? { return Stoll(field.s).value; }
              i := i + 1;
            }
          }
        }
        if Contains(src, "ts_ms") && IsNumber(Get(src, "ts_ms")) {
          return NumberAsInt64(Get(src, "ts_ms"));
        }
      }
      if Contains(record, "ts_ms") && IsNumber(Get(record, "ts_ms")) {
        return NumberAsInt64(Get(record, "ts_ms"));
      }
      return 0;
    }

    /** This consumer's copy of the classification. */
    method Classify(record: Json, key: string) returns (change: Change)
      ensures change == ChangeOf(record, key)
    {
      var orderData: Json;
      if Contains(record, "after") && !Get(record, "after").Null? {
        orderData := Get(record, "after");
      } else if Contains(record, "order_id") || Contains(record, "id") {
        orderData := record;
      } else {
        if Contains(record, "op") && Get(record, "op") == Str("d")
           && Contains(record, "before") && !Get(record, "before").Null? {
          var beforeData := Get(record, "before");
          if beforeData.Obj? {
            if Contains(beforeData, "Value") && Get(beforeData, "Value").Obj? {
              beforeData := Get(beforeData, "Value");
            } else if |beforeData.members| == 1 && beforeData.members[0].value.Obj? && !Contains(beforeData, "id") {
              beforeData := beforeData.members[0].value;
            }
          }
          assert DeletedRow(record) == Some(beforeData);
          var deletedId := "";
          if Contains(beforeData, "id") && !Get(beforeData, "id").Null? {
            deletedId := Text(Get(beforeData, "id"));
          } else if Contains(beforeData, "order_id") && !Get(beforeData, "order_id").Null? {
            deletedId := Text(Get(beforeData, "order_id"));
          }
          if deletedId == "" { deletedId := key; }
          if deletedId != "" {
            var lsn := ExtractLsn(record);
            return Delete(deletedId, lsn);
          }
        }
        return Ignored;
      }

      if orderData.Obj? {
        if Contains(orderData, "Value") && Get(orderData, "Value").Obj? {
          orderData := Get(orderData, "Value");
        } else if |orderData.members| == 1 && orderData.members[0].value.Obj? && !Contains(orderData, "id") {
          orderData := orderData.members[0].value;
        }
      }
      assert WrittenRow(record) == Some(orderData);
      var orderId := "";
      if Contains(orderData, "id") && !Get(orderData, "id").Null? {
        orderId := Text(Get(orderData, "id"));
      } else if Contains(orderData, "order_id") && !Get(orderData, "order_id").Null? {
        orderId := Text(Get(orderData, "order_id"));
      }
      if orderId == "" { orderId := key; }
      if orderId == "" { return Ignored; }
      var lsn := ExtractLsn(record);
      return Upsert(orderId, orderData, lsn);
    }

    method ProcessRecord(record: Json, key: string, link: Link) returns (threw: bool)
      modifies this`context, server`store
      ensures Attempted(server.store, threw)
           == RedisProcess(old(server.store), ChangeOf(record, key), Effective(old(context), link), server.now)
      ensures context == if ChangeOf(record, key).Ignored? then old(context)
                         else if !old(context).Ready? && !link.connects then Broken
                         else match link.reply
                              case NotReached => if link.breaks then Broken else Ready
                              case Lost => Broken
                              case Answered => Ready
      ensures !old(context).Ready? && !link.connects ==>
                server.store == old(server.store) && (threw <==> !ChangeOf(record, key).Ignored?)
    {
      var change := Classify(record, key);
      if change.Ignored? { return false; }
      var connected := EnsureConnected(link.connects);
      if !connected { return true; }
      if link.reply.NotReached? {
        context := if link.breaks then Broken else Ready;
        return true;
      }
      var redisKey := "order:" + change.id;
      var accepted := true;
      if change.Upsert? {
        accepted := server.EvalUpsert(redisKey, change.doc, change.lsn, change.id);
      } else {
        server.EvalDelete(redisKey, change.lsn, change.id);
      }
      if link.reply.Lost? {
        context := Broken;
        return true;
      }
      if change.Delete? || !accepted { return false; }
      return StatusOf(change.doc, "UNKNOWN").None?;
    }
  }

  // ---- ESIndexer --------------------------------------------------------

  function WithLsn(change: Change, lsn: int): Change
  {
    if change.Ignored? then change else change.(lsn := lsn)
  }

  class EsIndexer {
    const server: EsServer

    constructor (server: EsServer)
      ensures this.server == server
    {
      this.server := server;
    }

    /** This consumer's copy of the classification; it reads no LSN. */
    method Classify(record: Json, key: string) returns (change: Change)
      ensures change == WithLsn(ChangeOf(record, key), 0)
    {
      var orderData: Json;
      if Contains(record, "after") && !Get(record, "after").Null? {
        orderData := Get(record, "after");
      } else if Contains(record, "order_id") || Contains(record, "id") {
        orderData := record;
      } else {
        if Contains(record, "op") && Get(record, "op") == Str("d")
           && Contains(record, "before") && !Get(record, "before").Null? {
          var beforeData := Get(record, "before");
          if beforeData.Obj? {
            if Contains(beforeData, "Value") && Get(beforeData, "Value").Obj? {
              beforeData := Get(beforeData, "Value");
            } else if |beforeData.members| == 1 && beforeData.members[0].value.Obj? && !Contains(beforeData, "id") {
              beforeData := beforeData.members[0].value;
            }
          }
          assert DeletedRow(record) == Some(beforeData);
          var deletedId := "";
          if Contains(beforeData, "id") && !Get(beforeData, "id").Null? {
            deletedId := Text(Get(beforeData, "id"));
          } else if Contains(beforeData, "order_id") && !Get(beforeData, "order_id").Null? {
            deletedId := Text(Get(beforeData, "order_id"));
          }
          if deletedId == "" { deletedId := key; }
          if deletedId != "" {
            return Delete(deletedId, 0);
          }
        }
        return Ignored;
      }

      if orderData.Obj? {
        if Contains(orderData, "Value") && Get(orderData, "Value").Obj? {
          orderData := Get(orderData, "Value");
        } else if |orderData.members| == 1 && orderData.members[0].value.Obj? && !Contains(orderData, "id") {
          orderData := orderData.members[0].value;
        }
      }
      assert WrittenRow(record) == Some(orderData);
      var orderId := "";
      if Contains(orderData, "id") && !Get(orderData, "id").Null? {
        orderId := Text(Get(orderData, "id"));
      } else if Contains(orderData, "order_id") && !Get(orderData, "order_id").Null? {
        orderId := Text(Get(orderData, "order_id"));
      }
      if orderId == "" { orderId := key; }
      if orderId == "" { return Ignored; }
      return Upsert(orderId, orderData, 0);
    }

    method ProcessRecord(record: Json, key: string, reply: HttpReply, now: int) returns (threw: bool)
      modifies server
      ensures Attempted(server.index, threw) == EsProcess(old(server.index), ChangeOf(record, key), reply, now)
    {
      var change := Classify(record, key);
      match change
      case Ignored => return false;
      case Delete(id, _) =>
        var status := server.Delete(id, reply);
        if 200 <= status < 300 { return false; }
        return status != 404;
      case Upsert(id, doc, _) =>
        var status := server.Put(id, doc, reply);
        return !(200 <= status < 300);
    }
  }

  // ---- Notifier ---------------------------------------------------------

  datatype Email = Email(recipient: string, id: string, status: string)

  /** The recipient's name: user_id, else customer_id, else guest. */
  function Customer(row: Json): string
  {
    if Has(row, "user_id") then Text(Get(row, "user_id"))
    else if Has(row, "customer_id") then Text(Get(row, "customer_id"))
    else "guest"
  }

  /** The email that a record asks for, if it does. */
  function EmailFor(record: Json, key: string): Option<Email>
  {
    match NoticeOf(record, key)
    case Mail(id, status) => Some(Email(Customer(ChangeOf(record, key).doc) + "@example.com", id, status))
    case _ => None
  }

  class Notifier {
    const server: RedisServer
    var context: Context
    var emails: seq<Email>
    /** Claims won at the server, including those whose reply never came. */
    ghost var claims: seq<Claimed>

    constructor (server: RedisServer)
      ensures this.server == server && context == Absent && emails == [] && claims == []
    {
      this.server, context, emails, claims := server, Absent, [], [];
    }

    method EnsureConnected(connects: bool) returns (ok: bool)
      modifies this`context
      ensures ok == (old(context).Ready? || connects)
      ensures context == if ok then Ready else Broken
    {
      if !context.Ready? {
        context := if connects then Ready else Broken;
      }
      ok := context.Ready?;
    }

    /** This consumer's copy of the classification: it ignores deletes. */
    method Classify(record: Json, key: string) returns (row: Option<Json>, orderId: string)
      ensures match ChangeOf(record, key)
              case Upsert(id, doc, _) => row == Some(doc) && orderId == id
              case _ => row == None
    {
      var orderData: Json;
      if Contains(record, "after") && !Get(record, "after").Null? {
        orderData := Get(record, "after");
      } else if Contains(record, "order_id") || Contains(record, "id") {
        orderData := record;
      } else {
        return None, "";
      }

      if orderData.Obj? {
        if Contains(orderData, "Value") && Get(orderData, "Value").Obj? {
          orderData := Get(orderData, "Value");
        } else if |orderData.members| == 1 && orderData.members[0].value.Obj? && !Contains(orderData, "id") {
          orderData := orderData.members[0].value;
        }
      }
      assert WrittenRow(record) == Some(orderData);
      orderId := "";
      if Contains(orderData, "id") && !Get(orderData, "id").Null? {
        orderId := Text(Get(orderData, "id"));
      } else if Contains(orderData, "order_id") && !Get(orderData, "order_id").Null? {
        orderId := Text(Get(orderData, "order_id"));
      }
      if orderId == "" { orderId := key; }
      row := if orderId == "" then None else Some(orderData);
    }

    method CustomerOf(row: Json) returns (customerId: string)
      ensures customerId == Customer(row)
    {
      customerId := "guest";
      if Contains(row, "user_id") && !Get(row, "user_id").Null? {
        customerId := Text(Get(row, "user_id"));
      } else if Contains(row, "customer_id") && !Get(row, "customer_id").Null? {
        customerId := Text(Get(row, "customer_id"));
      }
    }

    /** SET NX, and the email if this call is the one that set the key. */
    method Notify(orderId: string, status: string, customerId: string, link: Link) returns (threw: bool)
      modifies this, server`store
      ensures Attempted(Mailroom(server.store, claims), threw)
           == NotifyProcess(Mailroom(old(server.store), old(claims)), Mail(orderId, status),
                            Effective(old(context), link), server.now)
      ensures emails == old(emails) + if Effective(old(context), link).Answered?
                                         && !Live(old(server.store), EmailKey(orderId, status), server.now)
                                      then [Email(customerId + "@example.com", orderId, status)] else []
      ensures context == if !old(context).Ready? && !link.connects then Broken
                         else match link.reply
                              case NotReached => if link.breaks then Broken else Ready
                              case Lost => Broken
                              case Answered => Ready
    {
      var connected := EnsureConnected(link.connects);
      if !connected { return true; }
      if link.reply.NotReached? {
        context := if link.breaks then Broken else Ready;
        return true;
      }
      var ok := server.SetIfAbsent("email_sent:" + orderId + ":" + status);
      if ok {
        claims := claims + [Claimed(orderId, status, server.now, link.reply.Answered?)];
      }
      if link.reply.Lost? {
        context := Broken;
        return true;
      }
      if ok {
        emails := emails + [Email(customerId + "@example.com", orderId, status)];
      }
      return false;
    }

    method ProcessRecord(record: Json, key: string, link: Link) returns (threw: bool)
      modifies this, server`store
      ensures Attempted(Mailroom(server.store, claims), threw)
           == NotifyProcess(Mailroom(old(server.store), old(claims)), NoticeOf(record, key),
                            Effective(old(context), link), server.now)
      ensures match EmailFor(record, key)
              case Some(email) =>
                emails == old(emails) + if Effective(old(context), link).Answered?
                                           && !Live(old(server.store), EmailKey(email.id, email.status), server.now)
                                        then [email] else []
              case None => emails == old(emails)
      ensures context == if !NoticeOf(record, key).Mail? then old(context)
                         else if !old(context).Ready? && !link.connects then Broken
                         else match link.reply
                              case NotReached => if link.breaks then Broken else Ready
                              case Lost => Broken
                              case Answered => Ready
      ensures !old(context).Ready? && !link.connects ==>
                server.store == old(server.store) && (threw <==> !NoticeOf(record, key).NoMail?)
    {
      var row, orderId := Classify(record, key);
      if row.None? { return false; }
      if StatusOf(row.value, "").None? { return true; }
      var status := StatusOf(row.value, "").value;
      var customerId := CustomerOf(row.value);
      if status == "SHIPPED" || status == "DELIVERED" {
        threw := Notify(orderId, status, customerId, link);
      } else {
        threw := false;
      }
    }
  }
}
