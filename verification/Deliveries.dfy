/** One message from its bytes to a sink: key, deserialization and `ProcessRecord`, as the
    loop does them, and what comes of a message that carries a WAL entry. */
module Deliveries {
  import opened Json
  import opened Options
  import opened Records
  import opened RedisStore
  import opened LuaNumber
  import opened SinkSpecs
  import opened Sinks
  import opened Avro
  import opened Utf8Text
  import opened Debezium
  import opened Classification

  /** A message as it is consumed: key and payload, the key's text, and whether the
      schemas of the two can be had. */
  datatype Arrival = Arrival(key: Bytes, text: string, keySchema: bool, payload: Bytes, schema: bool)

  /** The payload is the envelope of a WAL entry, and its schema can be had. */
  predicate Carrying(codec: Codec, m: Arrival, entry: Change, name: string, ms: int)
  {
    && !entry.Ignored? && entry.id != "" && AsInt64(entry.lsn) == entry.lsn && name != "id"
    && (entry.Upsert? ==> RowOfOrder(entry.doc, entry.id))
    && m.schema && Framed(m.payload) && codec.serdes(m.payload) == Converts(Some(Envelope(entry, name, ms)))
  }

  /** Deserialized with its key, or not at all. */
  method Take(codec: Codec, m: Arrival, ghost entry: Change, ghost name: string, ghost ms: int)
    returns (record: Option<Json>, key: string)
    ensures record == Deserialized(codec, m.payload, m.schema)
    ensures Carrying(codec, m, entry, name, ms) ==>
              && record.Some? && ChangeOf(record.value, key) == entry
              && NoticeOf(record.value, key) == NoticeOf(Envelope(entry, name, ms), key)
  {
    key := KeyOf(codec, m.key, m.text, m.keySchema);
    record := Deserialize(codec, m.payload, m.schema);
    if Carrying(codec, m, entry, name, ms) {
      EnvelopeReads(entry, name, ms, key);
    }
  }

  /** Only a status that is no string keeps the row of a write from being read. */
  predicate Legible(entry: Change)
  {
    entry.Upsert? && entry.doc.Obj? && Find(entry.doc.members, "status").Some? ==>
      Find(entry.doc.members, "status").value.Str?
  }

  /** The updater, where Redis answers. A write that is newer than what is held is there
      in full, with its LSN, for 86400 s, and a delete leaves the LSN alone; what is
      not newer changes nothing; nothing else is touched. It throws only for a write
      it has made of a row whose status it cannot read. */
  method DeliverToCache(
      updater: RedisUpdater, codec: Codec, m: Arrival, link: Link, ghost entry: Change, ghost name: string,
      ghost ms: int)
    returns (threw: bool)
    modifies updater`context, updater.server`store
    ensures Deserialized(codec, m.payload, m.schema).None? ==>
              !threw && updater.server.store == old(updater.server.store)
    ensures Carrying(codec, m, entry, name, ms) && Paired(old(updater.server.store), entry.id)
            && Effective(old(updater.context), link) == Answered ==>
              var server := updater.server;
              var held := SlotAt(old(server.store), entry.id, server.now);
              var key, until := "order:" + entry.id, server.now + 24 * 60 * 60 * 1000;
              if held.Some? && Round(entry.lsn) <= Round(held.value.lsn)
              then server.store == old(server.store) && !threw
              else
                && (key + ":lsn") in server.store && server.store[key + ":lsn"] == Entry(Number(entry.lsn), until)
                && (if entry.Upsert? then key in server.store && server.store[key] == Entry(Document(entry.doc), until)
                    else key !in server.store)
                && (threw <==> !Legible(entry))
                && (forall other: string :: other != key && other != key + ":lsn" ==>
                      && (other in server.store <==> other in old(server.store))
                      && (other in server.store ==> server.store[other] == old(server.store)[other]))
  {
    var record, key := Take(codec, m, entry, name, ms);
    threw := false;
    if record.Some? {
      threw := updater.ProcessRecord(record.value, key, link);
    }
    if !entry.Ignored? {
      assert |"order:" + entry.id| != |"order:" + entry.id + ":lsn"|;
    }
  }

  /** The indexer, where Elasticsearch serves it: the document of a write is there, that
      of a delete is not, and no other has changed. */
  method DeliverToIndex(
      indexer: EsIndexer, codec: Codec, m: Arrival, reply: HttpReply, ghost entry: Change, ghost name: string,
      ghost ms: int)
    returns (threw: bool)
    modifies indexer.server
    ensures Deserialized(codec, m.payload, m.schema).None? ==>
              !threw && indexer.server.index == old(indexer.server.index)
    ensures Carrying(codec, m, entry, name, ms) && reply == Served ==>
              && !threw
              && indexer.server.index == if entry.Upsert? then old(indexer.server.index)[entry.id := entry.doc]
                                         else old(indexer.server.index) - {entry.id}
  {
    var record, key := Take(codec, m, entry, name, ms);
    threw := false;
    if record.Some? {
      threw := indexer.ProcessRecord(record.value, key, reply, 0);
    }
  }

  /** The entry's row has been shipped or delivered. */
  predicate Announces(entry: Change)
  {
    && entry.Upsert? && entry.doc.Obj?
    && (|| Find(entry.doc.members, "status") == Some(Str("SHIPPED"))
        || Find(entry.doc.members, "status") == Some(Str("DELIVERED")))
  }

  /** Whom a row is about: its user, failing that its customer, failing that a guest. */
  predicate About(row: Json, who: string)
  {
    || Gives(row, "user_id", who)
    || (Lacks(row, "user_id") && Gives(row, "customer_id", who))
    || (Lacks(row, "user_id") && Lacks(row, "customer_id") && who == "guest")
  }

  /** The notifier, where Redis answers. For an order shipped or delivered it sets the key
      of the order and the status for 86400 s and sends one email, to that order's
      customer, if the key is not set; and does nothing otherwise. */
  method DeliverToNotifier(
      notifier: Notifier, codec: Codec, m: Arrival, link: Link, ghost entry: Change, ghost name: string, ghost ms: int,
      ghost who: string)
    returns (threw: bool)
    modifies notifier, notifier.server`store
    ensures Deserialized(codec, m.payload, m.schema).None? ==>
              !threw && notifier.emails == old(notifier.emails) && notifier.server.store == old(notifier.server.store)
    ensures Carrying(codec, m, entry, name, ms) && Legible(entry)
            && Effective(old(notifier.context), link) == Answered ==>
              var server := notifier.server;
              && !threw
              && if !Announces(entry)
                 then notifier.emails == old(notifier.emails) && server.store == old(server.store)
                 else
                   var status := Find(entry.doc.members, "status").value.s;
                   var key := "email_sent:" + entry.id + ":" + status;
                   if key in old(server.store) && server.now < old(server.store)[key].expiresAt
                   then notifier.emails == old(notifier.emails) && server.store == old(server.store)
                   else
                     && server.store == old(server.store)[key := Entry(One, server.now + 24 * 60 * 60 * 1000)]
                     && |notifier.emails| == |old(notifier.emails)| + 1 && old(notifier.emails) <= notifier.emails
                     && (About(entry.doc, who) ==>
                           notifier.emails == old(notifier.emails) + [Email(who + "@example.com", entry.id, status)])
  {
    var record, key := Take(codec, m, entry, name, ms);
    threw := false;
    if record.Some? {
      threw := notifier.ProcessRecord(record.value, key, link);
    }
  }
}
