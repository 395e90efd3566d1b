/** `AvroDeserializer::Deserialize` and the message key: which bytes become a
    record, a null record, or nothing, at one encounter with them. */
module Avro {
  import opened Json
  import opened Options
  import opened Records
  import opened Protocol
  import opened Utf8Text

  /** libserdes and avro on one payload whose schema can be had: an error, or JSON
      text that parses or not. */
  datatype Serdes = Fails | Converts(parsed: Option<Json>)

  /** The libraries, as functions of the bytes. libserdes also fails whenever it has
      not cached the schema and cannot fetch it: that is `schema` below. */
  datatype Codec = Codec(serdes: Bytes -> Serdes, parse: Bytes -> Option<Json>)

  /** The Confluent wire format: a zero byte and a four-byte schema id. */
  predicate Framed(payload: Bytes)
  {
    |payload| >= 5 && payload[0] == 0
  }

  lemma FrameLayout(payload: Bytes)
    ensures Framed(payload) <==> exists id: Bytes, data: Bytes :: |id| == 4 && payload == [0] + id + data
  {
    if Framed(payload) {
      assert payload == [0] + payload[1..5] + payload[5..];
    }
  }

  /** Some JSON document can be had from the payload, given its schema. */
  predicate Readable(codec: Codec, payload: Bytes)
  {
    payload != [] &&
    if Framed(payload) then codec.serdes(payload).Converts? && codec.serdes(payload).parsed.Some?
    else codec.parse(payload).Some?
  }

  /** nullopt is None; a document, possibly null, is Some. The outcomes: nothing for a
      framed payload without its schema; else a document exactly for readable
      payloads; null, which no caller can tell from a JSON null, for framed ones
      whose text does not parse; and nothing for the rest. */
  method Deserialize(codec: Codec, payload: Bytes, schema: bool) returns (doc: Option<Json>)
    ensures Framed(payload) && !schema ==> doc == None
    ensures schema || !Framed(payload) ==>
              && (doc.Some? <==> Readable(codec, payload) || (Framed(payload) && codec.serdes(payload).Converts?))
              && (doc.Some? && !Readable(codec, payload) ==> doc.value == Null)
              && (Readable(codec, payload) ==>
                    doc == if Framed(payload) then codec.serdes(payload).parsed else codec.parse(payload))
    ensures doc == Deserialized(codec, payload, schema)
  {
    if payload == [] { return None; }
    if Framed(payload) {
      if !schema { return None; }
      var outcome := codec.serdes(payload);
      if outcome.Fails? { return None; }
      var document := Null;
      if outcome.parsed.Some? { document := outcome.parsed.value; }
      return Some(document);
    }
    return codec.parse(payload);
  }

  function Deserialized(codec: Codec, payload: Bytes, schema: bool): Option<Json>
  {
    if payload == [] then None
    else if Framed(payload) then
      if !schema || codec.serdes(payload).Fails? then None
      else if codec.serdes(payload).parsed.None? then Some(Null)
      else codec.serdes(payload).parsed
    else codec.parse(payload)
  }

  /** The key handed to ProcessRecord; text is the raw key bytes as a string. */
  method KeyOf(codec: Codec, key: Bytes, text: string, schema: bool) returns (k: string)
    ensures key == [] ==> k == ""
    ensures key != [] && (!Framed(key) || Deserialized(codec, key, schema).None?) ==> k == text
    ensures Framed(key) && Deserialized(codec, key, schema).Some? ==>
              var doc := Deserialized(codec, key, schema).value;
              var id := if Has(doc, "id") then Text(Get(doc, "id"))
                        else if Has(doc, "order_id") then Text(Get(doc, "order_id"))
                        else Dump(doc);
              k == if id == "" then text else id
  {
    k := "";
    if key != [] {
      if Framed(key) {
        var doc := Deserialize(codec, key, schema);
        if doc.Some? {
          if Contains(doc.value, "id") && !Get(doc.value, "id").Null? {
            k := Text(Get(doc.value, "id"));
          } else if Contains(doc.value, "order_id") && !Get(doc.value, "order_id").Null? {
            k := Text(Get(doc.value, "order_id"));
          } else {
            k := Dump(doc.value);
          }
        }
      }
      if k == "" { k := text; }
    }
  }

  // ---- messages -----------------------------------------------------------

  /** The log entry that a payload is to a consumer; `meaning` is how its
      ProcessRecord reads a document (ChangeOf or NoticeOf, with the key). */
  function MessageOf<A>(codec: Codec, payload: Bytes, meaning: Json -> A): Message<A>
  {
    match Deserialized(codec, payload, true)
    case Some(record) => Record(meaning(record), Framed(payload), Utf8(payload))
    case None => Undecodable(Utf8(payload))
  }

  /** One encounter: what Deserialize answers is what the loop makes of the entry. */
  lemma EncounterDecodes<A>(codec: Codec, payload: Bytes, meaning: Json -> A, schema: bool)
    ensures var message := MessageOf(codec, payload, meaning);
            && (Deserialized(codec, payload, schema).Some? <==> Decodes(message, schema))
            && (Deserialized(codec, payload, schema).Some? ==>
                  meaning(Deserialized(codec, payload, schema).value) == message.action)
            && message.utf8 == Utf8(payload)
  {
  }

  /** The shortest payload that no consumer with a producer gets past. */
  lemma PoisonByte<A>(codec: Codec, meaning: Json -> A)
    requires codec.parse([0xFF]).None?
    ensures MessageOf(codec, [0xFF], meaning) == Undecodable(false)
  {
    assert FirstChar([0xFF]) == 0;
  }
}
