/** What change data capture makes of a WAL entry, and that the consumers read it
    back: the Avro envelope of docs/SCHEMA.md in the JSON text that avro gives it,
    where the branch of a union stands as a one-key object. */
module Debezium {
  import opened Json
  import opened Options
  import opened Records
  import opened Protocol
  import opened Avro
  import opened Utf8Text

  function Branch(name: string, value: Json): Json
  {
    Obj([Member(name, value)])
  }

  /** A delete carries the key columns of the old row; a write the new row. `name` is
      the branch of the row's type, `Value` or its full name. */
  function Envelope(entry: Change, name: string, ms: int): Json
    requires !entry.Ignored?
  {
    var before := if entry.Delete? then Branch(name, Obj([Member("id", Str(entry.id))])) else Null;
    var after := if entry.Delete? then Null else Branch(name, entry.doc);
    Obj([Member("after", after),
         Member("before", before),
         Member("op", Str(if entry.Delete? then "d" else "u")),
         Member("source", Obj([Member("lsn", Branch("long", Num(entry.lsn)))])),
         Member("ts_ms", Branch("long", Num(ms)))])
  }

  lemma EnvelopeFields(entry: Change, name: string, ms: int)
    requires !entry.Ignored?
    ensures var e := Envelope(entry, name, ms);
            && Find(e.members, "after") == Some(if entry.Delete? then Null else Branch(name, entry.doc))
            && Find(e.members, "before")
               == Some(if entry.Delete? then Branch(name, Obj([Member("id", Str(entry.id))])) else Null)
            && Find(e.members, "op") == Some(Str(if entry.Delete? then "d" else "u"))
            && Find(e.members, "source") == Some(Obj([Member("lsn", Branch("long", Num(entry.lsn)))]))
            && Find(e.members, "id") == None && Find(e.members, "order_id") == None
  {
    var m := Envelope(entry, name, ms).members;
    forall field: string
      ensures Find(m, field) == if field == "after" then Some(m[0].value)
                                else if field == "before" then Some(m[1].value)
                                else if field == "op" then Some(m[2].value)
                                else if field == "source" then Some(m[3].value)
                                else if field == "ts_ms" then Some(m[4].value)
                                else None
    {
      FindFive(m[0], m[1], m[2], m[3], m[4], field);
      assert m == [m[0], m[1], m[2], m[3], m[4]];
    }
  }

  lemma FindCons(first: Member, rest: seq<Member>, field: string)
    ensures Find([first] + rest, field) == if first.name == field then Some(first.value) else Find(rest, field)
  {
    assert ([first] + rest)[1..] == rest;
  }

  lemma FindFive(a: Member, b: Member, c: Member, d: Member, e: Member, field: string)
    ensures Find([a, b, c, d, e], field)
         == if a.name == field then Some(a.value)
            else if b.name == field then Some(b.value)
            else if c.name == field then Some(c.value)
            else if d.name == field then Some(d.value)
            else if e.name == field then Some(e.value)
            else None
  {
    assert [e] + [] == [e] && [d] + [e] == [d, e] && [c] + [d, e] == [c, d, e];
    assert [b] + [c, d, e] == [b, c, d, e] && [a] + [b, c, d, e] == [a, b, c, d, e];
    FindCons(e, [], field);
    FindCons(d, [e], field);
    FindCons(c, [d, e], field);
    FindCons(b, [c, d, e], field);
    FindCons(a, [b, c, d, e], field);
  }

  lemma OneField(name: string, value: Json)
    ensures forall field :: Find(Branch(name, value).members, field) == if field == name then Some(value) else None
  {
    assert Branch(name, value).members[1..] == [];
  }

  lemma EnvelopeLsn(entry: Change, name: string, ms: int)
    requires !entry.Ignored? && AsInt64(entry.lsn) == entry.lsn
    ensures Lsn(Envelope(entry, name, ms)) == entry.lsn
  {
    EnvelopeFields(entry, name, ms);
    OneField("lsn", Branch("long", Num(entry.lsn)));
    assert FirstLsn([Member("long", Num(entry.lsn))]) == Some(entry.lsn);
  }

  /** Capture and classification are inverse: what the consumers make of the envelope
      of a WAL entry is the entry, for every 64-bit LSN and whatever the message key. */
  lemma EnvelopeReads(entry: Change, name: string, ms: int, key: string)
    requires !entry.Ignored? && AsInt64(entry.lsn) == entry.lsn && entry.id != "" && name != "id"
    requires entry.Upsert? ==> RowOfOrder(entry.doc, entry.id)
    ensures ChangeOf(Envelope(entry, name, ms), key) == entry
  {
    var e := Envelope(entry, name, ms);
    EnvelopeFields(entry, name, ms);
    EnvelopeLsn(entry, name, ms);
    if entry.Upsert? {
      OneField(name, entry.doc);
      UnwrapWrapped(Branch(name, entry.doc), entry.doc);
      assert WrittenRow(e) == Some(entry.doc);
    } else {
      var row := Branch("id", Str(entry.id));
      OneField("id", Str(entry.id));
      OneField(name, row);
      UnwrapWrapped(Branch(name, row), row);
      assert WrittenRow(e) == None && DeletedRow(e) == Some(row);
      assert OrderId(row, key) == entry.id;
    }
  }

  /** So a framed payload that decodes to the envelope is, in a consumer's log, a
      record of the entry. */
  lemma PublishedEntry(codec: Codec, payload: Bytes, entry: Change, name: string, ms: int, key: string)
    requires !entry.Ignored? && AsInt64(entry.lsn) == entry.lsn && entry.id != "" && name != "id"
    requires entry.Upsert? ==> RowOfOrder(entry.doc, entry.id)
    requires Framed(payload) && codec.serdes(payload) == Converts(Some(Envelope(entry, name, ms)))
    ensures MessageOf(codec, payload, j => ChangeOf(j, key)) == Record(entry, true, Utf8(payload))
  {
    EnvelopeReads(entry, name, ms, key);
  }
}
