/** What a change record means to the sinks: which order it is about, whether
    it writes or deletes it, and with which LSN. The three consumers each carry
    their own copy of this classification; the copies are the `ProcessRecord`
    methods in `Sinks`, and each is proved against the functions here. */
module Records {
  import opened Json
  import opened Options

  datatype Change =
    | Ignored
    | Upsert(id: string, doc: Json, lsn: int)
    | Delete(id: string, lsn: int)

  datatype Notice =
    | NoMail
    | Unreadable
    | Mail(id: string, status: string)

  // ---- order id and payload ---------------------------------------------

  /** Debezium rows may arrive wrapped, as {"Value": row} or as the branch of an
      Avro union named after its type. */
  function Unwrap(row: Json): Json
  {
    if Contains(row, "Value") && Get(row, "Value").Obj? then Get(row, "Value")
    else if row.Obj? && |row.members| == 1 && row.members[0].value.Obj? && !Contains(row, "id") then
      row.members[0].value
    else row
  }

  function OrderId(row: Json, key: string): string
  {
    var id :=
      if Has(row, "id") then Text(Get(row, "id"))
      else if Has(row, "order_id") then Text(Get(row, "order_id"))
      else "";
    if id == "" then key else id
  }

  /** The row image a record carries for writing, if any. */
  function WrittenRow(record: Json): Option<Json>
  {
    if Has(record, "after") then Some(Unwrap(Get(record, "after")))
    else if Contains(record, "order_id") || Contains(record, "id") then Some(Unwrap(record))
    else None
  }

  function DeletedRow(record: Json): Option<Json>
  {
    if Contains(record, "op") && Get(record, "op") == Str("d") && Has(record, "before")
    then Some(Unwrap(Get(record, "before")))
    else None
  }

  // ---- LSN --------------------------------------------------------------

  function FirstLsn(members: seq<Member>): Option<int>
  {
    if members == [] then None
    else
      var v := members[0].value;
      if IsNumber(v) then Some(NumberAsInt64(v))
      else if v.Str? && Stoll(v.s).Some? then Stoll(v.s)
      else FirstLsn(members[1..])
  }

  function LsnField(v: Json): Option<int>
  {
    if IsNumber(v) then Some(NumberAsInt64(v))
    else
      match v
      case Str(s) => Stoll(s)
      case Obj(members) => FirstLsn(members)
      case _ => None
  }

  function Timestamp(j: Json): Option<int>
  {
    if Contains(j, "ts_ms") && IsNumber(Get(j, "ts_ms")) then Some(NumberAsInt64(Get(j, "ts_ms"))) else None
  }

  function Lsn(record: Json): int
  {
    var src := if Contains(record, "source") then Get(record, "source") else Null;
    var direct := if Contains(src, "lsn") then LsnField(Get(src, "lsn")) else None;
    if direct.Some? then direct.value
    else if Timestamp(src).Some? then Timestamp(src).value
    else if Timestamp(record).Some? then Timestamp(record).value
    else 0
  }

  // ---- classification ---------------------------------------------------

  function ChangeOf(record: Json, key: string): Change
  {
    var written := WrittenRow(record);
    var deleted := DeletedRow(record);
    if written.Some? then
      var id := OrderId(written.value, key);
      if id == "" then Ignored else Upsert(id, written.value, Lsn(record))
    else if deleted.Some? then
      var id := OrderId(deleted.value, key);
      if id == "" then Ignored else Delete(id, Lsn(record))
    else Ignored
  }

  /** `row.value("status", fallback)`: None where it throws, which is when the
      row is no object or holds a status that is not a string. */
  function StatusOf(row: Json, fallback: string): Option<string>
  {
    if !row.Obj? then None
    else if !Contains(row, "status") then Some(fallback)
    else if Get(row, "status").Str? then Some(Get(row, "status").s)
    else None
  }

  predicate Announced(status: string)
  {
    status == "SHIPPED" || status == "DELIVERED"
  }

  function NoticeOf(record: Json, key: string): (notice: Notice)
    ensures notice.Mail? ==> Announced(notice.status) && notice.id != ""
  {
    match ChangeOf(record, key)
    case Upsert(id, row, _) =>
      var status := StatusOf(row, "");
      if status.None? then Unreadable
      else if Announced(status.value) then Mail(id, status.value)
      else NoMail
    case _ => NoMail
  }

  // ---- properties -------------------------------------------------------

  /** A row that names its order and has no nested `Value` object. */
  predicate PlainRow(row: Json)
  {
    Contains(row, "id") && !(Contains(row, "Value") && Get(row, "Value").Obj?)
  }

  /** The row is the one of its order. */
  predicate RowOfOrder(row: Json, id: string)
  {
    PlainRow(row) && Get(row, "id") == Str(id)
  }

  /** The wrapper holds the row as its `Value`, whatever else it holds, or as its only
      field, of any name but `id`. */
  predicate Wraps(wrapper: Json, row: Json)
  {
    && wrapper.Obj? && row.Obj?
    && (|| Find(wrapper.members, "Value") == Some(row)
        || (|wrapper.members| == 1 && wrapper.members[0].name != "id" && wrapper.members[0].value == row))
  }

  function WithField(record: seq<Member>, name: string, value: Json): Json
  {
    Obj([Member(name, value)] + record)
  }

  lemma FindInWith(record: seq<Member>, name: string, value: Json, other: string)
    ensures Find(WithField(record, name, value).members, other)
         == if other == name then Some(value) else Find(record, other)
  {
    assert ([Member(name, value)] + record)[1..] == record;
  }

  /** Wrapping the row of a write or of a delete changes nothing: not the order,
      not the stored document, not the LSN, not the notification. The wrapper's one
      field may be a branch of an Avro union of any name but `id`. A record that is
      itself a flat row is stored with its `before` field, so it is excluded on
      that side. */
  lemma WrapperInvariance(record: seq<Member>, side: string, wrapper: Json, row: Json, key: string)
    requires PlainRow(row) && Wraps(wrapper, row)
    requires side == "after"
          || (side == "before" && (Has(Obj(record), "after")
                                   || !(Contains(Obj(record), "id") || Contains(Obj(record), "order_id"))))
    ensures ChangeOf(WithField(record, side, wrapper), key) == ChangeOf(WithField(record, side, row), key)
    ensures NoticeOf(WithField(record, side, wrapper), key) == NoticeOf(WithField(record, side, row), key)
  {
    var wrapped, plain := WithField(record, side, wrapper), WithField(record, side, row);
    UnwrapWrapped(wrapper, row);
    FindInWith(record, side, wrapper, side);
    FindInWith(record, side, row, side);
    forall other | other != side
      ensures Contains(wrapped, other) == Contains(plain, other) == Contains(Obj(record), other)
      ensures Contains(plain, other) ==> Get(wrapped, other) == Get(plain, other)
    {
      FindInWith(record, side, wrapper, other);
      FindInWith(record, side, row, other);
    }
    assert Has(wrapped, side) && Get(wrapped, side) == wrapper;
    assert Has(plain, side) && Get(plain, side) == row;
    assert Lsn(wrapped) == Lsn(plain);
    if side == "after" {
      assert WrittenRow(wrapped) == WrittenRow(plain) == Some(row);
    } else {
      assert WrittenRow(wrapped) == WrittenRow(plain);
      assert DeletedRow(wrapped) == DeletedRow(plain);
    }
  }

  lemma UnwrapWrapped(wrapper: Json, row: Json)
    requires Wraps(wrapper, row)
    ensures Unwrap(wrapper) == row && (PlainRow(row) ==> Unwrap(row) == row)
  {
    if Find(wrapper.members, "Value") != Some(row) {
      var only := wrapper.members[0];
      assert wrapper.members[1..] == [];
      assert forall other :: Find(wrapper.members, other) == if other == only.name then Some(row) else None;
    }
  }

  /** The record's row names its order. */
  predicate NamesItself(record: Json)
  {
    var row := if WrittenRow(record).Some? then WrittenRow(record) else DeletedRow(record);
    row.Some? ==> OrderId(row.value, "") != ""
  }

  /** Such a record means the same whatever key it comes with, so also if the key's
      own schema cannot be had and its raw bytes are passed on. */
  lemma KeyUnused(record: Json, key: string, other: string)
    requires NamesItself(record)
    ensures ChangeOf(record, key) == ChangeOf(record, other)
    ensures NoticeOf(record, key) == NoticeOf(record, other)
  {
  }
}
