/** What the consumers read out of a change record, field by field: whose row it is,
    whether it is written or deleted, since which LSN, and whether anyone is told. */
module Classification {
  import opened Json
  import opened Options
  import opened Records

  // ---- the row ----------------------------------------------------------------

  /** A field is missing or null. */
  predicate Lacks(j: Json, field: string)
  {
    j.Obj? ==> Find(j.members, field) == None || Find(j.members, field) == Some(Null)
  }

  /** A field holds the text as a string, or holds something else, not null, of which it is
      the JSON text: for a number its decimal digits. */
  predicate Gives(j: Json, field: string, text: string)
  {
    && j.Obj? && Find(j.members, field).Some?
    && match Find(j.members, field).value
       case Null => false
       case Str(s) => text == s
       case Num(n) => text == Decimal(n)
       case v => text == Dump(v)
  }

  /** The image of a row is the row, or wraps it. */
  predicate ImageOf(image: Json, row: Json)
  {
    || Wraps(image, row)
    || (&& image == row
        && (row.Obj? ==>
              && !(Find(row.members, "Value").Some? && Find(row.members, "Value").value.Obj?)
              && !(|row.members| == 1 && row.members[0].name != "id" && row.members[0].value.Obj?)))
  }

  lemma ShownRow(image: Json, row: Json)
    requires ImageOf(image, row)
    ensures Unwrap(image) == row
  {
    if Wraps(image, row) {
      UnwrapWrapped(image, row);
    } else if row.Obj? && |row.members| == 1 && row.members[0].name == "id" {
      assert Find(row.members, "id").Some?;
    }
  }

  /** The id a row goes by: its `id`; failing that its `order_id`, but only if there is no
      `id` at all; and the message key if what was found is empty or there is nothing. */
  predicate GoesBy(row: Json, key: string, id: string)
  {
    || (id != "" && Gives(row, "id", id))
    || (id != "" && Lacks(row, "id") && Gives(row, "order_id", id))
    || (&& id == key
        && (|| Gives(row, "id", "")
            || (Lacks(row, "id") && (Gives(row, "order_id", "") || Lacks(row, "order_id")))))
  }

  lemma NamedRow(row: Json, key: string, id: string)
    requires GoesBy(row, key, id)
    ensures OrderId(row, key) == id
  {
  }

  // ---- the change ----------------------------------------------------------------

  /** A record with an `after` image writes that row, whatever else is in it. */
  lemma WritesRow(record: Json, key: string, image: Json, row: Json, id: string)
    requires record.Obj? && Find(record.members, "after") == Some(image) && !image.Null?
    requires ImageOf(image, row) && GoesBy(row, key, id)
    ensures ChangeOf(record, key) == if id == "" then Ignored else Upsert(id, row, Lsn(record))
  {
    ShownRow(image, row);
    NamedRow(row, key, id);
  }

  /** One without, that has an `id` or an `order_id` of its own, even a null one, is
      itself the row. */
  lemma WritesItself(record: Json, key: string, row: Json, id: string)
    requires record.Obj? && Lacks(record, "after")
    requires Find(record.members, "id").Some? || Find(record.members, "order_id").Some?
    requires ImageOf(record, row) && GoesBy(row, key, id)
    ensures ChangeOf(record, key) == if id == "" then Ignored else Upsert(id, row, Lsn(record))
  {
    ShownRow(record, row);
    NamedRow(row, key, id);
  }

  /** One that is neither, with op `d` and a `before` image, deletes that row. */
  lemma DeletesRow(record: Json, key: string, image: Json, row: Json, id: string)
    requires record.Obj? && Lacks(record, "after")
    requires Find(record.members, "id").None? && Find(record.members, "order_id").None?
    requires Find(record.members, "op") == Some(Str("d"))
    requires Find(record.members, "before") == Some(image) && !image.Null?
    requires ImageOf(image, row) && GoesBy(row, key, id)
    ensures ChangeOf(record, key) == if id == "" then Ignored else Delete(id, Lsn(record))
  {
    ShownRow(image, row);
    NamedRow(row, key, id);
  }

  /** All others, and whatever is no object, are passed over. */
  lemma PassesOver(record: Json, key: string)
    requires record.Obj? ==>
               && Lacks(record, "after")
               && Find(record.members, "id").None? && Find(record.members, "order_id").None?
               && (Find(record.members, "op") != Some(Str("d")) || Lacks(record, "before"))
    ensures ChangeOf(record, key) == Ignored && NoticeOf(record, key) == NoMail
  {
  }

  // ---- the notification ----------------------------------------------------------

  /** Who is told, exactly: a mail goes out for a record if and only if it writes a row
      whose status is SHIPPED or DELIVERED; and the record is unreadable if and only if
      it writes something that is no object, or has a status that is no string. */
  lemma NoticeExactly(record: Json, key: string, id: string, status: string)
    ensures NoticeOf(record, key) == Mail(id, status) <==>
              var change := ChangeOf(record, key);
              && (status == "SHIPPED" || status == "DELIVERED")
              && change.Upsert? && change.id == id
              && change.doc.Obj? && Find(change.doc.members, "status") == Some(Str(status))
    ensures NoticeOf(record, key) == Unreadable <==>
              var change := ChangeOf(record, key);
              && change.Upsert?
              && (change.doc.Obj? ==>
                    && Find(change.doc.members, "status").Some?
                    && !Find(change.doc.members, "status").value.Str?)
  {
  }

  // ---- the LSN ----------------------------------------------------------------

  /** A JSON number as a 64-bit integer, or text that `stoll` takes. */
  predicate Reads(v: Json, n: int)
  {
    (IsNumber(v) && n == NumberAsInt64(v)) || (v.Str? && Stoll(v.s) == Some(n))
  }

  predicate ReadsNothing(v: Json)
  {
    !IsNumber(v) && (v.Str? ==> Stoll(v.s) == None)
  }

  /** The branch at i of a union is the first that reads as a number. */
  predicate FirstRead(branches: seq<Member>, i: int, n: int)
    requires 0 <= i < |branches|
  {
    Reads(branches[i].value, n) && forall k :: 0 <= k < i ==> ReadsNothing(branches[k].value)
  }

  /** The source's `lsn` reads as a number, itself or by a branch. */
  predicate LsnIs(source: Json, n: int)
  {
    && source.Obj? && Find(source.members, "lsn").Some?
    && var v := Find(source.members, "lsn").value;
       Reads(v, n) || (v.Obj? && exists i :: 0 <= i < |v.members| && FirstRead(v.members, i, n))
  }

  predicate LsnMissing(source: Json)
  {
    source.Obj? && Find(source.members, "lsn").Some? ==>
      var v := Find(source.members, "lsn").value;
      ReadsNothing(v) && (v.Obj? ==> forall k :: 0 <= k < |v.members| ==> ReadsNothing(v.members[k].value))
  }

  lemma {:induction false} BranchesRead(branches: seq<Member>, i: nat, n: int)
    requires i < |branches| && FirstRead(branches, i, n)
    ensures FirstLsn(branches) == Some(n)
  {
    if i != 0 {
      BranchesRead(branches[1..], i - 1, n);
    }
  }

  lemma {:induction false} NoBranchReads(branches: seq<Member>)
    requires forall k :: 0 <= k < |branches| ==> ReadsNothing(branches[k].value)
    ensures FirstLsn(branches) == None
  {
    if branches != [] {
      NoBranchReads(branches[1..]);
    }
  }

  /** A record's LSN is its source's, wherever that gives one: as a number, as text, or by
      the first branch of a union that is either. */
  lemma LsnGiven(record: Json, source: Json, n: int)
    requires record.Obj? && Find(record.members, "source") == Some(source) && LsnIs(source, n)
    ensures Lsn(record) == n
  {
    var v := Find(source.members, "lsn").value;
    if v.Obj? {
      var i :| 0 <= i < |v.members| && FirstRead(v.members, i, n);
      BranchesRead(v.members, i, n);
    }
  }

  /** The milliseconds given under `ts_ms`, as a number only. */
  predicate TimeIs(j: Json, ms: int)
  {
    && j.Obj? && Find(j.members, "ts_ms").Some? && IsNumber(Find(j.members, "ts_ms").value)
    && ms == NumberAsInt64(Find(j.members, "ts_ms").value)
  }

  predicate Timeless(j: Json)
  {
    j.Obj? && Find(j.members, "ts_ms").Some? ==> !IsNumber(Find(j.members, "ts_ms").value)
  }

  /** Where it gives none, the timestamp of the source stands in, then that of the
      record, then 0. */
  lemma LsnStandsIn(record: Json, source: Json, ms: int)
    requires record.Obj? && LsnMissing(source)
    requires Find(record.members, "source") == if source.Null? then None else Some(source)
    ensures TimeIs(source, ms) ==> Lsn(record) == ms
    ensures Timeless(source) && TimeIs(record, ms) ==> Lsn(record) == ms
    ensures Timeless(source) && Timeless(record) ==> Lsn(record) == 0
  {
    if source.Obj? && Find(source.members, "lsn").Some? && Find(source.members, "lsn").value.Obj? {
      NoBranchReads(Find(source.members, "lsn").value.members);
    }
  }
}
