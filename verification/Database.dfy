/** The source of truth: the orders table, and the write-ahead log that change
    data capture publishes. */
module Database {
  import opened Json
  import opened Options
  import opened LuaNumber
  import opened Records
  import opened Protocol
  import opened Uuid
  import opened History

  datatype Db = Db(rows: map<string, Json>, wal: seq<Change>, lsn: int)

  /** Committed statements. `gap` is how far the WAL advances; `Remove` is a delete
      by some other client of the database. */
  datatype Statement =
    | Insert(id: string, row: Json, gap: nat)
    | SetStatus(id: string, status: string, gap: nat)
    | Remove(id: string, gap: nat)

  function SetMember(members: seq<Member>, name: string, value: Json): seq<Member>
  {
    if members == [] then [Member(name, value)]
    else if members[0].name == name then [Member(name, value)] + members[1..]
    else [members[0]] + SetMember(members[1..], name, value)
  }

  function SetField(j: Json, name: string, value: Json): Json
  {
    if j.Obj? then Obj(SetMember(j.members, name, value)) else j
  }

  function Written(db: Db, id: string, row: Json, gap: nat): Db
  {
    var lsn := db.lsn + 1 + gap;
    Db(db.rows[id := row], db.wal + [Upsert(id, row, lsn)], lsn)
  }

  /** Statements that match no row, or would repeat a primary key, change nothing. */
  function Execute(db: Db, statement: Statement): Db
  {
    match statement
    case Insert(id, row, gap) => if id in db.rows then db else Written(db, id, row, gap)
    case SetStatus(id, status, gap) =>
      if id in db.rows then Written(db, id, SetField(db.rows[id], "status", Str(status)), gap) else db
    case Remove(id, gap) =>
      if id in db.rows then
        var lsn := db.lsn + 1 + gap;
        Db(db.rows - {id}, db.wal + [Delete(id, lsn)], lsn)
      else db
  }

  const EMPTY_DB := Db(map[], [], 0)

  function RowIn(db: Db, id: string): Option<Json>
  {
    if id in db.rows then Some(db.rows[id]) else None
  }

  /** A WAL entry as a log entry of the framed format. */
  function Captured(change: Change): Message<Change>
  {
    Record(change, true, true)
  }

  function LogOf(wal: seq<Change>): (log: Log)
    ensures |log| == |wal|
  {
    seq(|wal|, i requires 0 <= i < |wal| => Captured(wal[i]))
  }

  /** LSNs rise, rows name their orders, and only proper ids occur. */
  predicate Folded(db: Db)
  {
    && (forall id :: id in db.rows ==> Canonical(id) && RowOfOrder(db.rows[id], id))
    && (forall i :: 0 <= i < |db.wal| ==>
          && !db.wal[i].Ignored? && Canonical(db.wal[i].id) && 0 < db.wal[i].lsn <= db.lsn
          && (db.wal[i].Upsert? ==> RowOfOrder(db.wal[i].doc, db.wal[i].id)))
    && (forall i, j :: 0 <= i < j < |db.wal| ==> db.wal[i].lsn < db.wal[j].lsn)
    && 0 <= db.lsn
  }

  lemma LogOfSnoc(wal: seq<Change>, change: Change)
    ensures LogOf(wal + [change]) == LogOf(wal) + [Captured(change)]
  {
  }

  lemma AppendedWal(wal: seq<Change>, change: Change, id: string)
    ensures LogOf(wal + [change]) == LogOf(wal) + [Captured(change)]
    ensures |LogOf(wal + [change])| == |wal| + 1
    ensures Version(LogOf(wal + [change]), id, |wal| + 1)
         == if EventOf(Captured(change), id).Some? then EventOf(Captured(change), id)
            else Version(LogOf(wal), id, |wal|)
  {
    LogOfSnoc(wal, change);
    var log, longer := LogOf(wal), LogOf(wal + [change]);
    VersionOfPrefix(log, longer, id, |wal|);
    assert longer[|wal|] == Captured(change);
  }

  lemma {:induction false} FindSet(members: seq<Member>, name: string, value: Json, other: string)
    ensures Find(SetMember(members, name, value), other) == if other == name then Some(value) else Find(members, other)
  {
    if members != [] && members[0].name != name {
      FindSet(members[1..], name, value, other);
      var rest := SetMember(members[1..], name, value);
      assert ([members[0]] + rest)[1..] == rest;
    } else if members != [] {
      assert ([Member(name, value)] + members[1..])[1..] == members[1..];
    }
  }

  /** Setting the status leaves the row its order's. */
  lemma SetFieldKeepsRow(row: Json, id: string, value: Json)
    requires RowOfOrder(row, id)
    ensures RowOfOrder(SetField(row, "status", value), id)
    ensures Contains(SetField(row, "status", value), "status") && Get(SetField(row, "status", value), "status") == value
  {
    FindSet(row.members, "status", value, "id");
    FindSet(row.members, "status", value, "Value");
    FindSet(row.members, "status", value, "status");
  }

  /** Up to 2^53 the LSNs of a WAL rise as doubles too. */
  lemma ExactWalRises(db: Db, id: string)
    requires Folded(db) && db.lsn <= TWO_53
    ensures Rising(LogOf(db.wal), id)
  {
    forall i | 0 <= i < |db.wal|
      ensures Round(db.wal[i].lsn) == db.wal[i].lsn
    {
      ExactUpTo53Bits(db.wal[i].lsn);
    }
  }

  lemma WrittenKeepsFolded(db: Db, id: string, row: Json, gap: nat)
    requires Folded(db) && Canonical(id) && RowOfOrder(row, id)
    ensures Folded(Written(db, id, row, gap)) && db.wal <= Written(db, id, row, gap).wal
  {
  }

  lemma ExecuteKeepsFolded(db: Db, statement: Statement)
    requires Folded(db) && (statement.Insert? ==> Canonical(statement.id) && RowOfOrder(statement.row, statement.id))
    ensures Folded(Execute(db, statement)) && db.wal <= Execute(db, statement).wal
  {
    match statement
    case Insert(id, row, gap) => if id !in db.rows { WrittenKeepsFolded(db, id, row, gap); }
    case SetStatus(id, status, gap) =>
      if id in db.rows {
        SetFieldKeepsRow(db.rows[id], id, Str(status));
        WrittenKeepsFolded(db, id, SetField(db.rows[id], "status", Str(status)), gap);
      }
    case Remove(_, _) =>
  }

  lemma ExecuteAppends(db: Db, statement: Statement, id: string)
    ensures var next := Execute(db, statement);
            || next == db
            || (&& next.wal == db.wal + [next.wal[|db.wal|]]
                && RowIn(next, id) == match EventOf(Captured(next.wal[|db.wal|]), id)
                                      case Some(event) => event.doc
                                      case None => RowIn(db, id))
  {
  }

  /** Each statement keeps the table equal to the fold of the WAL. */
  lemma ExecuteFolds(db: Db, statement: Statement, id: string)
    requires Folded(db) && (statement.Insert? ==> Canonical(statement.id) && RowOfOrder(statement.row, statement.id))
    requires RowIn(db, id) == RowOf(Version(LogOf(db.wal), id, |db.wal|))
    ensures var next := Execute(db, statement);
            && Folded(next) && db.wal <= next.wal
            && RowIn(next, id) == RowOf(Version(LogOf(next.wal), id, |next.wal|))
  {
    ExecuteKeepsFolded(db, statement);
    ExecuteAppends(db, statement, id);
    var next := Execute(db, statement);
    if next.wal != db.wal {
      AppendedWal(db.wal, next.wal[|db.wal|], id);
    }
  }

  // ---- DatabaseClient ----------------------------------------------------

  /** What becomes of a statement: refused, with the connection lost or a value that
      PostgreSQL does not take; committed, but with the answer lost, so that the
      client throws all the same; or committed and acknowledged. */
  datatype Outcome = Rejected | AckLost | Done

  /** How PostgreSQL reads the text of an id: as a UUID, given by its canonical text;
      as none, which is an error; or, where it is formatted into a query and does
      not stay inside its quotes, as part of a query that yields some row or none. */
  datatype Reading = Names(id: string) | Malformed | Beyond(row: Option<Json>)

  /** Canonical text stands for itself; `other` is how any other text is read. */
  function ReadingOf(orderId: string, other: Reading): Reading
  {
    if Canonical(orderId) then Names(orderId) else other
  }

  class DatabaseClient {
    var db: Db

    constructor ()
      ensures db == EMPTY_DB
    {
      db := EMPTY_DB;
    }

    /** None where it throws. The statement is formatted, so an apostrophe in a
        value gets it refused; so does an id that is taken. */
    method CreateOrder(orderId: string, row: Json, gap: nat, outcome: Outcome) returns (created: Option<string>)
      modifies this
      ensures created == if outcome.Done? && orderId !in old(db).rows then Some(orderId) else None
      ensures db == if outcome.Rejected? then old(db) else Execute(old(db), Insert(orderId, row, gap))
      ensures created.None? && db != old(db) <==> outcome.AckLost? && orderId !in old(db).rows
    {
      if outcome.Rejected? || orderId in db.rows { return None; }
      var lsn := db.lsn + 1 + gap;
      db := Db(db.rows[orderId := row], db.wal + [Upsert(orderId, row, lsn)], lsn);
      if outcome.AckLost? { return None; }
      return Some(orderId);
    }

    /** None where it throws; otherwise whether a row was affected. The id is a
        parameter, so text that is no UUID is always an error. */
    method UpdateOrderStatus(orderId: string, other: Reading, status: string, gap: nat, outcome: Outcome)
      returns (found: Option<bool>)
      modifies this
      ensures match ReadingOf(orderId, other)
              case Names(id) =>
                && found == (if outcome.Done? then Some(id in old(db).rows) else None)
                && db == (if outcome.Rejected? then old(db) else Execute(old(db), SetStatus(id, status, gap)))
              case _ => found == None && db == old(db)
    {
      var reading := ReadingOf(orderId, other);
      if outcome.Rejected? || !reading.Names? { return None; }
      var matched := reading.id in db.rows;
      if matched {
        var row := SetField(db.rows[reading.id], "status", Str(status));
        var lsn := db.lsn + 1 + gap;
        db := Db(db.rows[reading.id := row], db.wal + [Upsert(reading.id, row, lsn)], lsn);
      }
      if outcome.AckLost? { return None; }
      return Some(matched);
    }

    /** The row, or None if there is none; ok is false where the query throws. The
        id is formatted into the query. */
    method GetOrderById(orderId: string, other: Reading, up: bool) returns (ok: bool, row: Option<Json>)
      ensures match ReadingOf(orderId, other)
              case Names(id) => ok == up && (ok ==> row == RowIn(db, id))
              case Malformed => !ok
              case Beyond(yielded) => ok == up && (ok ==> row == yielded)
    {
      if !up { return false, None; }
      var reading := ReadingOf(orderId, other);
      match reading
      case Names(id) =>
        if id !in db.rows { return true, None; }
        return true, Some(db.rows[id]);
      case Malformed => return false, None;
      case Beyond(yielded) => return true, yielded;
    }
  }
}
