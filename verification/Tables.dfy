/** What the orders table holds after any statements, read off the statements: an order
    is its insert with the last status set since. */
module Tables {
  import opened Json
  import opened Options
  import opened Records
  import opened Database

  function Executed(statements: seq<Statement>): Db
  {
    if statements == [] then EMPTY_DB
    else Execute(Executed(statements[..|statements| - 1]), statements[|statements| - 1])
  }

  predicate Inserts(statement: Statement, id: string)
  {
    statement.Insert? && statement.id == id
  }

  predicate Removes(statement: Statement, id: string)
  {
    statement.Remove? && statement.id == id
  }

  predicate Sets(statement: Statement, id: string)
  {
    statement.SetStatus? && statement.id == id
  }

  /** The order has been there since the insert at b: the first after the last removal. */
  predicate BornAt(statements: seq<Statement>, id: string, b: nat)
  {
    && b < |statements| && Inserts(statements[b], id)
    && (forall k :: b < k < |statements| ==> !Removes(statements[k], id))
    && (forall a :: 0 <= a < b && Inserts(statements[a], id) ==>
          exists k :: a < k < b && Removes(statements[k], id))
  }

  /** The order is not there: every insert was followed by a removal. */
  predicate NotThere(statements: seq<Statement>, id: string)
  {
    forall a :: 0 <= a < |statements| && Inserts(statements[a], id) ==>
      exists k :: a < k < |statements| && Removes(statements[k], id)
  }

  /** The last status set after b, or what the order was inserted with. */
  predicate StatusIs(statements: seq<Statement>, id: string, b: nat, status: Option<Json>)
    requires b < |statements| && Inserts(statements[b], id) && statements[b].row.Obj?
  {
    || (&& (forall k :: b < k < |statements| ==> !Sets(statements[k], id))
        && status == Find(statements[b].row.members, "status"))
    || (exists k :: && b < k < |statements| && Sets(statements[k], id)
                    && status == Some(Str(statements[k].status))
                    && forall j :: k < j < |statements| ==> !Sets(statements[j], id))
  }

  /** The row is the one inserted at b, but for its status. */
  ghost predicate RowSince(statements: seq<Statement>, id: string, b: nat, row: Json)
  {
    && BornAt(statements, id, b) && statements[b].row.Obj? && row.Obj?
    && (forall name: string :: name != "status" ==>
          Find(row.members, name) == Find(statements[b].row.members, name))
    && StatusIs(statements, id, b, Find(row.members, "status"))
  }

  predicate ObjectRows(statements: seq<Statement>)
  {
    forall k :: 0 <= k < |statements| && statements[k].Insert? ==> statements[k].row.Obj?
  }

  ghost predicate Holds(statements: seq<Statement>, id: string)
  {
    match RowIn(Executed(statements), id)
    case None => NotThere(statements, id)
    case Some(row) => exists b: nat :: b < |statements| && RowSince(statements, id, b, row)
  }

  lemma StatementKeepsAbsent(before: seq<Statement>, s: Statement, id: string)
    requires NotThere(before, id)
    ensures !Inserts(s, id) ==> NotThere(before + [s], id)
    ensures Inserts(s, id) ==> BornAt(before + [s], id, |before|)
  {
    var after := before + [s];
    forall a | 0 <= a < |before| && Inserts(after[a], id)
      ensures exists k :: a < k < |before| && Removes(after[k], id)
    {
      assert before[a] == after[a];
      var k :| a < k < |before| && Removes(before[k], id);
      assert Removes(after[k], id);
    }
  }

  lemma StatementKeepsBirth(before: seq<Statement>, s: Statement, id: string, b: nat)
    requires BornAt(before, id, b)
    ensures !Removes(s, id) ==> BornAt(before + [s], id, b)
    ensures Removes(s, id) ==> NotThere(before + [s], id)
  {
    var after := before + [s];
    assert forall k :: 0 <= k < |before| ==> after[k] == before[k];
    forall a | 0 <= a < b && Inserts(after[a], id)
      ensures exists k :: a < k < b && Removes(after[k], id)
    {
      var k :| a < k < b && Removes(before[k], id);
      assert Removes(after[k], id);
    }
    if Removes(s, id) {
      assert Removes(after[|before|], id);
    }
  }

  lemma StatementKeepsStatus(before: seq<Statement>, s: Statement, id: string, b: nat, status: Option<Json>)
    requires b < |before| && Inserts(before[b], id) && before[b].row.Obj? && StatusIs(before, id, b, status)
    ensures (before + [s])[b] == before[b]
    ensures StatusIs(before + [s], id, b, if Sets(s, id) then Some(Str(s.status)) else status)
  {
    var after := before + [s];
    assert forall k :: 0 <= k < |before| ==> after[k] == before[k];
    if Sets(s, id) {
      assert Sets(after[|before|], id);
    } else if k :| && b < k < |before| && Sets(before[k], id) && status == Some(Str(before[k].status))
                   && forall j :: k < j < |before| ==> !Sets(before[j], id) {
      assert Sets(after[k], id);
    }
  }

  /** After any statements: an order has a row if and only if it was inserted after it
      was last removed; and the row is then, field by field, that of the first insert
      since, with the status that was last set after that. */
  lemma {:induction false} TableFollows(statements: seq<Statement>, id: string)
    requires ObjectRows(statements)
    ensures Holds(statements, id)
  {
    if statements != [] {
      var n := |statements| - 1;
      var before, s := statements[..n], statements[n];
      assert statements == before + [s];
      TableFollows(before, id);
      match RowIn(Executed(before), id)
      case None =>
        StatementKeepsAbsent(before, s, id);
        if Inserts(s, id) { assert RowSince(statements, id, n, s.row); }
      case Some(row) =>
        var b: nat :| b < n && RowSince(before, id, b, row);
        StatementKeepsBirth(before, s, id, b);
        StatementKeepsStatus(before, s, id, b, Find(row.members, "status"));
        RowKept(before, s, id, b, row);
    }
  }

  lemma RowKept(before: seq<Statement>, s: Statement, id: string, b: nat, row: Json)
    requires RowSince(before, id, b, row) && RowIn(Executed(before), id) == Some(row)
    requires BornAt(before + [s], id, b) || Removes(s, id)
    requires (before + [s])[b] == before[b]
    requires StatusIs(before + [s], id, b, if Sets(s, id) then Some(Str(s.status)) else Find(row.members, "status"))
    ensures var now := RowIn(Execute(Executed(before), s), id);
            if Removes(s, id) then now.None? else now.Some? && RowSince(before + [s], id, b, now.value)
  {
    if Sets(s, id) {
      forall name: string
        ensures Find(SetField(row, "status", Str(s.status)).members, name)
             == if name == "status" then Some(Str(s.status)) else Find(row.members, name)
      {
        FindSet(row.members, "status", Str(s.status), name);
      }
    }
  }
}
