/** One row for each key, settled once. */
module OperationTable {
  // The table has a constraint on the key and a trigger that refuses every change but the settling of a row.

  import opened Common
  import opened IdempotencyKeys
  import opened Effector

  /** What settling a row may not change. */
  datatype Identity = Identity(key: Key, provider: string, amount: int, startedAt: int)

  datatype Stored = Stored(id: Identity, row: Row)

  type Table = map<Key, Stored>

  datatype Statement = Insert(stored: Stored) | Update(key: Key, stored: Stored) | Delete(key: Key)

  /** A statement either changes the table or is refused, which aborts its transaction. One that finds no row to
      change changes nothing. */
  function Execute(table: Table, statement: Statement): Option<Table> {
    match statement
    case Insert(stored) =>
      if stored.id.key in table then None else Some(table[stored.id.key := stored])
    case Update(key, stored) =>
      if key !in table then Some(table)
      else if table[key].row.settled then None
      else if stored.id != table[key].id then None
      else Some(table[key := stored])
    case Delete(key) =>
      if key in table then None else Some(table)
  }

  /** Refused are a second row for a key, any change to a settled row or to what a row is of, and every deletion of a
      row; an update carried out leaves its row, and nothing else changes. */
  lemma RefusedIff(table: Table, statement: Statement)
    ensures Execute(table, statement).None? <==>
            match statement
            case Insert(stored) => stored.id.key in table
            case Update(key, stored) => key in table && (table[key].row.settled || stored.id != table[key].id)
            case Delete(key) => key in table
    ensures Execute(table, statement).Some? ==>
              var t := Execute(table, statement).value;
              && (forall key :: key in t && !(key in table && t[key] == table[key]) ==>
                    (statement.Insert? && key == statement.stored.id.key && t[key] == statement.stored)
                    || (statement.Update? && key == statement.key && t[key] == statement.stored))
              && (statement.Insert? ==> statement.stored.id.key in t)
              && (statement.Update? && statement.key in table ==> t[statement.key] == statement.stored)
  {
  }

  /** What a sequence of statements leaves of the table; those refused leave it alone. */
  function Left(table: Table, statements: seq<Statement>): Table {
    if statements == [] then table
    else
      var before := Left(table, statements[..|statements| - 1]);
      var next := Execute(before, statements[|statements| - 1]);
      if next.Some? then next.value else before
  }

  predicate Keyed(table: Table) {
    forall key :: key in table ==> table[key].id.key == key
  }

  lemma StatementKeeps(table: Table, statement: Statement, key: Key)
    requires Keyed(table) && Execute(table, statement).Some?
    ensures Keyed(Execute(table, statement).value)
    ensures key in table ==>
              && key in Execute(table, statement).value
              && Execute(table, statement).value[key].id == table[key].id
              && (table[key].row.settled ==> Execute(table, statement).value[key] == table[key])
  {
  }

  /** Whatever statements anyone sends, no row is lost, none changes its identity or amount, and a settled row is
      frozen. */
  lemma {:induction false} RowsAreFrozen(table: Table, statements: seq<Statement>, key: Key)
    requires Keyed(table)
    ensures Keyed(Left(table, statements))
    ensures key in table ==>
              && key in Left(table, statements)
              && Left(table, statements)[key].id == table[key].id
              && (table[key].row.settled ==> Left(table, statements)[key] == table[key])
  {
    hide Keyed, Execute;
    if statements != [] {
      var n := |statements| - 1;
      RowsAreFrozen(table, statements[..n], key);
      var before := Left(table, statements[..n]);
      if Execute(before, statements[n]).Some? {
        StatementKeeps(before, statements[n], key);
      }
    }
  }

  /** The statements of one finished transaction: the intent, and the settling if an answer came. */
  function Statements(id: Identity, reply: Option<PaymentState>): seq<Statement> {
    [Insert(Stored(id, Row(false, Unknown)))] +
    (if reply.Some? then [Update(id.key, Stored(id, RowFor(id.key, reply)))] else [])
  }

  /** The rows of the protocol are the rows of the table. */
  predicate Reads(table: Table, rows: map<Key, Row>) {
    table.Keys == rows.Keys && forall key :: key in table ==> table[key].row == rows[key]
  }

  /** What committing does to the rows is what those statements do to the table, trigger and all: the first is refused
      exactly when the protocol aborts, and otherwise none is. */
  lemma CommitIsTheStatements(table: Table, s: World, w: nat, id: Identity)
    requires Keyed(table) && Reads(table, s.rows) && Enabled(s, Commit(w)) && id.key == s.Of(w).key
    ensures var statements := Statements(id, s.Of(w).reply);
            var after := Execute(table, statements[0]);
            && (after.None? <==> id.key in s.rows)
            && (after.None? ==> Reads(table, Apply(s, Commit(w)).rows))
            && (after.Some? && |statements| > 1 ==> Execute(after.value, statements[1]).Some?)
            && (after.Some? ==> Reads(Left(table, statements), Apply(s, Commit(w)).rows))
  {
    var reply := s.Of(w).reply;
    var statements := Statements(id, reply);
    LeftOfFirst(table, statements[0]);
    if reply.Some? {
      assert statements[..1] == [statements[0]];
    } else {
      assert statements == [statements[0]];
    }
  }

  lemma LeftOfFirst(table: Table, statement: Statement)
    ensures Left(table, [statement]) ==
            if Execute(table, statement).Some? then Execute(table, statement).value else table
  {
  }
}
