/** Applying batches of binlog events in a transaction. */
module Batches {
  import opened Basics
  import opened Replay
  import R = RowSql

  /** One session of the server: what is committed, what the session sees, and whether the
      connection believes a transaction is open. */
  datatype Session = Session(committed: Contents, working: Contents, open: bool) {
    predicate IsClosed() {
      !open && working == committed
    }
  }

  /** Rollback's fate: done, done but left in the transaction mode, or refused. */
  datatype Rollback = Clean | LeftOpen | Refused

  /** How a batch ended.  `executed` are the statements that took effect; the last of them may be
      the one that was reported as failed. */
  datatype Ending =
    | BeginRefused
    | StatementFailed(executed: seq<string>, unreported: bool, rollback: Rollback)
    | CommitRefused     // nothing committed, transaction still open
    | CommitUnreported  // committed, but Commit returned false
    | Committed

  /** `ending` takes session `s` to `t` when the batch of statements `sqls` is applied. */
  predicate Ends(schema: Schema, s: Session, sqls: seq<string>, ending: Ending, t: Session) {
    var all := ExecuteAll(schema, sqls, s.working);
    match ending
    case BeginRefused => t == s
    case StatementFailed(executed, unreported, rollback) =>
      var part := ExecuteAll(schema, executed, s.working);
      && executed <= sqls && (if unreported then executed != [] else executed != sqls) && part.Some?
      && t == (match rollback
               case Clean => Session(s.committed, s.committed, false)
               case LeftOpen => Session(s.committed, s.committed, true)
               case Refused => Session(s.committed, part.value, true))
    case CommitRefused => all.Some? && t == Session(s.committed, all.value, true)
    case CommitUnreported => all.Some? && t == Session(all.value, all.value, true)
    case Committed => all.Some? && t == Session(all.value, all.value, false)
  }

  lemma {:induction false} ExecuteAppend(schema: Schema, a: seq<string>, b: seq<string>, rows: Contents)
    ensures var first := ExecuteAll(schema, a, rows);
      Exactly(ExecuteAll(schema, a + b, rows)) ==
      Exactly(if first.None? then None else ExecuteAll(schema, b, first.value))
    decreases |a|
  {
    if a == [] {
      assert a + b == b;
    } else {
      assert (a + b)[1..] == a[1..] + b;
      var next := ExecuteText(schema, a[0], rows);
      if next.Some? {
        ExecuteAppend(schema, a[1..], b, next.value);
      }
    }
  }

  /** A batch reported done left the full fold of its statements.  One reported failed left the
      session as it found it exactly when neither the commit nor the rollback went wrong. */
  lemma BatchIsAtomicIff(schema: Schema, s: Session, sqls: seq<string>, ending: Ending, t: Session)
    requires s.IsClosed() && Ends(schema, s, sqls, ending, t)
    ensures ending.Committed? ==> t.IsClosed() && ExecuteAll(schema, sqls, s.committed) == Some(t.committed)
    ensures !ending.Committed? ==>
      (t == s <==> ending.BeginRefused? || (ending.StatementFailed? && ending.rollback.Clean?))
    ensures !ending.Committed? && !ending.CommitUnreported? ==> t.committed == s.committed
  {
  }

  /** Successive batches on one connection. */
  datatype Attempt = Attempt(sqls: seq<string>, ending: Ending, after: Session)

  predicate IsRun(schema: Schema, s: Session, run: seq<Attempt>)
    decreases |run|
  {
    run == [] || (Ends(schema, s, run[0].sqls, run[0].ending, run[0].after) && IsRun(schema, run[0].after, run[1..]))
  }

  function Last(s: Session, run: seq<Attempt>): Session {
    if run == [] then s else run[|run| - 1].after
  }

  /** The statements of the batches reported done. */
  function Reported(run: seq<Attempt>): seq<string> {
    if run == [] then []
    else (if run[0].ending.Committed? then run[0].sqls else []) + Reported(run[1..])
  }

  predicate FailsCleanly(ending: Ending) {
    ending.Committed? || ending.BeginRefused? || (ending.StatementFailed? && ending.rollback.Clean?)
  }

  /** Over any number of batches the committed table is the fold of exactly the batches reported
      done, as long as every other one failed before its commit and was rolled back. */
  lemma {:induction false} RunCommitsReported(schema: Schema, s: Session, run: seq<Attempt>)
    requires s.IsClosed() && IsRun(schema, s, run) && forall a <- run :: FailsCleanly(a.ending)
    ensures Last(s, run).IsClosed()
    ensures Exactly(ExecuteAll(schema, Reported(run), s.committed)) == Exactly(Some(Last(s, run).committed))
    decreases |run|
  {
    if run != [] {
      var first := run[0];
      assert first in run;
      RunCommitsReported(schema, first.after, run[1..]);
      assert Last(s, run) == Last(first.after, run[1..]);
      if first.ending.Committed? {
        ExecuteAppend(schema, first.sqls, Reported(run[1..]), s.committed);
      } else {
        assert Reported(run) == Reported(run[1..]);
      }
    }
  }

  /** ApplyBatch does not roll back after a refused commit: the next batch reported done then
      commits the statements of the failed one as well. */
  lemma RefusedCommitLeaks(schema: Schema, s: Session, first: seq<string>, t: Session, second: seq<string>, u: Session)
    requires s.IsClosed()
    requires Ends(schema, s, first, CommitRefused, t) && Ends(schema, t, second, Committed, u)
    ensures t.committed == s.committed && t.open
    ensures Exactly(ExecuteAll(schema, first + second, s.committed)) == Exactly(Some(u.committed))
  {
    ExecuteAppend(schema, first, second, s.committed);
  }

  /** A concrete leak: a batch whose commit was refused has inserted its row once an empty batch
      is reported done. */
  lemma LeakedInsert() returns (schema: Schema, s: Session, sqls: seq<string>, t: Session, u: Session)
    ensures s.IsClosed() && Ends(schema, s, sqls, CommitRefused, t) && Ends(schema, t, [], Committed, u)
    ensures u.committed != s.committed
  {
    schema := Schema(R.Table("d", "t"), ["k"], "k");
    var rows: Contents := map[];
    var ch := Inserted(map["k" := Some("1")], Some("1"));
    s := Session(rows, rows, false);
    sqls := [SqlOf(schema, rows, ch)];
    var after := After(schema, rows, ch);
    InsertReplays(schema, rows, ch);
    assert ExecuteAll(schema, sqls[1..], after) == Some(after);
    t, u := Session(rows, after, true), Session(after, after, false);
    assert "1" in after;
  }
}

/** The DML entries of the binlog and the statements they stand for. */
module BinlogEntries {
  import opened Basics
  import opened Batches
  import opened Replay
  import opened RowSql

  datatype Kind = InsertRows | UpdateRows | DeleteRows

  datatype DmlEvent = DmlEvent(kind: Kind, rows: seq<Row>)

  function StatementFor(schema: Schema, kind: Kind, row: Row): string {
    match kind
    case InsertRows => InsertStatement(schema.table, row)
    case UpdateRows => UpdateStatement(schema.table, row, schema.key)
    case DeleteRows => DeleteStatement(schema.table, row, schema.key)
  }

  function StatementsFor(schema: Schema, kind: Kind, rows: seq<Row>): (r: seq<string>)
    ensures |r| == |rows|
  {
    if rows == [] then []
    else StatementsFor(schema, kind, rows[..|rows| - 1]) + [StatementFor(schema, kind, rows[|rows| - 1])]
  }

  lemma {:induction false} StatementsForPrefix(schema: Schema, kind: Kind, rows: seq<Row>, n: nat)
    requires n <= |rows|
    ensures StatementsFor(schema, kind, rows[..n]) <= StatementsFor(schema, kind, rows)
    decreases |rows|
  {
    if n == |rows| {
      assert rows[..n] == rows;
    } else {
      var front := rows[..|rows| - 1];
      StatementsForPrefix(schema, kind, front, n);
      assert front[..n] == rows[..n];
    }
  }

  function StatementsOf(schema: Schema, entry: Option<DmlEvent>): seq<string> {
    if entry.Some? then StatementsFor(schema, entry.value.kind, entry.value.rows) else []
  }

  /** The statements of a batch: those of its DML entries, in order. */
  function Statements(schema: Schema, entries: seq<Option<DmlEvent>>): seq<string> {
    if entries == [] then []
    else Statements(schema, entries[..|entries| - 1]) + StatementsOf(schema, entries[|entries| - 1])
  }

  lemma {:induction false} StatementsPrefix(schema: Schema, entries: seq<Option<DmlEvent>>, i: nat)
    requires i <= |entries|
    ensures Statements(schema, entries[..i]) <= Statements(schema, entries)
    decreases |entries|
  {
    if i == |entries| {
      assert entries[..i] == entries;
    } else {
      var front := entries[..|entries| - 1];
      StatementsPrefix(schema, front, i);
      assert front[..i] == entries[..i];
    }
  }

  // ---- The entries of a recorded history ----

  datatype RowChange = RowChange(kind: Kind, row: Row)

  function FlatRows(kind: Kind, rows: seq<Row>): seq<RowChange> {
    if rows == [] then [] else FlatRows(kind, rows[..|rows| - 1]) + [RowChange(kind, rows[|rows| - 1])]
  }

  /** The rows of all entries in order, however they are grouped into events. */
  function Flattened(entries: seq<Option<DmlEvent>>): seq<RowChange> {
    if entries == [] then []
    else
      var last := entries[|entries| - 1];
      Flattened(entries[..|entries| - 1]) + if last.Some? then FlatRows(last.value.kind, last.value.rows) else []
  }

  ghost function ChangeRow(schema: Schema, rows: Contents, ch: Change): RowChange
    requires Happens(schema, rows, ch)
  {
    var row := RowOf(schema, rows, ch);
    match ch
    case Inserted(_, _) => RowChange(InsertRows, row)
    case Updated(_, _, _) => RowChange(UpdateRows, row)
    case Deleted(_, _) => RowChange(DeleteRows, row)
  }

  ghost function Recorded(schema: Schema, rows: Contents, history: seq<Change>): seq<RowChange>
    requires IsHistory(schema, rows, history)
    decreases |history|
  {
    if history == [] then []
    else [ChangeRow(schema, rows, history[0])] + Recorded(schema, After(schema, rows, history[0]), history[1..])
  }

  function Texts(schema: Schema, changes: seq<RowChange>): seq<string> {
    if changes == [] then []
    else
      var last := changes[|changes| - 1];
      Texts(schema, changes[..|changes| - 1]) + [StatementFor(schema, last.kind, last.row)]
  }

  lemma {:induction false} TextsAppend(schema: Schema, a: seq<RowChange>, b: seq<RowChange>)
    ensures Exactly(Texts(schema, a + b)) == Exactly(Texts(schema, a) + Texts(schema, b))
    decreases |b|
  {
    if b == [] {
      assert a + b == a && Texts(schema, a) + [] == Texts(schema, a);
    } else {
      var front, last := b[..|b| - 1], b[|b| - 1];
      TextsAppend(schema, a, front);
      assert (a + b)[..|a + b| - 1] == a + front;
      Regroup3(Texts(schema, a), Texts(schema, front), [StatementFor(schema, last.kind, last.row)]);
    }
  }

  lemma {:induction false} RowTexts(schema: Schema, kind: Kind, rows: seq<Row>)
    ensures Exactly(StatementsFor(schema, kind, rows)) == Exactly(Texts(schema, FlatRows(kind, rows)))
    decreases |rows|
  {
    if rows != [] {
      var front, last := rows[..|rows| - 1], rows[|rows| - 1];
      RowTexts(schema, kind, front);
      CutAppend(FlatRows(kind, front), [RowChange(kind, last)], |FlatRows(kind, front)|);
    }
  }

  lemma {:induction false} EntryTexts(schema: Schema, entries: seq<Option<DmlEvent>>)
    ensures Exactly(Statements(schema, entries)) == Exactly(Texts(schema, Flattened(entries)))
    decreases |entries|
  {
    if entries != [] {
      var front, last := entries[..|entries| - 1], entries[|entries| - 1];
      EntryTexts(schema, front);
      if last.Some? {
        RowTexts(schema, last.value.kind, last.value.rows);
        TextsAppend(schema, Flattened(front), FlatRows(last.value.kind, last.value.rows));
      } else {
        assert Flattened(front) + [] == Flattened(front);
        assert Statements(schema, front) + [] == Statements(schema, front);
      }
    }
  }

  lemma {:induction false} HistoryTexts(schema: Schema, rows: Contents, history: seq<Change>)
    requires IsHistory(schema, rows, history)
    ensures Exactly(Texts(schema, Recorded(schema, rows, history))) == Exactly(Sqls(schema, rows, history))
    decreases |history|
  {
    if history != [] {
      var first, next := ChangeRow(schema, rows, history[0]), After(schema, rows, history[0]);
      HistoryTexts(schema, next, history[1..]);
      TextsAppend(schema, [first], Recorded(schema, next, history[1..]));
      OneText(schema, first);
    }
  }

  lemma OneText(schema: Schema, change: RowChange)
    ensures Exactly(Texts(schema, [change])) == Exactly([StatementFor(schema, change.kind, change.row)])
  {
    assert [change][..0] == [] && [] + [StatementFor(schema, change.kind, change.row)]
      == [StatementFor(schema, change.kind, change.row)];
  }

  /** Entries that carry the rows of a recorded history, in whatever grouping, give the statements
      of that history.  So a batch of them reported done has turned a copy of the starting table
      into the final one, and one that failed cleanly has changed nothing. */
  lemma CommittedHistory(schema: Schema, s: Session, history: seq<Change>, entries: seq<Option<DmlEvent>>,
                         ending: Ending, t: Session)
    requires schema.Valid() && s.IsClosed() && schema.IsContents(s.committed) && IsHistory(schema, s.committed, history)
    requires AllReplayable(schema, history)
    requires Flattened(entries) == Recorded(schema, s.committed, history)
    requires Ends(schema, s, Statements(schema, entries), ending, t)
    ensures Exactly(Statements(schema, entries)) == Exactly(Sqls(schema, s.committed, history))
    ensures ending.Committed? ==> t.IsClosed() && t.committed == Final(schema, s.committed, history)
    ensures FailsCleanly(ending) && !ending.Committed? ==> t == s
  {
    EntryTexts(schema, entries);
    HistoryTexts(schema, s.committed, history);
    HistoryReplays(schema, s.committed, history);
  }
}

/** The connection and the applier, in place. */
module ApplierObject {
  import opened Basics
  import opened Batches
  import opened BinlogEntries
  import opened Replay
  import opened RowSql
  import opened SqlText

  /** `sqls` take the table from `start` to `end`. */
  predicate Leads(schema: Schema, sqls: seq<string>, start: Contents, end: Contents) {
    Exactly(ExecuteAll(schema, sqls, start)) == Exactly(Some(end))
  }

  /** The server side of a connection; a statement may be refused at any time, or take effect and
      be reported as failed. */
  class Connection {
    const schema: Schema
    var committed: Contents
    var working: Contents
    var open: bool

    function State(): Session
      reads this
    {
      Session(committed, working, open)
    }

    constructor (schema: Schema, rows: Contents)
      ensures this.schema == schema && State() == Session(rows, rows, false)
    {
      this.schema := schema;
      committed, working, open := rows, rows, false;
    }

    method Execute(sql: string) returns (ok: bool, ghost took: bool)
      modifies this
      ensures ok ==> took
      ensures open == old(open)
      ensures took ==> ExecuteText(schema, sql, old(working)) == Some(working)
      ensures !took ==> working == old(working)
      ensures committed == if open || !took then old(committed) else working
    {
      var reached, reported := *, *;
      var next := ExecuteText(schema, sql, working);
      if next.None? || !reached {
        return false, false;
      }
      working := next.value;
      if !open {
        committed := working;
      }
      return reported, true;
    }

    method BeginTransaction() returns (ok: bool)
      modifies this
      ensures State() == if ok then old(State()).(open := true) else old(State())
    {
      ok := *;
      if ok {
        open := true;
      }
    }

    method Commit() returns (ok: bool)
      modifies this
      ensures ok ==> old(open) && State() == Session(old(working), old(working), false)
      ensures !ok ==> open == old(open) && working == old(working)
      ensures !ok ==> committed == old(committed) || committed == old(working)
    {
      if !open {
        return false;
      }
      var committing, restoring := *, *;
      if committing {
        committed := working;
      }
      ok := committing && restoring;
      if ok {
        open := false;
      }
    }

    /** Without an open transaction there is nothing to roll back, and the call fails. */
    method RollBack() returns (fate: Rollback)
      modifies this
      ensures !old(open) ==> fate == Refused
      ensures State() == match fate
        case Clean => Session(old(committed), old(committed), false)
        case LeftOpen => Session(old(committed), old(committed), true)
        case Refused => old(State())
    {
      if !open {
        return Refused;
      }
      var undoing, restoring := *, *;
      if !undoing {
        return Refused;
      }
      working := committed;
      if !restoring {
        return LeftOpen;
      }
      open := false;
      return Clean;
    }
  }

  class Applier {
    const connection: Connection
    var appliedCount: nat

    constructor (connection: Connection)
      ensures this.connection == connection && appliedCount == 0
    {
      this.connection := connection;
      appliedCount := 0;
    }

    method BuildInsertSQL(row: Row) returns (sql: string)
      ensures sql == InsertStatement(connection.schema.table, row)
    {
      var table := TableName();
      var names := JoinNames(row.columns);
      var values := ToInsertValuesSQL(row.after);
      return "INSERT INTO " + table + " (" + names + ") VALUES " + values;
    }

    method BuildUpdateSQL(row: Row) returns (sql: string)
      ensures sql == UpdateStatement(connection.schema.table, row, connection.schema.key)
    {
      var table := TableName();
      var update := ToUpdateSQL(row, connection.schema.key);
      return "UPDATE " + table + " " + update;
    }

    method BuildDeleteSQL(row: Row) returns (sql: string)
      ensures sql == DeleteStatement(connection.schema.table, row, connection.schema.key)
    {
      var table := TableName();
      var key := QuoteIdentifier(connection.schema.key, '`');
      sql := WriteItem(" WHERE " + key + " = ", row.pkValue);
      sql := "DELETE FROM " + table + sql;
    }

    method TableName() returns (name: string)
      ensures name == TableSql(connection.schema.table)
    {
      var database := QuoteIdentifier(connection.schema.table.database, '`');
      var table := QuoteIdentifier(connection.schema.table.name, '`');
      return database + "." + table;
    }

    method ApplyRow(kind: Kind, row: Row) returns (ok: bool, ghost took: bool)
      modifies this, connection
      ensures ok ==> took
      ensures connection.open == old(connection.open)
      ensures took ==>
        ExecuteText(connection.schema, StatementFor(connection.schema, kind, row), old(connection.working))
          == Some(connection.working)
      ensures !took ==> connection.working == old(connection.working)
      ensures connection.committed == if connection.open || !took then old(connection.committed) else connection.working
      ensures appliedCount == old(appliedCount) + if ok then 1 else 0
    {
      var sql: string;
      match kind {
        case InsertRows => sql := BuildInsertSQL(row);
        case UpdateRows => sql := BuildUpdateSQL(row);
        case DeleteRows => sql := BuildDeleteSQL(row);
      }
      ok, took := connection.Execute(sql);
      if ok {
        appliedCount := appliedCount + 1;
      }
    }

    method ApplyRowAt(event: DmlEvent, i: nat, ghost start: Contents) returns (ok: bool, ghost took: nat)
      requires i < |event.rows|
      requires Leads(connection.schema, StatementsFor(connection.schema, event.kind, event.rows[..i]),
                     start, connection.working)
      modifies this, connection
      ensures i <= took <= i + 1 && (ok ==> took == i + 1)
      ensures connection.open == old(connection.open)
      ensures Leads(connection.schema, StatementsFor(connection.schema, event.kind, event.rows[..took]),
                    start, connection.working)
      ensures connection.committed ==
        if connection.open || took == i then old(connection.committed) else connection.working
      ensures took == i ==> connection.working == old(connection.working)
      ensures appliedCount == old(appliedCount) + if ok then 1 else 0
    {
      ghost var before := connection.working;
      ghost var applied;
      ok, applied := ApplyRow(event.kind, event.rows[i]);
      took := if applied then i + 1 else i;
      if applied {
        NextRow(connection.schema, event.kind, event.rows, i, start, before, connection.working);
      }
    }

    /** ApplyInsert, ApplyUpdate and ApplyDelete: `n` rows were reported applied before one failed,
        and `took` rows were applied, which may include the one reported as failed. */
    method ApplyDMLEvent(event: DmlEvent) returns (ok: bool, ghost n: nat, ghost took: nat)
      modifies this, connection
      ensures connection.open == old(connection.open)
      ensures n <= took <= n + 1 && took <= |event.rows| && (ok <==> n == |event.rows|)
      ensures Leads(connection.schema, StatementsFor(connection.schema, event.kind, event.rows[..took]),
                    old(connection.working), connection.working)
      ensures connection.committed ==
        if connection.open || took == 0 then old(connection.committed) else connection.working
      ensures appliedCount == old(appliedCount) + n
    {
      n, took := 0, 0;
      for i := 0 to |event.rows|
        invariant n == took == i && connection.open == old(connection.open) && appliedCount == old(appliedCount) + i
        invariant Leads(connection.schema, StatementsFor(connection.schema, event.kind, event.rows[..i]),
                        old(connection.working), connection.working)
        invariant connection.committed ==
          if connection.open || i == 0 then old(connection.committed) else connection.working
      {
        ok, took := ApplyRowAt(event, i, old(connection.working));
        if !ok {
          return;
        }
        n := i + 1;
      }
      ok := true;
    }

    /** Returns how the batch ended; the counter also counts statements rolled back.  On a
        connection without an open transaction a batch reported done has committed the full fold,
        and one reported failed has left the session as it was exactly if it failed cleanly. */
    method ApplyBatch(entries: seq<Option<DmlEvent>>) returns (ok: bool, ghost ending: Ending)
      modifies this, connection
      ensures ok <==> ending.Committed?
      ensures Ends(connection.schema, old(connection.State()), Statements(connection.schema, entries), ending,
                   connection.State())
      ensures old(connection.State()).IsClosed() && ok ==>
        && connection.State().IsClosed()
        && ExecuteAll(connection.schema, Statements(connection.schema, entries), old(connection.committed))
             == Some(connection.committed)
      ensures old(connection.State()).IsClosed() && !ok ==>
        (connection.State() == old(connection.State()) <==> FailsCleanly(ending))
      ensures !ok && !ending.CommitUnreported? ==> connection.committed == old(connection.committed)
      ensures appliedCount == old(appliedCount) +
        match ending
        case BeginRefused => 0
        case StatementFailed(executed, unreported, _) => if unreported then |executed| - 1 else |executed|
        case _ => |Statements(connection.schema, entries)|
    {
      var begun := connection.BeginTransaction();
      if !begun {
        return false, BeginRefused;
      }
      ghost var start := old(connection.State());
      for i := 0 to |entries|
        invariant connection.open && connection.committed == start.committed
        invariant appliedCount == old(appliedCount) + |Statements(connection.schema, entries[..i])|
        invariant Leads(connection.schema, Statements(connection.schema, entries[..i]),
                        start.working, connection.working)
      {
        ghost var before := connection.working;
        if entries[i].Some? {
          var applied, n, took := ApplyDMLEvent(entries[i].value);
          NextEvent(connection.schema, entries, i, took, start.working, before, connection.working);
          if !applied {
            ghost var executed := Executed(connection.schema, entries, i, took);
            var fate := connection.RollBack();
            return false, StatementFailed(executed, took > n, fate);
          }
        } else {
          SkippedEntry(connection.schema, entries, i);
        }
      }
      assert entries[..|entries|] == entries;
      ok := connection.Commit();
      ending := if ok then Committed
                else if connection.committed == start.committed then CommitRefused
                else CommitUnreported;
      if start.IsClosed() {
        BatchIsAtomicIff(connection.schema, start, Statements(connection.schema, entries), ending, connection.State());
      }
    }
  }

  /** What took effect when `took` rows of entry `i` did. */
  function Executed(schema: Schema, entries: seq<Option<DmlEvent>>, i: nat, took: nat): seq<string>
    requires i < |entries| && entries[i].Some? && took <= |entries[i].value.rows|
  {
    Statements(schema, entries[..i]) + StatementsFor(schema, entries[i].value.kind, entries[i].value.rows[..took])
  }

  lemma LeadsAppend(schema: Schema, a: seq<string>, b: seq<string>, start: Contents, middle: Contents, end: Contents)
    requires Leads(schema, a, start, middle) && Leads(schema, b, middle, end)
    ensures Leads(schema, a + b, start, end)
  {
    ExecuteAppend(schema, a, b, start);
  }

  lemma NextEvent(schema: Schema, entries: seq<Option<DmlEvent>>, i: nat, took: nat,
                  start: Contents, before: Contents, after: Contents)
    requires i < |entries| && entries[i].Some? && took <= |entries[i].value.rows|
    requires Leads(schema, Statements(schema, entries[..i]), start, before)
    requires Leads(schema, StatementsFor(schema, entries[i].value.kind, entries[i].value.rows[..took]), before, after)
    ensures Leads(schema, Executed(schema, entries, i, took), start, after)
    ensures ExecutedFits(schema, entries, i, took)
  {
    var event := entries[i].value;
    LeadsAppend(schema, Statements(schema, entries[..i]),
                StatementsFor(schema, event.kind, event.rows[..took]), start, before, after);
    ExecutedIsPrefix(schema, entries, i, took);
  }

  predicate ExecutedFits(schema: Schema, entries: seq<Option<DmlEvent>>, i: nat, took: nat)
    requires i < |entries| && entries[i].Some? && took <= |entries[i].value.rows|
  {
    var executed, rows := Executed(schema, entries, i, took), entries[i].value.rows;
    && |executed| == |Statements(schema, entries[..i])| + took
    && executed <= Statements(schema, entries)
    && (took < |rows| ==> executed != Statements(schema, entries))
    && (took == |rows| ==> Exactly(executed) == Exactly(Statements(schema, entries[..i + 1])))
  }

  lemma ExecutedIsPrefix(schema: Schema, entries: seq<Option<DmlEvent>>, i: nat, took: nat)
    requires i < |entries| && entries[i].Some? && took <= |entries[i].value.rows|
    ensures ExecutedFits(schema, entries, i, took)
  {
    var event := entries[i].value;
    StatementsForPrefix(schema, event.kind, event.rows, took);
    assert entries[..i + 1][..i] == entries[..i];
    StatementsPrefix(schema, entries, i + 1);
    if took == |event.rows| {
      assert event.rows[..took] == event.rows;
    }
    PrefixOf(Statements(schema, entries[..i]), StatementsFor(schema, event.kind, event.rows[..took]),
             StatementsFor(schema, event.kind, event.rows), Statements(schema, entries));
  }

  lemma SkippedEntry(schema: Schema, entries: seq<Option<DmlEvent>>, i: nat)
    requires i < |entries| && entries[i].None?
    ensures Exactly(Statements(schema, entries[..i + 1])) == Exactly(Statements(schema, entries[..i]))
  {
    assert entries[..i + 1][..i] == entries[..i];
    assert Statements(schema, entries[..i]) + [] == Statements(schema, entries[..i]);
  }

  lemma NextRow(schema: Schema, kind: Kind, rows: seq<Row>, i: nat, start: Contents, before: Contents, after: Contents)
    requires i < |rows|
    requires Leads(schema, StatementsFor(schema, kind, rows[..i]), start, before)
    requires ExecuteText(schema, StatementFor(schema, kind, rows[i]), before) == Some(after)
    ensures Leads(schema, StatementsFor(schema, kind, rows[..i + 1]), start, after)
  {
    assert rows[..i + 1][..i] == rows[..i];
    var sql := StatementFor(schema, kind, rows[i]);
    LastStatement(schema, sql, before);
    LeadsAppend(schema, StatementsFor(schema, kind, rows[..i]), [sql], start, before, after);
  }

  lemma LastStatement(schema: Schema, sql: string, rows: Contents)
    ensures Exactly(ExecuteAll(schema, [sql], rows)) == Exactly(ExecuteText(schema, sql, rows))
  {
    var next := ExecuteText(schema, sql, rows);
    if next.Some? {
      assert ExecuteAll(schema, [], next.value) == next;
    }
  }

  lemma PrefixOf(before: seq<string>, done: seq<string>, all: seq<string>, sqls: seq<string>)
    requires before + all <= sqls && done <= all
    ensures before + done <= sqls && (|done| < |all| ==> before + done != sqls)
  {
    var both := before + all;
    forall i | 0 <= i < |before + done| ensures (before + done)[i] == sqls[i] {
      assert both[i] == sqls[i];
    }
  }

  lemma {:induction false} NamesAppend(columns: seq<string>, last: string)
    ensures Exactly(Names(columns + [last])) ==
      Exactly(if columns == [] then QuotedIdentifier(last) else Names(columns) + ", " + QuotedIdentifier(last))
  {
    if columns == [] {
      assert [] + [last] == [last];
    } else {
      var tail := columns[1..];
      NamesAppend(tail, last);
      assert (columns + [last])[1..] == tail + [last];
      Regroup4(QuotedIdentifier(columns[0]) + ", ", Names(tail), ", ", QuotedIdentifier(last));
    }
  }

  lemma NextName(columns: seq<string>, i: nat)
    requires i < |columns|
    ensures Exactly(Names(columns[..i + 1])) ==
      Exactly((if i > 0 then Names(columns[..i]) + ", " else Names(columns[..i])) + QuotedIdentifier(columns[i]))
  {
    NamesAppend(columns[..i], columns[i]);
    assert columns[..i + 1] == columns[..i] + [columns[i]];
    if i == 0 {
      assert "" + QuotedIdentifier(columns[i]) == QuotedIdentifier(columns[i]);
    }
  }

  method JoinNames(columns: seq<string>) returns (names: string)
    ensures names == Names(columns)
  {
    names := "";
    for i := 0 to |columns|
      invariant Exactly(names) == Exactly(Names(columns[..i]))
    {
      NextName(columns, i);
      if i > 0 {
        names := names + ", ";
      }
      var name := QuoteIdentifier(columns[i], '`');
      names := names + name;
    }
    assert columns[..|columns|] == columns;
  }
}
