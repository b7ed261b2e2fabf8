/** Replaying recorded changes on the ghost table through the SQL text written for them. */
module Replay {
  import opened Basics
  import opened RowSql

  /** A row by column; a table's rows by the value of its one-column unique key. */
  type Record = map<string, Option<string>>
  type Contents = map<string, Record>

  datatype Schema = Schema(table: Table, columns: seq<string>, key: string) {

    ghost predicate Valid() {
      key in columns && forall i, j :: 0 <= i < j < |columns| ==> columns[i] != columns[j]
    }

    ghost predicate IsRecord(r: Record) {
      && (forall c :: c in r <==> c in columns)
      && key in r && r[key].Some?
    }

    ghost predicate IsContents(rows: Contents) {
      forall k <- rows :: IsRecord(rows[k]) && rows[k][key] == Some(k)
    }
  }

  // ---- What the server does with a statement ----

  predicate AreDistinct(names: seq<string>) {
    forall i, j :: 0 <= i < j < |names| ==> names[i] != names[j]
  }

  function Assigned(r: Record, sets: seq<Assignment>): Record
    decreases |sets|
  {
    if sets == [] then r
    else Assigned(r[sets[0].column := sets[0].value], sets[1..])
  }

  function Pairs(columns: seq<string>, values: seq<Option<string>>): seq<Assignment>
    requires |columns| == |values|
  {
    seq(|columns|, i requires 0 <= i < |columns| => Assignment(columns[i], values[i]))
  }

  /** The table after the statement, or None when the server refuses it: an unknown or repeated
      column, a value count that differs from the column count, a NULL or duplicate key.  A key
      compared with NULL selects nothing. */
  function Execute(schema: Schema, st: Statement, rows: Contents): Option<Contents> {
    if st.table != schema.table then None
    else
      match st
      case Insert(_, columns, values) =>
        if |columns| != |values| || !AreDistinct(columns) || (exists c <- columns :: c !in schema.columns) then None
        else
          var nulls := map c | c in schema.columns :: None;
          var r := Assigned(nulls, Pairs(columns, values));
          if schema.key !in r || r[schema.key].None? || r[schema.key].value in rows then None
          else Some(rows[r[schema.key].value := r])
      case Update(_, sets, key, value) =>
        if key != schema.key || exists a <- sets :: a.column !in schema.columns || a.column == key then None
        else if value.None? || value.value !in rows then Some(rows)
        else Some(rows[value.value := Assigned(rows[value.value], sets)])
      case Delete(_, key, value) =>
        if key != schema.key then None
        else if value.None? then Some(rows)
        else Some(rows - {value.value})
  }

  function ExecuteText(schema: Schema, sql: string, rows: Contents): Option<Contents> {
    var st :- ReadStatement(sql);
    Execute(schema, st, rows)
  }

  function ExecuteAll(schema: Schema, sqls: seq<string>, rows: Contents): Option<Contents>
    decreases |sqls|
  {
    if sqls == [] then Some(rows)
    else
      var next :- ExecuteText(schema, sqls[0], rows);
      ExecuteAll(schema, sqls[1..], next)
  }

  // ---- What the binlog recorded ----

  /** A change of the original table, with the key value its binlog row carries. */
  datatype Change =
    | Inserted(row: Record, pk: Option<string>)
    | Updated(before: Record, after: Record, pk: Option<string>)
    | Deleted(row: Record, pk: Option<string>)
  {
    predicate KeepsKey(key: string)
      requires Updated?
    {
      key in before && key in after && before[key] == after[key]
    }
  }

  /** The change can happen to `rows`, and an UPDATE or DELETE row carries a key value of one of
      the images recorded for it. */
  ghost predicate Happens(schema: Schema, rows: Contents, ch: Change) {
    match ch
    case Inserted(r, _) =>
      schema.IsRecord(r) && r[schema.key].value !in rows
    case Updated(b, a, pk) =>
      && schema.IsRecord(b) && schema.IsRecord(a)
      && b[schema.key].value in rows && rows[b[schema.key].value] == b
      && (a[schema.key] == b[schema.key] || a[schema.key].value !in rows)
      && (pk == b[schema.key] || pk == a[schema.key])
    case Deleted(r, pk) =>
      schema.IsRecord(r) && r[schema.key].value in rows && rows[r[schema.key].value] == r && pk == r[schema.key]
  }

  ghost function After(schema: Schema, rows: Contents, ch: Change): Contents
    requires Happens(schema, rows, ch)
  {
    match ch
    case Inserted(r, _) => rows[r[schema.key].value := r]
    case Updated(b, a, _) => (rows - {b[schema.key].value})[a[schema.key].value := a]
    case Deleted(r, _) => rows - {r[schema.key].value}
  }

  ghost function Values(columns: seq<string>, r: Record): seq<Option<string>>
    requires forall c <- columns :: c in r
  {
    seq(|columns|, i requires 0 <= i < |columns| => r[columns[i]])
  }

  /** The row of the change as the binlog carries it. */
  ghost function RowOf(schema: Schema, rows: Contents, ch: Change): Row
    requires Happens(schema, rows, ch)
  {
    match ch
    case Inserted(r, pk) => Row(schema.columns, Values(schema.columns, r), schema.key, pk)
    case Updated(_, a, pk) => Row(schema.columns, Values(schema.columns, a), schema.key, pk)
    case Deleted(_, pk) => Row(schema.columns, [], schema.key, pk)
  }

  /** The SQL the applier issues for the change. */
  ghost function SqlOf(schema: Schema, rows: Contents, ch: Change): string
    requires Happens(schema, rows, ch)
  {
    var row := RowOf(schema, rows, ch);
    match ch
    case Inserted(_, _) => InsertStatement(schema.table, row)
    case Updated(_, _, _) => UpdateStatement(schema.table, row, schema.key)
    case Deleted(_, _) => DeleteStatement(schema.table, row, schema.key)
  }

  // ---- One change ----

  lemma {:induction false} AssignedAt(r: Record, sets: seq<Assignment>, c: string)
    ensures c in Assigned(r, sets) <==> c in r || exists i :: 0 <= i < |sets| && sets[i].column == c
    ensures (forall i :: 0 <= i < |sets| ==> sets[i].column != c) && c in r ==> Assigned(r, sets)[c] == r[c]
    decreases |sets|
  {
    if sets != [] {
      AssignedAt(r[sets[0].column := sets[0].value], sets[1..], c);
      assert forall i :: 0 < i < |sets| ==> sets[i] == sets[1..][i - 1];
    }
  }

  predicate AssignsOnce(sets: seq<Assignment>) {
    forall j, k :: 0 <= j < k < |sets| ==> sets[j].column != sets[k].column
  }

  lemma {:induction false} AssignedLast(r: Record, sets: seq<Assignment>, i: nat)
    requires i < |sets| && AssignsOnce(sets)
    ensures sets[i].column in Assigned(r, sets) && Assigned(r, sets)[sets[i].column] == sets[i].value
    decreases |sets|
  {
    var next, rest := r[sets[0].column := sets[0].value], sets[1..];
    assert forall k :: 0 <= k < |rest| ==> rest[k] == sets[k + 1];
    if i == 0 {
      AssignedAt(next, rest, sets[0].column);
    } else {
      AssignedLast(next, rest, i - 1);
    }
  }

  lemma InsertedRecord(schema: Schema, r: Record)
    requires schema.Valid() && schema.IsRecord(r)
    ensures var nulls: Record := map c | c in schema.columns :: None;
      Assigned(nulls, Pairs(schema.columns, Values(schema.columns, r))) == r
  {
    var nulls: Record := map c | c in schema.columns :: None;
    var sets := Pairs(schema.columns, Values(schema.columns, r));
    var got := Assigned(nulls, sets);
    forall c ensures c in got <==> c in r {
      AssignedAt(nulls, sets, c);
    }
    forall c | c in r ensures got[c] == r[c] {
      var i :| 0 <= i < |schema.columns| && schema.columns[i] == c;
      AssignedLast(nulls, sets, i);
    }
  }

  /** The assignments of an UPDATE are those of the columns other than the key, each once. */
  lemma NonKeyAre(columns: seq<string>, after: seq<Option<string>>, key: string)
    requires |columns| == |after| && AreDistinct(columns)
    ensures var sets := NonKey(columns, after, key);
      && (forall k :: 0 <= k < |sets| ==> sets[k].column != key && sets[k].column in columns)
      && (forall i :: 0 <= i < |columns| && columns[i] != key ==> Assignment(columns[i], after[i]) in sets)
      && AssignsOnce(sets)
  {
    NonKeyColumns(columns, after, key);
    NonKeyHas(columns, after, key);
    NonKeyDistinct(columns, after, key);
  }

  lemma {:induction false} NonKeyColumns(columns: seq<string>, after: seq<Option<string>>, key: string)
    requires |columns| == |after|
    ensures forall a <- NonKey(columns, after, key) :: a.column != key && a.column in columns
    decreases |columns|
  {
    if columns != [] {
      NonKeyColumns(columns[1..], after[1..], key);
    }
  }

  lemma {:induction false} NonKeyHas(columns: seq<string>, after: seq<Option<string>>, key: string)
    requires |columns| == |after|
    ensures forall i :: 0 <= i < |columns| && columns[i] != key ==>
      Assignment(columns[i], after[i]) in NonKey(columns, after, key)
    decreases |columns|
  {
    if columns != [] {
      NonKeyHas(columns[1..], after[1..], key);
      forall i | 0 < i < |columns| && columns[i] != key
        ensures Assignment(columns[i], after[i]) in NonKey(columns[1..], after[1..], key)
      {
        assert columns[1..][i - 1] == columns[i] && after[1..][i - 1] == after[i];
      }
    }
  }

  lemma {:induction false} NonKeyDistinct(columns: seq<string>, after: seq<Option<string>>, key: string)
    requires |columns| == |after| && AreDistinct(columns)
    ensures AssignsOnce(NonKey(columns, after, key))
    decreases |columns|
  {
    if columns != [] {
      var rest := NonKey(columns[1..], after[1..], key);
      NonKeyDistinct(columns[1..], after[1..], key);
      NonKeyColumns(columns[1..], after[1..], key);
      forall a | a in rest ensures a.column != columns[0] {
        var i :| 0 <= i < |columns[1..]| && columns[1..][i] == a.column;
        assert columns[i + 1] == a.column;
      }
      ConsDistinct(Assignment(columns[0], after[0]), rest);
    }
  }

  lemma ConsDistinct(first: Assignment, rest: seq<Assignment>)
    requires AssignsOnce(rest) && forall a <- rest :: a.column != first.column
    ensures AssignsOnce([first] + rest)
  {
    var sets := [first] + rest;
    forall j, k | 0 <= j < k < |sets| ensures sets[j].column != sets[k].column {
      assert sets[k] == rest[k - 1] && (j > 0 ==> sets[j] == rest[j - 1]);
    }
  }

  lemma UpdateSets(schema: Schema, after: Record)
    requires schema.Valid() && schema.IsRecord(after)
    ensures var sets := NonKey(schema.columns, Values(schema.columns, after), schema.key);
      && (forall a <- sets :: a.column in schema.columns && a.column != schema.key)
      && (sets == [] <==> |schema.columns| == 1)
  {
    var values := Values(schema.columns, after);
    NonKeyAre(schema.columns, values, schema.key);
    if |schema.columns| > 1 {
      var i := if schema.columns[0] == schema.key then 1 else 0;
      assert Assignment(schema.columns[i], values[i]) in NonKey(schema.columns, values, schema.key);
    }
  }

  lemma UpdatedValue(schema: Schema, before: Record, after: Record, c: string)
    requires schema.Valid() && schema.IsRecord(before) && schema.IsRecord(after)
    ensures var got := Assigned(before, NonKey(schema.columns, Values(schema.columns, after), schema.key));
      && (c in got <==> c in before)
      && (c in before ==> got[c] == if c == schema.key then before[c] else after[c])
  {
    var values := Values(schema.columns, after);
    var sets := NonKey(schema.columns, values, schema.key);
    NonKeyAre(schema.columns, values, schema.key);
    AssignedAt(before, sets, c);
    if c in before && c != schema.key {
      var i :| 0 <= i < |schema.columns| && schema.columns[i] == c;
      assert Assignment(schema.columns[i], values[i]) in sets;
      var k :| 0 <= k < |sets| && sets[k] == Assignment(c, values[i]);
      AssignedLast(before, sets, k);
    }
  }

  /** An UPDATE gives the row every value of the after image but that of the key. */
  lemma UpdatedRecord(schema: Schema, before: Record, after: Record)
    requires schema.Valid() && schema.IsRecord(before) && schema.IsRecord(after)
    ensures Assigned(before, NonKey(schema.columns, Values(schema.columns, after), schema.key))
         == after[schema.key := before[schema.key]]
  {
    forall c: string {
      UpdatedValue(schema, before, after, c);
    }
  }

  lemma InsertReplays(schema: Schema, rows: Contents, ch: Change)
    requires schema.Valid() && ch.Inserted? && Happens(schema, rows, ch)
    ensures ExecuteText(schema, SqlOf(schema, rows, ch), rows) == Some(After(schema, rows, ch))
  {
    var values := Values(schema.columns, ch.row);
    InsertRoundTrip(schema.table, Row(schema.columns, values, schema.key, ch.pk));
    InsertedRecord(schema, ch.row);
  }

  ghost function Updated(schema: Schema, rows: Contents, sets: seq<Assignment>, pk: string): Contents {
    if pk !in rows then rows else rows[pk := Assigned(rows[pk], sets)]
  }

  lemma ReadExecutes(schema: Schema, sql: string, st: Statement, rows: Contents)
    requires ReadStatement(sql) == Some(st)
    ensures Exactly(ExecuteText(schema, sql, rows)) == Exactly(Execute(schema, st, rows))
  {
  }

  lemma UpdateOfKnownColumns(schema: Schema, sets: seq<Assignment>, pk: string, rows: Contents)
    requires forall a <- sets :: a.column in schema.columns && a.column != schema.key
    ensures Exactly(Execute(schema, Update(schema.table, sets, schema.key, Some(pk)), rows)) ==
      Exactly(Some(Updated(schema, rows, sets, pk)))
  {
  }

  lemma UpdateExecutes(schema: Schema, rows: Contents, after: Record, pk: string)
    requires schema.Valid() && schema.IsRecord(after)
    ensures var row := Row(schema.columns, Values(schema.columns, after), schema.key, Some(pk));
      Exactly(ExecuteText(schema, UpdateStatement(schema.table, row, schema.key), rows)) ==
      Exactly(if |schema.columns| == 1 then None
              else Some(Updated(schema, rows, NonKey(row.columns, row.after, schema.key), pk)))
  {
    var row := Row(schema.columns, Values(schema.columns, after), schema.key, Some(pk));
    var sql, sets := UpdateStatement(schema.table, row, schema.key), NonKey(row.columns, row.after, schema.key);
    UpdateRoundTrip(schema.table, row, schema.key);
    UpdateSets(schema, after);
    if sets != [] {
      ReadExecutes(schema, sql, Update(schema.table, sets, schema.key, Some(pk)), rows);
      UpdateOfKnownColumns(schema, sets, pk, rows);
    }
  }

  lemma SameKeyUpdates(schema: Schema, rows: Contents, ch: Change)
    requires schema.Valid() && schema.IsContents(rows) && ch.Updated? && Happens(schema, rows, ch)
    requires ch.KeepsKey(schema.key)
    ensures var sets := NonKey(schema.columns, Values(schema.columns, ch.after), schema.key);
      Exactly(Updated(schema, rows, sets, ch.pk.value)) == Exactly(After(schema, rows, ch))
  {
    UpdatedRecord(schema, ch.before, ch.after);
    SameValueKept(ch.after, schema.key);
    RowReplaced(rows, ch.before[schema.key].value, ch.after);
  }

  lemma SameValueKept(r: Record, key: string)
    requires key in r
    ensures Exactly(r[key := r[key]]) == Exactly(r)
  {
    assert r[key := r[key]] == r;
  }

  lemma RowReplaced(rows: Contents, k: string, r: Record)
    ensures Exactly((rows - {k})[k := r]) == Exactly(rows[k := r])
  {
    assert (rows - {k})[k := r] == rows[k := r];
  }

  lemma UpdatedIff(schema: Schema, rows: Contents, ch: Change)
    requires schema.Valid() && schema.IsContents(rows) && ch.Updated? && Happens(schema, rows, ch)
    ensures var sets := NonKey(schema.columns, Values(schema.columns, ch.after), schema.key);
      Exactly(Updated(schema, rows, sets, ch.pk.value)) == Exactly(After(schema, rows, ch)) <==> ch.KeepsKey(schema.key)
  {
    if ch.KeepsKey(schema.key) {
      SameKeyUpdates(schema, rows, ch);
    } else {
      var k := ch.before[schema.key].value;
      assert k in rows && k !in After(schema, rows, ch);
    }
  }

  lemma UpdateReplaysIff(schema: Schema, rows: Contents, ch: Change)
    requires schema.Valid() && schema.IsContents(rows) && ch.Updated? && Happens(schema, rows, ch)
    ensures Exactly(ExecuteText(schema, SqlOf(schema, rows, ch), rows)) == Exactly(Some(After(schema, rows, ch))) <==>
      ch.KeepsKey(schema.key) && |schema.columns| > 1
  {
    UpdateExecutes(schema, rows, ch.after, ch.pk.value);
    UpdatedIff(schema, rows, ch);
  }

  /** Not an UPDATE that changes the key value, nor one of a table without a column beside the key. */
  predicate IsReplayable(schema: Schema, ch: Change) {
    ch.Updated? ==> ch.KeepsKey(schema.key) && |schema.columns| > 1
  }

  /** One recorded change is replayed faithfully exactly when it is not an UPDATE that changes the
      key value, nor an UPDATE of a table that has no column beside the key. */
  lemma ChangeReplaysIff(schema: Schema, rows: Contents, ch: Change)
    requires schema.Valid() && schema.IsContents(rows) && Happens(schema, rows, ch)
    ensures ExecuteText(schema, SqlOf(schema, rows, ch), rows) == Some(After(schema, rows, ch)) <==>
      IsReplayable(schema, ch)
  {
    match ch
    case Inserted(_, _) => InsertReplays(schema, rows, ch);
    case Updated(_, _, _) => UpdateReplaysIff(schema, rows, ch);
    case Deleted(_, _) => DeleteRoundTrip(schema.table, Row(schema.columns, [], schema.key, ch.pk), schema.key);
  }

  // ---- A whole history ----

  ghost predicate IsHistory(schema: Schema, rows: Contents, history: seq<Change>)
    decreases |history|
  {
    history == [] ||
    (Happens(schema, rows, history[0]) && IsHistory(schema, After(schema, rows, history[0]), history[1..]))
  }

  ghost function Final(schema: Schema, rows: Contents, history: seq<Change>): Contents
    requires IsHistory(schema, rows, history)
    decreases |history|
  {
    if history == [] then rows
    else Final(schema, After(schema, rows, history[0]), history[1..])
  }

  ghost function Sqls(schema: Schema, rows: Contents, history: seq<Change>): seq<string>
    requires IsHistory(schema, rows, history)
    decreases |history|
  {
    if history == [] then []
    else [SqlOf(schema, rows, history[0])] + Sqls(schema, After(schema, rows, history[0]), history[1..])
  }

  lemma AfterIsContents(schema: Schema, rows: Contents, ch: Change)
    requires schema.IsContents(rows) && Happens(schema, rows, ch)
    ensures schema.IsContents(After(schema, rows, ch))
  {
  }

  /** The statement of every change turns the table before it into the table behind it. */
  ghost predicate ReplaysInTurn(schema: Schema, rows: Contents, history: seq<Change>)
    requires IsHistory(schema, rows, history)
    decreases |history|
  {
    history == [] ||
    (var next := After(schema, rows, history[0]);
     && ExecuteText(schema, SqlOf(schema, rows, history[0]), rows) == Some(next)
     && ReplaysInTurn(schema, next, history[1..]))
  }

  predicate AllReplayable(schema: Schema, history: seq<Change>) {
    forall ch <- history :: IsReplayable(schema, ch)
  }

  lemma AllReplayableSplits(schema: Schema, history: seq<Change>)
    requires history != []
    ensures AllReplayable(schema, history) <==> IsReplayable(schema, history[0]) && AllReplayable(schema, history[1..])
  {
    assert history == [history[0]] + history[1..];
  }

  /** A recorded history is replayed faithfully, change for change, exactly when each of its
      changes is replayable. */
  lemma {:induction false} HistoryReplaysIff(schema: Schema, rows: Contents, history: seq<Change>)
    requires schema.Valid() && schema.IsContents(rows) && IsHistory(schema, rows, history)
    ensures ReplaysInTurn(schema, rows, history) <==> AllReplayable(schema, history)
    decreases |history|
  {
    if history != [] {
      ChangeReplaysIff(schema, rows, history[0]);
      AfterIsContents(schema, rows, history[0]);
      HistoryReplaysIff(schema, After(schema, rows, history[0]), history[1..]);
      AllReplayableSplits(schema, history);
    }
  }

  lemma {:induction false} InTurnIsAll(schema: Schema, rows: Contents, history: seq<Change>)
    requires IsHistory(schema, rows, history) && ReplaysInTurn(schema, rows, history)
    ensures ExecuteAll(schema, Sqls(schema, rows, history), rows) == Some(Final(schema, rows, history))
    decreases |history|
  {
    if history != [] {
      var next := After(schema, rows, history[0]);
      InTurnIsAll(schema, next, history[1..]);
      assert Sqls(schema, rows, history)[1..] == Sqls(schema, next, history[1..]);
    }
  }

  /** Replaying any recorded history on a copy of the starting table yields the final table, when
      no UPDATE changes a key value and, if there are UPDATEs, a column beside the key exists. */
  lemma HistoryReplays(schema: Schema, rows: Contents, history: seq<Change>)
    requires schema.Valid() && schema.IsContents(rows) && IsHistory(schema, rows, history)
    requires AllReplayable(schema, history)
    ensures ExecuteAll(schema, Sqls(schema, rows, history), rows) == Some(Final(schema, rows, history))
  {
    HistoryReplaysIff(schema, rows, history);
    InTurnIsAll(schema, rows, history);
  }

  /** An UPDATE that moves a row from key 1 to key 2 is not replayed. */
  lemma KeyChangeIsLost() returns (schema: Schema, rows: Contents, ch: Change)
    ensures schema.Valid() && schema.IsContents(rows) && ch.Updated? && Happens(schema, rows, ch)
    ensures |schema.columns| > 1 && !ch.KeepsKey(schema.key)
    ensures ExecuteText(schema, SqlOf(schema, rows, ch), rows) != Some(After(schema, rows, ch))
  {
    schema := Schema(Table("d", "t"), ["id", "c"], "id");
    var before: Record, after: Record := map["id" := Some("1"), "c" := None], map["id" := Some("2"), "c" := None];
    rows, ch := map["1" := before], Change.Updated(before, after, Some("2"));
    ChangeReplaysIff(schema, rows, ch);
  }
}
