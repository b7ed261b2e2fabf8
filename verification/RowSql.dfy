/** The INSERT, UPDATE and DELETE statements written for binlog rows, and a reader for them. */
module RowSql {
  import opened Basics
  import opened SqlText
  import opened Text

  /** A row of a binlog event; a value of None is SQL NULL. */
  datatype Row = Row(columns: seq<string>, after: seq<Option<string>>, pkColumn: string, pkValue: Option<string>)

  datatype Table = Table(database: string, name: string)

  datatype Assignment = Assignment(column: string, value: Option<string>)

  /** What a statement asks the server to do. */
  datatype Statement =
    | Insert(table: Table, columns: seq<string>, values: seq<Option<string>>)
    | Update(table: Table, sets: seq<Assignment>, key: string, keyValue: Option<string>)
    | Delete(table: Table, key: string, keyValue: Option<string>)

  // ---- Writing ----

  function Item(value: Option<string>): string {
    match value
    case Some(text) => Quote(text)
    case None => "NULL"
  }

  function Items(values: seq<Option<string>>): string {
    if values == [] then ""
    else if |values| == 1 then Item(values[0])
    else Item(values[0]) + ", " + Items(values[1..])
  }

  function Names(columns: seq<string>): string {
    if columns == [] then ""
    else if |columns| == 1 then QuotedIdentifier(columns[0])
    else QuotedIdentifier(columns[0]) + ", " + Names(columns[1..])
  }

  function SetItem(a: Assignment): string {
    QuotedIdentifier(a.column) + " = " + Item(a.value)
  }

  function SetItems(sets: seq<Assignment>): string {
    if sets == [] then ""
    else if |sets| == 1 then SetItem(sets[0])
    else SetItem(sets[0]) + ", " + SetItems(sets[1..])
  }

  /** What an UPDATE of this row assigns: every column but the key, a missing value being NULL. */
  function NonKey(columns: seq<string>, after: seq<Option<string>>, key: string): seq<Assignment> {
    if columns == [] then []
    else
      var rest := NonKey(columns[1..], if after == [] then [] else after[1..], key);
      if columns[0] == key then rest
      else [Assignment(columns[0], if after == [] then None else after[0])] + rest
  }

  function InsertValuesSql(values: seq<Option<string>>): string {
    "(" + Items(values) + ")"
  }

  function UpdateSql(row: Row, key: string): string {
    "SET " + SetItems(NonKey(row.columns, row.after, key)) + KeyClause(key, row.pkValue)
  }

  function KeyClause(key: string, value: Option<string>): string {
    " WHERE " + QuotedIdentifier(key) + " = " + Item(value)
  }

  function TableSql(t: Table): string {
    QuotedIdentifier(t.database) + "." + QuotedIdentifier(t.name)
  }

  function InsertStatement(t: Table, row: Row): string {
    "INSERT INTO " + TableSql(t) + " (" + Names(row.columns) + ") VALUES " + InsertValuesSql(row.after)
  }

  function UpdateStatement(t: Table, row: Row, key: string): string {
    "UPDATE " + TableSql(t) + " " + UpdateSql(row, key)
  }

  function DeleteStatement(t: Table, row: Row, key: string): string {
    "DELETE FROM " + TableSql(t) + KeyClause(key, row.pkValue)
  }

  method WriteItem(sql: string, value: Option<string>) returns (result: string)
    ensures result == sql + Item(value)
  {
    if value.Some? {
      var escaped := EscapeForSQL(value.value);
      result := sql + ("'" + escaped + "'");
    } else {
      result := sql + "NULL";
    }
  }

  method ToInsertValuesSQL(after: seq<Option<string>>) returns (sql: string)
    ensures sql == InsertValuesSql(after)
  {
    sql := "(";
    for i := 0 to |after|
      invariant sql + Items(after[i..]) == "(" + Items(after)
    {
      ghost var before := sql;
      assert after[i..][1..] == after[i + 1..];
      sql := WriteItem(sql, after[i]);
      if i < |after| - 1 {
        Regroup4(before, Item(after[i]), ", ", Items(after[i + 1..]));
        sql := sql + ", ";
      }
    }
    assert sql + "" == sql;
    sql := sql + ")";
  }

  method WriteSetItem(sql: string, comma: bool, column: string, value: Option<string>) returns (result: string)
    ensures Exactly(result) == Exactly((if comma then sql + ", " else sql) + SetItem(Assignment(column, value)))
  {
    var start := if comma then sql + ", " else sql;
    var name := QuoteIdentifier(column, '`');
    result := WriteItem(start + (name + " = "), value);
    Regroup3(start, name + " = ", Item(value));
  }

  method ToUpdateSQL(row: Row, key: string) returns (sql: string)
    ensures sql == UpdateSql(row, key)
  {
    sql := "SET ";
    var count := 0;
    ghost var goal := NonKey(row.columns, row.after, key);
    ghost var sets := [];
    var i := 0;
    NothingWritten(row, key);
    while i < |row.columns|
      invariant 0 <= i <= |row.columns| && count == |sets|
      invariant Exactly(sets + NonKey(row.columns[i..], Behind(row.after, i), key)) == Exactly(goal)
      invariant Exactly(sql) == Exactly("SET " + SetItems(sets))
    {
      NonKeyStep(row.columns, row.after, i, key);
      if row.columns[i] == key {
        i := i + 1;
        continue;
      }
      var value := if i < |row.after| then row.after[i] else None;
      ghost var next := Assignment(row.columns[i], value);
      sql := WriteSetItem(sql, count > 0, row.columns[i], value);
      WroteSetItem(sets, next);
      Regroup3(sets, [next], NonKey(row.columns[i + 1..], Behind(row.after, i + 1), key));
      sets := sets + [next];
      count := count + 1;
      i := i + 1;
    }
    assert NonKey(row.columns[i..], Behind(row.after, i), key) == [] && sets + [] == sets;
    var name := QuoteIdentifier(key, '`');
    sql := WriteItem(sql + (" WHERE " + name + " = "), row.pkValue);
    Regroup3("SET " + SetItems(goal), " WHERE " + name + " = ", Item(row.pkValue));
  }

  lemma NothingWritten(row: Row, key: string)
    ensures Exactly([] + NonKey(row.columns[0..], Behind(row.after, 0), key)) ==
      Exactly(NonKey(row.columns, row.after, key))
    ensures Exactly("SET " + SetItems([])) == Exactly("SET ")
  {
    var goal := NonKey(row.columns, row.after, key);
    assert row.columns[0..] == row.columns && Behind(row.after, 0) == row.after && [] + goal == goal;
    assert "SET " + "" == "SET ";
  }

  lemma NonKeyStep(columns: seq<string>, after: seq<Option<string>>, i: nat, key: string)
    requires i < |columns|
    ensures var rest := NonKey(columns[i + 1..], Behind(after, i + 1), key);
      Exactly(NonKey(columns[i..], Behind(after, i), key)) ==
        Exactly(if columns[i] == key then rest
                else [Assignment(columns[i], if i < |after| then after[i] else None)] + rest)
  {
    assert columns[i..][1..] == columns[i + 1..];
    if i < |after| {
      assert after[i..][1..] == after[i + 1..];
    } else {
      assert Behind(after, i) == [];
    }
  }

  /** Behind a written list, a separator unless it is empty, and the next item. */
  lemma WroteSetItem(sets: seq<Assignment>, next: Assignment)
    ensures var before := "SET " + SetItems(sets);
      Exactly((if sets != [] then before + ", " else before) + SetItem(next)) ==
      Exactly("SET " + SetItems(sets + [next]))
  {
    SetItemsAppend(sets, next);
    if sets == [] {
      assert "SET " + "" + SetItem(next) == "SET " + SetItem(next);
    } else {
      Regroup4("SET ", SetItems(sets), ", ", SetItem(next));
    }
  }

  function Behind(values: seq<Option<string>>, i: nat): seq<Option<string>> {
    if i <= |values| then values[i..] else []
  }

  lemma {:induction false} SetItemsAppend(sets: seq<Assignment>, last: Assignment)
    ensures Exactly(SetItems(sets + [last])) ==
      Exactly(if sets == [] then SetItem(last) else SetItems(sets) + ", " + SetItem(last))
  {
    if sets == [] {
      assert [] + [last] == [last];
    } else {
      var tail := sets[1..];
      SetItemsAppend(tail, last);
      assert (sets + [last])[1..] == tail + [last];
      Regroup4(SetItem(sets[0]) + ", ", SetItems(tail), ", ", SetItem(last));
    }
  }

  // ---- Reading ----

  function Expect(s: string, token: string): (r: Option<string>)
    ensures r.Some? ==> s == token + r.value
  {
    if StartsWith(s, token) then Some(s[|token|..]) else None
  }

  function ReadItem(s: string): (r: Option<Read<Option<string>>>)
    ensures r.Some? ==> |r.value.rest| < |s|
  {
    if StartsWith(s, "NULL") then Some(Read(None, s[4..]))
    else
      var body :- Expect(s, "'");
      var text :- ReadString(body);
      Some(Read(Some(text.value), text.rest))
  }

  function ReadQuotedName(s: string): (r: Option<Read<string>>)
    ensures r.Some? ==> |r.value.rest| < |s|
  {
    var body :- Expect(s, "`");
    ReadName(body)
  }

  /** Values separated by commas up to a closing parenthesis. */
  function ReadItems(s: string): Option<Read<seq<Option<string>>>>
    decreases |s|
  {
    var first :- ReadItem(s);
    if StartsWith(first.rest, ", ") then
      var others :- ReadItems(first.rest[2..]);
      Some(Read([first.value] + others.value, others.rest))
    else
      var rest :- Expect(first.rest, ")");
      Some(Read([first.value], rest))
  }

  function ReadNames(s: string): Option<Read<seq<string>>>
    decreases |s|
  {
    var first :- ReadQuotedName(s);
    if StartsWith(first.rest, ", ") then
      var others :- ReadNames(first.rest[2..]);
      Some(Read([first.value] + others.value, others.rest))
    else
      var rest :- Expect(first.rest, ")");
      Some(Read([first.value], rest))
  }

  function ReadTuple(s: string): Option<Read<seq<Option<string>>>> {
    if StartsWith(s, "()") then Some(Read([], s[2..]))
    else
      var body :- Expect(s, "(");
      ReadItems(body)
  }

  function ReadColumns(s: string): Option<Read<seq<string>>> {
    if StartsWith(s, "()") then Some(Read([], s[2..]))
    else
      var body :- Expect(s, "(");
      ReadNames(body)
  }

  function ReadSetItem(s: string): (r: Option<Read<Assignment>>)
    ensures r.Some? ==> |r.value.rest| < |s|
  {
    var name :- ReadQuotedName(s);
    var right :- Expect(name.rest, " = ");
    var value :- ReadItem(right);
    Some(Read(Assignment(name.value, value.value), value.rest))
  }

  function ReadSets(s: string): Option<Read<seq<Assignment>>>
    decreases |s|
  {
    var first :- ReadSetItem(s);
    if StartsWith(first.rest, ", ") then
      var others :- ReadSets(first.rest[2..]);
      Some(Read([first.value] + others.value, others.rest))
    else
      Some(Read([first.value], first.rest))
  }

  function ReadTable(s: string): Option<Read<Table>> {
    var database :- ReadQuotedName(s);
    var dot :- Expect(database.rest, ".");
    var name :- ReadQuotedName(dot);
    Some(Read(Table(database.value, name.value), name.rest))
  }

  /** The key clause that ends a statement. */
  function ReadKeyClause(s: string): Option<Assignment> {
    var clause :- Expect(s, " WHERE ");
    var item :- ReadSetItem(clause);
    if item.rest == "" then Some(item.value) else None
  }

  function ReadInsert(s: string): Option<Statement> {
    var table :- ReadTable(s);
    var columns :- Expect(table.rest, " ");
    var names :- ReadColumns(columns);
    var values :- Expect(names.rest, " VALUES ");
    var tuple :- ReadTuple(values);
    if tuple.rest == "" then Some(Insert(table.value, names.value, tuple.value)) else None
  }

  function ReadUpdate(s: string): Option<Statement> {
    var table :- ReadTable(s);
    var set_ :- Expect(table.rest, " SET ");
    var sets :- ReadSets(set_);
    var key :- ReadKeyClause(sets.rest);
    Some(Update(table.value, sets.value, key.column, key.value))
  }

  function ReadDelete(s: string): Option<Statement> {
    var table :- ReadTable(s);
    var key :- ReadKeyClause(table.rest);
    Some(Delete(table.value, key.column, key.value))
  }

  function ReadStatement(s: string): Option<Statement> {
    if StartsWith(s, "INSERT INTO ") then ReadInsert(s[12..])
    else if StartsWith(s, "UPDATE ") then ReadUpdate(s[7..])
    else if StartsWith(s, "DELETE FROM ") then ReadDelete(s[12..])
    else None
  }

  // ---- What is written reads back ----

  lemma RegroupList(a: string, b: string, c: string, d: string, e: string)
    ensures a + b + c + d + e == a + (b + (c + d + e))
  {
  }

  lemma InsertShape(table: string, names: string, values: string)
    ensures "INSERT INTO " + table + " (" + names + ") VALUES " + values
         == "INSERT INTO " + (table + (" " + ("(" + names + ")" + (" VALUES " + values))))
  {
    assert ") VALUES " == ")" + " VALUES " && " (" == " " + "(";
  }

  lemma UpdateShape(table: string, sets: string, where: string)
    ensures "UPDATE " + table + " " + ("SET " + sets + where) == "UPDATE " + (table + (" SET " + (sets + where)))
  {
    assert " SET " == " " + "SET ";
  }

  lemma Expected(token: string, rest: string)
    ensures StartsWith(token + rest, token) && (token + rest)[|token|..] == rest
    ensures Expect(token + rest, token) == Some(rest)
  {
  }

  lemma OtherToken(token: string, rest: string, other: string)
    requires token != "" && other != "" && token[0] != other[0]
    ensures !StartsWith(token + rest, other)
  {
    if |other| <= |token + rest| {
      assert (token + rest)[..|other|][0] == token[0];
    }
  }

  lemma ItemReads(value: Option<string>, rest: string)
    requires rest == "" || rest[0] != '\''
    ensures ReadItem(Item(value) + rest) == Some(Read(value, rest))
  {
    match value
    case None => Expected("NULL", rest);
    case Some(text) =>
      var body := Escape(text) + "'" + rest;
      assert Item(value) + rest == "'" + body;
      Expected("'", body);
      OtherToken("'", body, "NULL");
      QuoteRoundTrip(text, rest);
  }

  lemma NameReadsBack(name: string, rest: string)
    requires rest == "" || rest[0] != '`'
    ensures ReadQuotedName(QuotedIdentifier(name) + rest) == Some(Read(name, rest))
  {
    var body := DoubleQuotes(name, '`') + "`" + rest;
    assert QuotedIdentifier(name) + rest == "`" + body;
    Expected("`", body);
    IdentifierRoundTrip(name, rest);
  }

  lemma LastItemReads(value: Option<string>, rest: string)
    ensures ReadItems(Item(value) + ")" + rest) == Some(Read([value], rest))
  {
    Regroup3(Item(value), ")", rest);
    ItemReads(value, ")" + rest);
    Expected(")", rest);
    OtherToken(")", rest, ", ");
  }

  lemma NextItemReads(value: Option<string>, others: string)
    ensures ReadItem(Item(value) + (", " + others)) == Some(Read(value, ", " + others))
    ensures StartsWith(", " + others, ", ") && (", " + others)[2..] == others
  {
    ItemReads(value, ", " + others);
    Expected(", ", others);
  }

  lemma {:induction false} ItemsRead(values: seq<Option<string>>, rest: string)
    requires values != []
    ensures ReadItems(Items(values) + ")" + rest) == Some(Read(values, rest))
    decreases |values|
  {
    if |values| == 1 {
      LastItemReads(values[0], rest);
      assert [values[0]] == values;
    } else {
      var others := Items(values[1..]) + ")" + rest;
      RegroupList(Item(values[0]), ", ", Items(values[1..]), ")", rest);
      NextItemReads(values[0], others);
      ItemsRead(values[1..], rest);
      assert [values[0]] + values[1..] == values;
    }
  }

  lemma {:induction false} NamesRead(columns: seq<string>, rest: string)
    requires columns != []
    ensures ReadNames(Names(columns) + ")" + rest) == Some(Read(columns, rest))
    decreases |columns|
  {
    if |columns| == 1 {
      assert Names(columns) + ")" + rest == QuotedIdentifier(columns[0]) + (")" + rest);
      NameReadsBack(columns[0], ")" + rest);
      Expected(")", rest);
      OtherToken(")", rest, ", ");
      assert [columns[0]] == columns;
    } else {
      var others := Names(columns[1..]) + ")" + rest;
      RegroupList(QuotedIdentifier(columns[0]), ", ", Names(columns[1..]), ")", rest);
      NameReadsBack(columns[0], ", " + others);
      Expected(", ", others);
      NamesRead(columns[1..], rest);
      assert [columns[0]] + columns[1..] == columns;
    }
  }

  lemma ColumnsRoundTrip(columns: seq<string>, rest: string)
    ensures ReadColumns("(" + Names(columns) + ")" + rest) == Some(Read(columns, rest))
  {
    if columns == [] {
      assert "(" + Names(columns) + ")" == "()";
      Expected("()", rest);
    } else {
      var body := Names(columns) + ")" + rest;
      assert "(" + Names(columns) + ")" + rest == "(" + body;
      Expected("(", body);
      NamesRead(columns, rest);
      NotEmptyTuple(Names(columns), rest, '`');
    }
  }

  lemma NotEmptyTuple(list: string, rest: string, first: char)
    requires list != "" && list[0] == first && first != ')'
    ensures !StartsWith("(" + (list + ")" + rest), "()")
  {
    assert ("(" + (list + ")" + rest))[..2][1] == first;
  }

  lemma ReadTupleBody(body: string)
    requires body != "" && body[0] != ')'
    ensures Exactly(ReadTuple("(" + body)) == Exactly(ReadItems(body))
  {
    Expected("(", body);
    assert ("(" + body)[1] == body[0];
  }

  lemma ItemsStart(values: seq<Option<string>>)
    requires values != []
    ensures Items(values) != "" && Items(values)[0] != ')'
  {
    assert Items(values)[0] == Item(values[0])[0];
  }

  /** Reading the value list written for a row returns exactly that row, NULLs apart from
      strings, and stops exactly at its closing parenthesis. */
  lemma InsertValuesRoundTrip(values: seq<Option<string>>, rest: string)
    ensures ReadTuple(InsertValuesSql(values) + rest) == Some(Read(values, rest))
  {
    if values == [] {
      EmptyTupleReads(rest);
    } else {
      Regroup4("(", Items(values), ")", rest);
      ItemsStart(values);
      ReadTupleBody(Items(values) + ")" + rest);
      ItemsRead(values, rest);
    }
  }

  lemma EmptyTupleReads(rest: string)
    ensures ReadTuple(InsertValuesSql([]) + rest) == Some(Read([], rest))
  {
    assert InsertValuesSql([]) == "()";
    Expected("()", rest);
  }

  lemma SetItemReads(a: Assignment, rest: string)
    requires rest == "" || rest[0] != '\''
    ensures ReadSetItem(SetItem(a) + rest) == Some(Read(a, rest))
  {
    var right := Item(a.value) + rest;
    Regroup4(QuotedIdentifier(a.column), " = ", Item(a.value), rest);
    NameReadsBack(a.column, " = " + right);
    Expected(" = ", right);
    ItemReads(a.value, rest);
  }

  lemma NoComma(rest: string)
    requires rest != "" && rest[0] == ' '
    ensures !StartsWith(rest, ", ")
  {
    if |rest| >= 2 {
      assert rest[..2][0] == ' ';
    }
  }

  lemma LastSetReads(a: Assignment, rest: string)
    requires rest != "" && rest[0] == ' '
    ensures ReadSets(SetItem(a) + rest) == Some(Read([a], rest))
  {
    SetItemReads(a, rest);
    NoComma(rest);
  }

  lemma NextSetReads(a: Assignment, others: string)
    ensures ReadSetItem(SetItem(a) + (", " + others)) == Some(Read(a, ", " + others))
    ensures StartsWith(", " + others, ", ") && (", " + others)[2..] == others
  {
    SetItemReads(a, ", " + others);
  }

  lemma {:induction false} SetsRead(sets: seq<Assignment>, rest: string)
    requires sets != [] && rest != "" && rest[0] == ' '
    ensures ReadSets(SetItems(sets) + rest) == Some(Read(sets, rest))
    decreases |sets|
  {
    if |sets| == 1 {
      LastSetReads(sets[0], rest);
      assert [sets[0]] == sets;
    } else {
      var others := SetItems(sets[1..]) + rest;
      Regroup4(SetItem(sets[0]), ", ", SetItems(sets[1..]), rest);
      NextSetReads(sets[0], others);
      SetsRead(sets[1..], rest);
      assert [sets[0]] + sets[1..] == sets;
    }
  }

  lemma TableReads(t: Table, rest: string)
    requires rest == "" || rest[0] != '`'
    ensures ReadTable(TableSql(t) + rest) == Some(Read(t, rest))
  {
    var name := QuotedIdentifier(t.name) + rest;
    Regroup4(QuotedIdentifier(t.database), ".", QuotedIdentifier(t.name), rest);
    NameReadsBack(t.database, "." + name);
    Expected(".", name);
    NameReadsBack(t.name, rest);
  }

  lemma KeyClauseReads(key: string, value: Option<string>)
    ensures ReadKeyClause(KeyClause(key, value)) == Some(Assignment(key, value))
  {
    var a := Assignment(key, value);
    assert KeyClause(key, value) == " WHERE " + SetItem(a);
    Expected(" WHERE ", SetItem(a));
    assert SetItem(a) + "" == SetItem(a);
    SetItemReads(a, "");
  }

  lemma InsertBodyReads(t: Table, columns: seq<string>, values: seq<Option<string>>)
    ensures ReadInsert(TableSql(t) + (" " + ("(" + Names(columns) + ")" + (" VALUES " + InsertValuesSql(values)))))
         == Some(Insert(t, columns, values))
  {
    var tuple := InsertValuesSql(values);
    var list := "(" + Names(columns) + ")" + (" VALUES " + tuple);
    TableReads(t, " " + list);
    Expected(" ", list);
    ColumnsRoundTrip(columns, " VALUES " + tuple);
    Expected(" VALUES ", tuple);
    InsertValuesRoundTrip(values, "");
    assert tuple + "" == tuple;
  }

  /** The INSERT written for any row reads back as that row, whatever its names and bytes. */
  lemma InsertRoundTrip(t: Table, row: Row)
    ensures ReadStatement(InsertStatement(t, row)) == Some(Insert(t, row.columns, row.after))
  {
    var body := TableSql(t) + (" " + ("(" + Names(row.columns) + ")" + (" VALUES " + InsertValuesSql(row.after))));
    InsertShape(TableSql(t), Names(row.columns), InsertValuesSql(row.after));
    Expected("INSERT INTO ", body);
    InsertBodyReads(t, row.columns, row.after);
  }

  lemma UpdateBodyReads(t: Table, sets: seq<Assignment>, key: string, value: Option<string>)
    ensures ReadUpdate(TableSql(t) + (" SET " + (SetItems(sets) + KeyClause(key, value)))) ==
      if sets == [] then None else Some(Update(t, sets, key, value))
  {
    var where := KeyClause(key, value);
    TableReads(t, " SET " + (SetItems(sets) + where));
    Expected(" SET ", SetItems(sets) + where);
    if sets == [] {
      assert SetItems(sets) + where == where;
      assert where == " " + where[1..];
      OtherToken(" ", where[1..], "`");
    } else {
      SetsRead(sets, where);
      KeyClauseReads(key, value);
    }
  }

  /** The UPDATE written for a row reads back as the assignment of its non-key columns exactly
      when there are any; with none it is not a statement at all. */
  lemma UpdateRoundTrip(t: Table, row: Row, key: string)
    ensures var sets := NonKey(row.columns, row.after, key);
      ReadStatement(UpdateStatement(t, row, key)) ==
        if sets == [] then None else Some(Update(t, sets, key, row.pkValue))
  {
    var sets := NonKey(row.columns, row.after, key);
    var body := TableSql(t) + (" SET " + (SetItems(sets) + KeyClause(key, row.pkValue)));
    UpdateShape(TableSql(t), SetItems(sets), KeyClause(key, row.pkValue));
    Expected("UPDATE ", body);
    OtherToken("UPDATE ", body, "INSERT INTO ");
    UpdateBodyReads(t, sets, key, row.pkValue);
  }

  /** An UPDATE of a table whose one column is the key does not read as a statement. */
  lemma KeyOnlyUpdateIsLost(t: Table, value: string)
    ensures ReadStatement(UpdateStatement(t, Row(["id"], [Some(value)], "id", Some(value)), "id")) == None
  {
    var row := Row(["id"], [Some(value)], "id", Some(value));
    UpdateRoundTrip(t, row, "id");
    assert row.columns[1..] == [];
  }

  lemma DeleteBodyReads(t: Table, key: string, value: Option<string>)
    ensures ReadDelete(TableSql(t) + KeyClause(key, value)) == Some(Delete(t, key, value))
  {
    TableReads(t, KeyClause(key, value));
    KeyClauseReads(key, value);
  }

  lemma DeleteRoundTrip(t: Table, row: Row, key: string)
    ensures ReadStatement(DeleteStatement(t, row, key)) == Some(Delete(t, key, row.pkValue))
  {
    var body := TableSql(t) + KeyClause(key, row.pkValue);
    Regroup3("DELETE FROM ", TableSql(t), KeyClause(key, row.pkValue));
    Expected("DELETE FROM ", body);
    OtherToken("DELETE FROM ", body, "INSERT INTO ");
    OtherToken("DELETE FROM ", body, "UPDATE ");
    DeleteBodyReads(t, key, row.pkValue);
  }

  /** The assignments of an UPDATE are one for each column other than the key, in the columns'
      order, with the value at its place, or NULL where the row has none. */
  lemma {:induction false} NonKeyAssigns(columns: seq<string>, after: seq<Option<string>>, key: string, n: nat)
    requires n < |columns|
    ensures var sets, before := NonKey(columns, after, key), NonKey(columns[..n], after, key);
      var value := if n < |after| then after[n] else None;
      && before <= sets
      && (columns[n] != key ==> |before| < |sets| && sets[|before|] == Assignment(columns[n], value))
      && (n == |columns| - 1 ==> |sets| == |before| + if columns[n] == key then 0 else 1)
    decreases n
  {
    if n > 0 {
      var rest := if after == [] then [] else after[1..];
      NonKeyAssigns(columns[1..], rest, key, n - 1);
      assert columns[..n][1..] == columns[1..][..n - 1];
    }
  }
}
