/** The tables of the schema as the migration's DDL statements see them. */
module Catalogue {
  import opened Basics

  /** Where a table's rows come from; Foreign tables are not the migration's. */
  datatype Content = Original | Ghost | Changelog | Foreign

  type Tables = map<string, Content>

  /** A server with the tables of one database and the lock of the migration's session. */
  datatype Server = Server(tables: Tables, locked: bool)

  datatype Move = Move(from: string, to: string)

  datatype Ddl =
    | CreateLike(name: string, source: string)
    | CreateChangelog(name: string)
    | DropIfExists(name: string)
    | RenameTables(first: Move, second: Move)
    | LockTable(name: string)
    | UnlockTables

  function MoveTable(tables: Tables, m: Move): Option<Tables> {
    if m.from !in tables || m.to in tables then None
    else Some((tables - {m.from})[m.to := tables[m.from]])
  }

  /** The server after the statement, or None when it must refuse it.  RENAME TABLE makes its
      moves from left to right and takes effect only if both succeed. */
  function Execute(s: Server, d: Ddl): Option<Server> {
    match d
    case CreateLike(name, source) =>
      if name in s.tables || source !in s.tables then None else Some(s.(tables := s.tables[name := Ghost]))
    case CreateChangelog(name) =>
      if name in s.tables then None else Some(s.(tables := s.tables[name := Changelog]))
    case DropIfExists(name) => Some(s.(tables := s.tables - {name}))
    case RenameTables(first, second) =>
      var between :- MoveTable(s.tables, first);
      var tables :- MoveTable(between, second);
      Some(s.(tables := tables))
    case LockTable(name) => if name in s.tables then Some(s.(locked := true)) else None
    case UnlockTables => Some(s.(locked := false))
  }

  /** A statement is done and reported so, not done, or done but reported as failed. */
  datatype Outcome = Done | Refused | Lost

  predicate CanEnd(s: Server, d: Ddl, outcome: Outcome) {
    outcome.Refused? || Execute(s, d).Some?
  }

  function After(s: Server, d: Ddl, outcome: Outcome): Server
    requires CanEnd(s, d, outcome)
  {
    if outcome.Refused? then s else Execute(s, d).value
  }

  // ---- Names ----

  datatype Names = Names(original: string, ghost_: string, changelog: string) {

    function Old(): string {
      original + "_old"
    }

    /** No DROP of the ghost or the changelog can hit the original or the `_old` table. */
    predicate AreApart() {
      && original != ghost_ && original != changelog
      && Old() != ghost_ && Old() != changelog
    }

    predicate AreDistinct() {
      AreApart() && ghost_ != changelog
    }

    function CutOver(): Ddl {
      RenameTables(Move(original, Old()), Move(ghost_, original))
    }
  }

  /** The names used when the configuration leaves the ghost and changelog names empty. */
  function DefaultNames(table: string): (n: Names)
    ensures n.original == table
  {
    Names(table, "_gh_ost_" + table, "_gh_ost_" + table + "_changelog")
  }

  lemma DefaultNamesAreDistinct(table: string)
    ensures DefaultNames(table).AreDistinct()
    ensures DefaultNames("t") == Names("t", "_gh_ost_t", "_gh_ost_t_changelog") && DefaultNames("t").Old() == "t_old"
  {
    var n := DefaultNames(table);
    assert |n.Old()| == |table| + 4 && |n.ghost_| == |table| + 8 && |n.changelog| == |table| + 18;
  }

  /** The cut-over's RENAME goes through exactly when the original and the ghost exist and the
      `_old` name is free, and then gives the original's name to the ghost and keeps the
      original under the `_old` name. */
  lemma CutOverEffect(s: Server, n: Names)
    requires n.AreApart()
    ensures Execute(s, n.CutOver()).Some? <==>
      n.original in s.tables && n.ghost_ in s.tables && n.Old() !in s.tables
    ensures Execute(s, n.CutOver()).Some? ==>
      Execute(s, n.CutOver()).value.tables
        == (s.tables - {n.ghost_})[n.original := s.tables[n.ghost_]][n.Old() := s.tables[n.original]]
  {
    assert n.Old() != n.original by {
      assert |n.Old()| == |n.original| + 4;
    }
    if n.original in s.tables && n.Old() !in s.tables && n.ghost_ in s.tables {
      assert (s.tables - {n.original})[n.Old() := s.tables[n.original]]
        == MoveTable(s.tables, n.CutOver().first).value;
      assert Execute(s, n.CutOver()).value.tables
        == (s.tables - {n.ghost_})[n.original := s.tables[n.ghost_]][n.Old() := s.tables[n.original]];
    }
  }
}

/** The text of the DDL statements, and a reader for it. */
module DdlText {
  import opened Basics
  import opened Catalogue
  import opened RowSql
  import opened SqlText
  import opened Text

  function FullName(database: string, name: string): string {
    TableSql(Table(database, name))
  }

  function MoveSql(database: string, m: Move): string {
    FullName(database, m.from) + (" TO " + FullName(database, m.to))
  }

  const CHANGELOG_COLUMNS :=
    "id bigint auto_increment, hint varchar(64) not null, value varchar(255) not null, " +
    "ts timestamp not null default current_timestamp, primary key(id))"

  function DdlSql(database: string, d: Ddl): string {
    match d
    case CreateLike(name, source) =>
      "CREATE TABLE " + (FullName(database, name) + (" LIKE " + FullName(database, source)))
    case CreateChangelog(name) => "CREATE TABLE " + (FullName(database, name) + (" (" + CHANGELOG_COLUMNS))
    case DropIfExists(name) => "DROP TABLE IF EXISTS " + FullName(database, name)
    case RenameTables(first, second) =>
      "RENAME TABLE " + (MoveSql(database, first) + (", " + MoveSql(database, second)))
    case LockTable(name) => "LOCK TABLES " + (FullName(database, name) + " WRITE")
    case UnlockTables => "UNLOCK TABLES"
  }

  // ---- Reading ----

  /** A name in the given database. */
  function ReadNameIn(database: string, s: string): (r: Option<Read<string>>) {
    var table :- ReadTable(s);
    if table.value.database == database then Some(Read(table.value.name, table.rest)) else None
  }

  function ReadLastName(database: string, s: string): Option<string> {
    var name :- ReadNameIn(database, s);
    if name.rest == "" then Some(name.value) else None
  }

  function ReadCreate(database: string, s: string): Option<Ddl> {
    var name :- ReadNameIn(database, s);
    if StartsWith(name.rest, " LIKE ") then
      var source :- ReadLastName(database, name.rest[6..]);
      Some(CreateLike(name.value, source))
    else
      var columns :- Expect(name.rest, " (");
      if columns == CHANGELOG_COLUMNS then Some(CreateChangelog(name.value)) else None
  }

  function ReadMove(database: string, s: string): Option<Read<Move>> {
    var from :- ReadNameIn(database, s);
    var to_ :- Expect(from.rest, " TO ");
    var to :- ReadNameIn(database, to_);
    Some(Read(Move(from.value, to.value), to.rest))
  }

  function ReadRename(database: string, s: string): Option<Ddl> {
    var first :- ReadMove(database, s);
    var others :- Expect(first.rest, ", ");
    var second :- ReadMove(database, others);
    if second.rest == "" then Some(RenameTables(first.value, second.value)) else None
  }

  function ReadDdl(database: string, s: string): Option<Ddl> {
    if s == "UNLOCK TABLES" then Some(UnlockTables)
    else if StartsWith(s, "CREATE TABLE ") then ReadCreate(database, s[13..])
    else if StartsWith(s, "DROP TABLE IF EXISTS ") then
      var name :- ReadLastName(database, s[21..]);
      Some(DropIfExists(name))
    else if StartsWith(s, "RENAME TABLE ") then ReadRename(database, s[13..])
    else
      var rest :- Expect(s, "LOCK TABLES ");
      var name :- ReadNameIn(database, rest);
      if name.rest == " WRITE" then Some(LockTable(name.value)) else None
  }

  lemma NameReads(database: string, name: string, rest: string)
    requires rest == "" || rest[0] != '`'
    ensures ReadNameIn(database, FullName(database, name) + rest) == Some(Read(name, rest))
  {
    TableReads(Table(database, name), rest);
  }

  lemma LastNameReads(database: string, name: string)
    ensures ReadLastName(database, FullName(database, name)) == Some(name)
  {
    NameReads(database, name, "");
    assert FullName(database, name) + "" == FullName(database, name);
  }

  lemma MoveReads(database: string, m: Move, rest: string)
    requires rest == "" || rest[0] != '`'
    ensures ReadMove(database, MoveSql(database, m) + rest) == Some(Read(m, rest))
  {
    var to := FullName(database, m.to) + rest;
    Regroup4(FullName(database, m.from), " TO ", FullName(database, m.to), rest);
    Regroup3(FullName(database, m.from), " TO ", FullName(database, m.to));
    NameReads(database, m.from, " TO " + to);
    Expected(" TO ", to);
    NameReads(database, m.to, rest);
  }

  lemma LastMoveReads(database: string, m: Move)
    ensures ReadMove(database, MoveSql(database, m)) == Some(Read(m, ""))
  {
    MoveReads(database, m, "");
    assert MoveSql(database, m) + "" == MoveSql(database, m);
  }

  lemma NextMoveReads(database: string, m: Move, others: string)
    ensures ReadMove(database, MoveSql(database, m) + (", " + others)) == Some(Read(m, ", " + others))
    ensures Expect(", " + others, ", ") == Some(others) && ", " + others != ""
  {
    MoveReads(database, m, ", " + others);
    Expected(", ", others);
  }

  lemma RenameReads(database: string, first: Move, second: Move)
    ensures ReadRename(database, MoveSql(database, first) + (", " + MoveSql(database, second)))
         == Some(RenameTables(first, second))
  {
    NextMoveReads(database, first, MoveSql(database, second));
    LastMoveReads(database, second);
  }

  lemma CreateLikeReads(database: string, name: string, source: string)
    ensures ReadCreate(database, FullName(database, name) + (" LIKE " + FullName(database, source)))
         == Some(CreateLike(name, source))
  {
    var rest := FullName(database, source);
    NameReads(database, name, " LIKE " + rest);
    Expected(" LIKE ", rest);
    LastNameReads(database, source);
  }

  lemma CreateChangelogReads(database: string, name: string)
    ensures ReadCreate(database, FullName(database, name) + (" (" + CHANGELOG_COLUMNS)) == Some(CreateChangelog(name))
  {
    NameReads(database, name, " (" + CHANGELOG_COLUMNS);
    OtherSecond(CHANGELOG_COLUMNS);
    Expected(" (", CHANGELOG_COLUMNS);
  }

  lemma OtherSecond(columns: string)
    ensures !StartsWith(" (" + columns, " LIKE ")
  {
    var s := " (" + columns;
    if |s| >= 6 {
      assert s[..6][1] == '(';
    }
  }

  /** Whatever characters the names hold, the text of a statement says exactly that statement. */
  lemma DdlRoundTrip(database: string, d: Ddl)
    ensures ReadDdl(database, DdlSql(database, d)) == Some(d)
  {
    match d
    case CreateLike(name, source) =>
      Expected("CREATE TABLE ", FullName(database, name) + (" LIKE " + FullName(database, source)));
      CreateLikeReads(database, name, source);
    case CreateChangelog(name) =>
      Expected("CREATE TABLE ", FullName(database, name) + (" (" + CHANGELOG_COLUMNS));
      CreateChangelogReads(database, name);
    case DropIfExists(name) =>
      Expected("DROP TABLE IF EXISTS ", FullName(database, name));
      OtherToken("DROP TABLE IF EXISTS ", FullName(database, name), "CREATE TABLE ");
      LastNameReads(database, name);
    case RenameTables(first, second) =>
      var moves := MoveSql(database, first) + (", " + MoveSql(database, second));
      Expected("RENAME TABLE ", moves);
      OtherToken("RENAME TABLE ", moves, "CREATE TABLE ");
      OtherToken("RENAME TABLE ", moves, "DROP TABLE IF EXISTS ");
      RenameReads(database, first, second);
    case LockTable(name) =>
      var rest := FullName(database, name) + " WRITE";
      Expected("LOCK TABLES ", rest);
      OtherToken("LOCK TABLES ", rest, "CREATE TABLE ");
      OtherToken("LOCK TABLES ", rest, "DROP TABLE IF EXISTS ");
      OtherToken("LOCK TABLES ", rest, "RENAME TABLE ");
      NameReads(database, name, " WRITE");
    case UnlockTables =>
  }
}
