// Replaying a dump: src/db/mod.rs, the table list of src/backup_archive.rs and
// the foreign keys of migrations/.
module Restore {
  import opened Base
  import opened Text
  import opened Statements
  import opened Dump

  // Rows are JSON texts. `parents` are the tables a table's foreign keys point
  // to; `key` and `refs` read a row's primary key and what it points at.
  // `parse` is the database's reading of a JSON array.
  datatype Schema = Schema(
    parents: string -> set<string>, key: (string, string) -> string, refs: (string, string) -> set<(string, string)>,
    parse: string -> Option<seq<string>>)

  type Database = map<string, seq<string>>

  datatype Statement = TruncateAll | InsertRows(table: string, rows: seq<string>)

  // --------------------------------------------------------------------------
  // Running statements
  // --------------------------------------------------------------------------

  function MeaningOfInsert(line: string, tables: seq<string>, schema: Schema): Option<Statement> {
    if tables == [] then None
    else
      var head := InsertHead(tables[0]) + "'";
      if head <= line then LiteralMeans(tables[0], line[|head|..], schema) else MeaningOfInsert(line, tables[1..], schema)
  }

  // What follows the opening quote of an insert.
  function LiteralMeans(table: string, s: string, schema: Schema): Option<Statement> {
    match ReadLiteral(s)
    case None => None
    case Some((text, rest)) =>
      var rows := schema.parse(text);
      if rest == INSERT_TAIL && rows.Some? then Some(InsertRows(table, rows.value)) else None
  }

  // The statements a dump consists of; anything else is an error here.
  function Meaning(line: string, tables: seq<string>, schema: Schema): Option<Statement> {
    if line == Truncate(tables) then Some(TruncateAll) else MeaningOfInsert(line, tables, schema)
  }

  predicate Emptied(table: string, tables: seq<string>, schema: Schema) {
    table in tables || exists p | p in schema.parents(table) :: p in tables
  }

  // TRUNCATE ... CASCADE also empties the tables that point at those named.
  function Truncated(db: Database, tables: seq<string>, schema: Schema): Database {
    map t | t in db :: if Emptied(t, tables, schema) then [] else db[t]
  }

  predicate HasKey(db: Database, schema: Schema, table: string, key: string) {
    table in db && exists r | r in db[table] :: schema.key(table, r) == key
  }

  predicate RefsHold(db: Database, schema: Schema, table: string, row: string) {
    forall ref | ref in schema.refs(table, row) :: HasKey(db, schema, ref.0, ref.1)
  }

  predicate KeysDiffer(schema: Schema, table: string, rows: seq<string>) {
    forall i, j | 0 <= i < j < |rows| :: schema.key(table, rows[i]) != schema.key(table, rows[j])
  }

  // Constraints are checked when the statement ends; a violation fails it.
  function Inserted(db: Database, schema: Schema, table: string, rows: seq<string>): Option<Database> {
    if table !in db then None
    else
      var next := db[table := db[table] + rows];
      if KeysDiffer(schema, table, next[table]) && forall r | r in rows :: RefsHold(next, schema, table, r) then Some(next) else None
  }

  function Run(db: Database, statement: Statement, tables: seq<string>, schema: Schema): Option<Database> {
    match statement
    case TruncateAll => Some(Truncated(db, tables, schema))
    case InsertRows(table, rows) => Inserted(db, schema, table, rows)
  }

  function RunCode(db: Database, code: seq<string>, tables: seq<string>, schema: Schema): Option<Database> {
    if |code| != 1 then None
    else
      match Meaning(code[0], tables, schema)
      case None => None
      case Some(statement) => Run(db, statement, tables, schema)
  }

  function RunAll(db: Database, codes: seq<seq<string>>, tables: seq<string>, schema: Schema): Option<Database> {
    if codes == [] then Some(db)
    else
      match RunCode(db, codes[0], tables, schema)
      case None => None
      case Some(next) => RunAll(next, codes[1..], tables, schema)
  }

  // None when the transaction is rolled back.
  function Replayed(db: Database, sql: string, tables: seq<string>, schema: Schema): Option<Database> {
    RunAll(db, CodeOfAll(Split(sql)), tables, schema)
  }

  class Server {
    var db: Database

    method RestoreSql(sql: string, tables: seq<string>, schema: Schema) returns (ok: bool)
      modifies this
      ensures var r := Replayed(old(db), sql, tables, schema);
              (ok <==> r.Some?) && db == if r.Some? then r.value else old(db)
    {
      var tx := db;
      var statements := SplitStatements(sql);
      assert statements[0..] == statements;
      for i := 0 to |statements|
        invariant db == old(db)
        invariant Replayed(db, sql, tables, schema) == RunAll(tx, CodeOfAll(statements[i..]), tables, schema)
      {
        CodeStep(tx, statements, i, tables, schema);
        var code := Code(statements[i]);
        if code != [] {
          var next := RunCode(tx, code, tables, schema);
          if next.None? {
            return false;
          }
          tx := next.value;
        }
      }
      db := tx;
      ok := true;
    }
  }

  lemma OneMoreCode(code: seq<string>, codes: seq<seq<string>>)
    ensures ([code] + codes)[0] == code && ([code] + codes)[1..] == codes
  {
  }

  lemma CodeStep(db: Database, statements: seq<string>, i: nat, tables: seq<string>, schema: Schema)
    requires i < |statements|
    ensures var code := Code(statements[i]);
            RunAll(db, CodeOfAll(statements[i..]), tables, schema) ==
            if code == [] then RunAll(db, CodeOfAll(statements[i + 1..]), tables, schema)
            else
              match RunCode(db, code, tables, schema)
              case None => None
              case Some(next) => RunAll(next, CodeOfAll(statements[i + 1..]), tables, schema)
  {
    var code, rest := Code(statements[i]), CodeOfAll(statements[i + 1..]);
    assert statements[i..][0] == statements[i] && statements[i..][1..] == statements[i + 1..];
    if code == [] {
      assert [] + rest == rest;
    } else {
      OneMoreCode(code, rest);
    }
  }

  // --------------------------------------------------------------------------
  // Reading the inserts back
  // --------------------------------------------------------------------------

  lemma QuotedNameIsFixed(open: string, a: string, x: string, b: string, y: string)
    requires '"' !in a && '"' !in b && open + a + "\"" + x <= open + b + "\"" + y
    ensures a == b
  {
    var s, t := open + a + "\"" + x, open + b + "\"" + y;
    var n := |open|;
    assert forall k | 0 <= k < |s| :: s[k] == t[k];
    assert s[n + |a|] == '"' && t[n + |b|] == '"';
    assert forall i | 0 <= i < |a| :: a[i] in a && s[n + i] == a[i];
    assert forall i | 0 <= i < |b| :: b[i] in b && t[n + i] == b[i];
    assert |b| <= |a|;
    assert |a| <= |b|;
    assert a == s[n..n + |a|] && b == t[n..n + |b|];
  }

  lemma HeadParts(table: string, rest: string)
    requires Simple(table)
    ensures exists x :: InsertHead(table) + rest == "INSERT INTO \"" + table + "\"" + x
  {
    IdentIsTame(table);
    var x := " SELECT * FROM " + "jsonb_populate_recordset" + "(null::" + table + ", " + rest;
    HeadRegroup("INSERT INTO ", "\"", table, " SELECT * FROM ", "jsonb_populate_recordset", "(null::", ", ", rest);
    assert "INSERT INTO " + "\"" == "INSERT INTO \"";
    assert InsertHead(table) + rest == "INSERT INTO \"" + table + "\"" + x;
  }

  lemma HeadRegroup(a: string, q: string, t: string, b: string, c: string, d: string, e: string, rest: string)
    ensures a + (q + t + q) + b + c + d + t + e + rest == (a + q) + t + q + (b + c + d + t + e + rest)
  {
  }

  lemma HeadsAreFixed(a: string, b: string, rest: string)
    requires Simple(a) && Simple(b) && InsertHead(a) + "'" <= InsertHead(b) + rest
    ensures a == b
  {
    HeadParts(a, "'");
    HeadParts(b, rest);
    var x :| InsertHead(a) + "'" == "INSERT INTO \"" + a + "\"" + x;
    var y :| InsertHead(b) + rest == "INSERT INTO \"" + b + "\"" + y;
    QuotedNameIsFixed("INSERT INTO \"", a, x, b, y);
  }

  lemma InsertParts(table: string, rows: seq<string>)
    ensures var head := InsertHead(table) + "'";
            var line := Insert(table, rows);
            head <= line && line[|head|..] == Array(rows) + "'" + INSERT_TAIL
    ensures Insert(table, rows) == InsertHead(table) + ("'" + Array(rows) + "'" + INSERT_TAIL)
  {
    PartsRegroup(InsertHead(table), "'", Array(rows), INSERT_TAIL);
  }

  lemma PartsRegroup(head: string, q: string, text: string, tail: string)
    ensures var line := head + (q + text + q) + tail;
            && head + q <= line && line[|head + q|..] == text + q + tail
            && line == head + (q + text + q + tail)
  {
    var line := head + (q + text + q) + tail;
    assert line == (head + q) + (text + q + tail);
  }

  // Read by its first words, an insert is an insert into its own table.
  lemma {:induction false} InsertIsReadAs(table: string, rows: seq<string>, tables: seq<string>, schema: Schema)
    requires table in tables && forall t | t in tables :: Simple(t)
    ensures MeaningOfInsert(Insert(table, rows), tables, schema) == LiteralMeans(table, Array(rows) + "'" + INSERT_TAIL, schema)
  {
    var first := tables[0];
    assert first in tables;
    InsertParts(table, rows);
    if first != table {
      if InsertHead(first) + "'" <= Insert(table, rows) {
        HeadsAreFixed(first, table, "'" + Array(rows) + "'" + INSERT_TAIL);
      }
      assert table in tables[1..];
      assert forall t | t in tables[1..] :: t in tables;
      InsertIsReadAs(table, rows, tables[1..], schema);
    }
  }

  // Parsing an array makes up no apostrophe and loses none.
  ghost predicate KeepsQuotes(schema: Schema) {
    forall text | schema.parse(text).Some? :: Quotes(text) == QuotesIn(schema.parse(text).value)
  }

  // How many quotes an insert of these rows into this table must contain.
  lemma {:induction false} InsertQuotes(line: string, tables: seq<string>, schema: Schema)
    requires KeepsQuotes(schema) && forall t | t in tables :: Simple(t)
    ensures var m := MeaningOfInsert(line, tables, schema);
            m.Some? ==> m.value.InsertRows? && m.value.table in tables && Quotes(line) == 2 + 2 * QuotesIn(m.value.rows)
  {
    if tables != [] {
      var head := InsertHead(tables[0]) + "'";
      assert tables[0] in tables;
      assert forall t | t in tables[1..] :: t in tables;
      if head <= line {
        LiteralMeansQuotes(tables[0], line[|head|..], schema);
        HeadQuotes(tables[0]);
        QuotesBehind(head, line);
      } else {
        InsertQuotes(line, tables[1..], schema);
      }
    }
  }

  lemma QuotesBehind(head: string, line: string)
    requires head <= line
    ensures Quotes(line) == Quotes(head) + Quotes(line[|head|..])
  {
    assert line == head + line[|head|..];
    QuotesAdd(head, line[|head|..]);
  }

  lemma LiteralMeansQuotes(table: string, s: string, schema: Schema)
    requires KeepsQuotes(schema) && Simple(table)
    ensures var m := LiteralMeans(table, s, schema);
            m.Some? ==> m.value.InsertRows? && m.value.table == table && Quotes(s) == 1 + 2 * QuotesIn(m.value.rows)
  {
    LiteralQuotes(s);
    HeadQuotes(table);
  }

  lemma HeadQuotes(table: string)
    requires Simple(table)
    ensures Quotes(InsertHead(table) + "'") == 1 && Quotes(INSERT_TAIL) == 0
  {
    InsertHeadIsTame(table);
    TameInsertWords();
    NoQuotes(InsertHead(table));
    NoQuotes(INSERT_TAIL);
    QuotesAdd(InsertHead(table), "'");
    assert "'"[1..] == "";
  }

  // Every quote of a literal's text was written as two.
  lemma {:induction false} LiteralQuotes(x: string)
    ensures ReadLiteral(x).Some? ==> Quotes(x) == 2 * Quotes(ReadLiteral(x).value.0) + 1 + Quotes(ReadLiteral(x).value.1)
    decreases |x|
  {
    if x != "" && !(x[0] == '\'' && !(|x| > 1 && x[1] == '\'')) {
      var rest := if x[0] == '\'' then x[2..] else x[1..];
      LiteralQuotes(rest);
      if ReadLiteral(rest).Some? {
        assert ([x[0]] + ReadLiteral(rest).value.0)[1..] == ReadLiteral(rest).value.0;
      }
      assert x[0] == '\'' ==> x[1..][0] == '\'' && x[1..][1..] == x[2..];
    }
  }

  // An insert of a dump means exactly that insert if and only if its rows
  // contain no apostrophe.
  lemma InsertMeansItself(table: string, rows: seq<string>, tables: seq<string>, schema: Schema)
    requires table in tables && (forall t | t in tables :: Simple(t)) && KeepsQuotes(schema)
    requires schema.parse(Array(rows)) == Some(rows)
    ensures MeaningOfInsert(Insert(table, rows), tables, schema) == Some(InsertRows(table, rows)) <==>
            forall r | r in rows :: '\'' !in r
  {
    QuotesInArray(rows);
    NoQuotesInRows(rows);
    if forall r | r in rows :: '\'' !in r {
      QuotelessInsertMeansItself(table, rows, tables, schema);
    }
    InsertQuotes(Insert(table, rows), tables, schema);
    InsertHeadIsTame(table);
    NoQuotes(InsertHead(table));
    HeadQuotes(table);
    QuotesInside(InsertHead(table), Array(rows), INSERT_TAIL);
  }

  lemma QuotelessInsertMeansItself(table: string, rows: seq<string>, tables: seq<string>, schema: Schema)
    requires table in tables && forall t | t in tables :: Simple(t)
    requires (forall r | r in rows :: '\'' !in r) && schema.parse(Array(rows)) == Some(rows)
    ensures MeaningOfInsert(Insert(table, rows), tables, schema) == Some(InsertRows(table, rows))
  {
    InsertIsReadAs(table, rows, tables, schema);
    QuotesInArray(rows);
    NoQuotesInRows(rows);
    NoQuotes(Array(rows));
    LiteralReadsBack(Array(rows), INSERT_TAIL);
  }

  lemma DumpLinesMean(tables: seq<string>, schema: Schema, table: string, rows: seq<string>)
    requires table in tables && forall t | t in tables :: Simple(t)
    requires (forall r | r in rows :: '\'' !in r) && schema.parse(Array(rows)) == Some(rows)
    ensures Meaning(Truncate(tables), tables, schema) == Some(TruncateAll)
    ensures Meaning(Insert(table, rows), tables, schema) == Some(InsertRows(table, rows))
  {
    QuotelessInsertMeansItself(table, rows, tables, schema);
    InsertHeadIsTame(table);
    InsertParts(table, rows);
    DifferentStart(Truncate(tables), InsertHead(table), "'" + Array(rows) + "'" + INSERT_TAIL);
  }

  lemma DifferentStart(a: string, b: string, rest: string)
    requires a != "" && b != "" && a[0] == 'T' && b[0] == 'I'
    ensures a != b + rest
  {
  }

  // --------------------------------------------------------------------------
  // The dump restores the database
  // --------------------------------------------------------------------------

  ghost predicate NoApostrophes(s: Source) {
    forall t, r | t in s.tables && r in s.rows(t) :: '\'' !in r
  }

  // Every table is listed after the tables it points at.
  ghost predicate ParentsFirst(tables: seq<string>, schema: Schema) {
    && (forall i, j | 0 <= i < j < |tables| :: tables[i] != tables[j])
    && (forall i | 0 <= i < |tables| :: schema.parents(tables[i]) <= set t | t in tables[..i])
  }

  // The listed tables as they stood: keys unique, references inside the dump.
  ghost predicate ConsistentRows(s: Source, schema: Schema) {
    forall t | t in s.tables ::
      && KeysDiffer(schema, t, s.rows(t))
      && schema.parse(Array(s.rows(t))) == Some(s.rows(t))
      && forall r | r in s.rows(t) :: forall ref | ref in schema.refs(t, r) ::
           ref.0 in schema.parents(t) && exists q | q in s.rows(ref.0) :: schema.key(ref.0, q) == ref.1
  }

  // The listed tables up to `done` are back, the rest of them are empty.
  ghost predicate Halfway(db: Database, s: Source, done: nat)
    requires done <= |s.tables|
  {
    forall i | 0 <= i < |s.tables| ::
      s.tables[i] in db && db[s.tables[i]] == if i < done then s.rows(s.tables[i]) else []
  }

  lemma InsertedFits(db: Database, s: Source, schema: Schema, i: nat)
    requires i < |s.tables| && Halfway(db, s, i) && ParentsFirst(s.tables, schema) && ConsistentRows(s, schema)
    ensures var t := s.tables[i]; Inserted(db, schema, t, s.rows(t)) == Some(db[t := s.rows(t)])
  {
    var t := s.tables[i];
    var rows := s.rows(t);
    assert t in s.tables;
    assert db[t] + rows == rows;
    var next := db[t := rows];
    forall r | r in rows ensures RefsHold(next, schema, t, r) {
      forall ref | ref in schema.refs(t, r) ensures HasKey(next, schema, ref.0, ref.1) {
        assert ref.0 in set u | u in s.tables[..i];
        var k :| 0 <= k < i && s.tables[k] == ref.0;
        assert next[ref.0] == s.rows(ref.0);
      }
    }
  }

  // What putting back table `i` does.
  lemma OneTableBack(db: Database, s: Source, schema: Schema, i: nat) returns (next: Database)
    requires i < |s.tables| && Halfway(db, s, i) && ParentsFirst(s.tables, schema) && ConsistentRows(s, schema) && Dumpable(s) && NoApostrophes(s)
    ensures RunAll(db, Singles(Inserts(s.tables[i..], s.rows)), s.tables, schema) ==
            RunAll(next, Singles(Inserts(s.tables[i + 1..], s.rows)), s.tables, schema)
    ensures next == db[s.tables[i] := s.rows(s.tables[i])]
  {
    var t := s.tables[i];
    var rows := s.rows(t);
    assert t in s.tables;
    assert s.tables[i..][0] == t && s.tables[i..][1..] == s.tables[i + 1..];
    InsertsOfFirst(s.tables[i..], s.rows);
    next := db[t := rows];
    if rows == [] {
      assert next == db;
    } else {
      InsertedFits(db, s, schema, i);
      DumpLinesMean(s.tables, schema, t, rows);
      RunsFirst(db, Insert(t, rows), Inserts(s.tables[i + 1..], s.rows), s.tables, schema);
    }
  }

  lemma {:induction false} InsertsRestore(db: Database, s: Source, schema: Schema, i: nat)
    requires i <= |s.tables| && Halfway(db, s, i) && ParentsFirst(s.tables, schema) && ConsistentRows(s, schema) && Dumpable(s) && NoApostrophes(s)
    ensures var r := RunAll(db, Singles(Inserts(s.tables[i..], s.rows)), s.tables, schema);
            && r.Some? && Halfway(r.value, s, |s.tables|)
            && r.value.Keys == db.Keys
            && forall t | t in db && t !in s.tables :: r.value[t] == db[t]
    decreases |s.tables| - i
  {
    if i < |s.tables| {
      var next := OneTableBack(db, s, schema, i);
      StillHalfway(db, s, schema, i);
      InsertsRestore(next, s, schema, i + 1);
      assert s.tables[i] in s.tables;
    } else {
      assert s.tables[i..] == [];
    }
  }

  lemma StillHalfway(db: Database, s: Source, schema: Schema, i: nat)
    requires i < |s.tables| && Halfway(db, s, i) && ParentsFirst(s.tables, schema)
    ensures var next := db[s.tables[i] := s.rows(s.tables[i])];
            Halfway(next, s, i + 1) && next.Keys == db.Keys
  {
  }

  lemma RunsFirst(db: Database, line: string, lines: seq<string>, tables: seq<string>, schema: Schema)
    ensures RunAll(db, Singles([line] + lines), tables, schema) ==
            var r := RunCode(db, [line], tables, schema);
            if r.None? then None else RunAll(r.value, Singles(lines), tables, schema)
  {
    SinglesCons(line, lines);
    OneMoreCode([line], Singles(lines));
  }

  // Over any database, restoring a dump brings every listed table back exactly
  // as dumped, without a reference ever dangling on the way. Other tables keep
  // their rows unless they point at a listed one; those end up empty.
  lemma DumpRestores(db: Database, s: Source, schema: Schema)
    requires Dumpable(s) && NoApostrophes(s) && ParentsFirst(s.tables, schema) && ConsistentRows(s, schema) && s.tables != []
    requires forall t | t in s.tables :: t in db
    ensures var r := Replayed(db, DumpText(s), s.tables, schema);
            && r.Some? && r.value.Keys == db.Keys
            && (forall t | t in s.tables :: r.value[t] == s.rows(t))
            && (forall t | t in db && t !in s.tables ::
                  r.value[t] == if exists p | p in schema.parents(t) :: p in s.tables then [] else db[t])
  {
    var empty := Truncated(db, s.tables, schema);
    DumpRunsAfterTruncation(db, s, schema);
    assert s.tables[0..] == s.tables;
    TruncatedIsEmpty(db, s, schema);
    InsertsRestore(empty, s, schema, 0);
    AllBack(Replayed(db, DumpText(s), s.tables, schema).value, s);
  }

  lemma QuotelessInsertsAreWhole(s: Source)
    requires Dumpable(s) && NoApostrophes(s)
    ensures InsertsAreWhole(s.tables, s.rows)
  {
    forall t | t in s.tables && s.rows(t) != [] ensures Whole(Insert(t, s.rows(t))) {
      QuotelessRowsRun(t, s.rows(t));
    }
  }

  lemma DumpRunsAfterTruncation(db: Database, s: Source, schema: Schema)
    requires Dumpable(s) && NoApostrophes(s) && ConsistentRows(s, schema) && s.tables != []
    ensures Replayed(db, DumpText(s), s.tables, schema) ==
            RunAll(Truncated(db, s.tables, schema), Singles(Inserts(s.tables, s.rows)), s.tables, schema)
  {
    var t0 := s.tables[0];
    QuotelessInsertsAreWhole(s);
    DumpSplitsBack(s);
    DumpLinesMean(s.tables, schema, t0, s.rows(t0));
    RunsFirst(db, Truncate(s.tables), Inserts(s.tables, s.rows), s.tables, schema);
  }

  lemma TruncatedIsEmpty(db: Database, s: Source, schema: Schema)
    requires forall t | t in s.tables :: t in db
    ensures var empty := Truncated(db, s.tables, schema); Halfway(empty, s, 0) && empty.Keys == db.Keys
  {
    assert forall i | 0 <= i < |s.tables| :: s.tables[i] in s.tables;
  }

  lemma AllBack(db: Database, s: Source)
    requires Halfway(db, s, |s.tables|)
    ensures forall t | t in s.tables :: t in db && db[t] == s.rows(t)
  {
    forall t | t in s.tables ensures t in db && db[t] == s.rows(t) {
      var i :| 0 <= i < |s.tables| && s.tables[i] == t;
    }
  }

  // Apostrophes in the rows are not doubled. The statement of a table is cut
  // off at its own semicolon exactly when their number is even; otherwise it
  // runs on into the next one.
  lemma OddApostrophesRunOn(table: string, rows: seq<string>, rest: string)
    requires Simple(table)
    ensures var insert := Insert(table, rows);
            |insert| in Separators(Cut(insert + ";" + rest, false), 0) <==> Quotes(Array(rows)) % 2 == 0
  {
    InsertHeadIsTame(table);
    TameInsertWords();
    NoQuotes(InsertHead(table));
    NoQuotes(INSERT_TAIL);
    QuotesInside(InsertHead(table), Array(rows), INSERT_TAIL);
    CutAfter(Insert(table, rows), rest);
  }

  lemma CutAfter(insert: string, rest: string)
    ensures |insert| in Separators(Cut(insert + ";" + rest, false), 0) <==> Quotes(insert) % 2 == 0
  {
    var sql := insert + ";" + rest;
    CutsAtEvenQuotes(sql, false, |insert|);
    assert sql[..|insert|] == insert && sql[|insert|] == ';';
  }

  lemma QuotesInside(head: string, text: string, tail: string)
    ensures Quotes(head + ("'" + text + "'") + tail) == Quotes(head) + Quotes(text) + Quotes(tail) + 2
  {
    assert Quotes("'") == 1 by {
      assert "'"[1..] == "";
    }
    QuotesAdd("'", text);
    QuotesAdd("'" + text, "'");
    QuotesAdd(head, "'" + text + "'");
    QuotesAdd(head + ("'" + text + "'"), tail);
  }

  // --------------------------------------------------------------------------
  // Apostrophes
  // --------------------------------------------------------------------------

  // What a table's rows cost to write: two quotes for each apostrophe if they
  // are to be read back, and two around them.
  function Cost(rows: seq<string>): nat {
    2 * QuotesIn(rows) + if rows == [] then 0 else 2
  }

  function CostOf(db: Database, tables: seq<string>): nat {
    if tables == [] then 0 else Cost(if tables[0] in db then db[tables[0]] else []) + CostOf(db, tables[1..])
  }

  function SumQuotes(ls: seq<string>): nat {
    if ls == [] then 0 else Quotes(ls[0]) + SumQuotes(ls[1..])
  }

  function SumAll(codes: seq<seq<string>>): nat {
    if codes == [] then 0 else SumQuotes(codes[0]) + SumAll(codes[1..])
  }

  lemma {:induction false} SumConcat(a: seq<string>, b: seq<string>)
    ensures SumQuotes(a + b) == SumQuotes(a) + SumQuotes(b)
  {
    if a == [] {
      assert a + b == b;
    } else {
      assert (a + b)[1..] == a[1..] + b;
      SumConcat(a[1..], b);
    }
  }

  lemma {:induction false} QuotesInConcat(a: seq<string>, b: seq<string>)
    ensures QuotesIn(a + b) == QuotesIn(a) + QuotesIn(b)
  {
    if a == [] {
      assert a + b == b;
    } else {
      assert (a + b)[1..] == a[1..] + b;
      QuotesInConcat(a[1..], b);
    }
  }

  // Executed statements pay for what they leave in the tables.
  lemma {:induction false} CostOfOthers(db: Database, tables: seq<string>, t: string, rows: seq<string>)
    requires t !in tables
    ensures CostOf(db[t := rows], tables) == CostOf(db, tables)
  {
    if tables != [] {
      assert tables[0] in tables && forall u | u in tables[1..] :: u in tables;
      CostOfOthers(db, tables[1..], t, rows);
    }
  }

  lemma {:induction false} InsertCosts(db: Database, tables: seq<string>, t: string, rows: seq<string>)
    requires t in db && forall i, j | 0 <= i < j < |tables| :: tables[i] != tables[j]
    ensures CostOf(db[t := db[t] + rows], tables) <= CostOf(db, tables) + 2 + 2 * QuotesIn(rows)
  {
    if tables != [] {
      if tables[0] == t {
        assert forall u | u in tables[1..] :: u != t;
        CostOfOthers(db, tables[1..], t, db[t] + rows);
        QuotesInConcat(db[t], rows);
      } else {
        InsertCosts(db, tables[1..], t, rows);
      }
    }
  }

  lemma {:induction false} TruncationIsFree(db: Database, tables: seq<string>, listed: seq<string>, schema: Schema)
    ensures CostOf(Truncated(db, listed, schema), tables) <= CostOf(db, tables)
    ensures (forall t | t in tables :: t in listed) ==> CostOf(Truncated(db, listed, schema), tables) == 0
  {
    if tables != [] {
      assert tables[0] in tables && forall u | u in tables[1..] :: u in tables;
      TruncationIsFree(db, tables[1..], listed, schema);
    }
  }

  lemma CodeCosts(db: Database, code: seq<string>, tables: seq<string>, schema: Schema)
    requires KeepsQuotes(schema) && (forall t | t in tables :: Simple(t)) && forall i, j | 0 <= i < j < |tables| :: tables[i] != tables[j]
    ensures var r := RunCode(db, code, tables, schema);
            r.Some? ==> CostOf(r.value, tables) <= CostOf(db, tables) + SumQuotes(code)
  {
    if RunCode(db, code, tables, schema).Some? {
      var line := code[0];
      assert code[1..] == [];
      InsertQuotes(line, tables, schema);
      TruncationIsFree(db, tables, tables, schema);
      if m :| MeaningOfInsert(line, tables, schema) == Some(m) && line != Truncate(tables) && m.table in db {
        InsertCosts(db, tables, m.table, m.rows);
      }
    }
  }

  lemma {:induction false} CodesCost(db: Database, codes: seq<seq<string>>, tables: seq<string>, schema: Schema)
    requires KeepsQuotes(schema) && (forall t | t in tables :: Simple(t)) && forall i, j | 0 <= i < j < |tables| :: tables[i] != tables[j]
    ensures var r := RunAll(db, codes, tables, schema);
            r.Some? ==> CostOf(r.value, tables) <= CostOf(db, tables) + SumAll(codes)
  {
    if codes != [] {
      CodeCosts(db, codes[0], tables, schema);
      var next := RunCode(db, codes[0], tables, schema);
      if next.Some? {
        CodesCost(next.value, codes[1..], tables, schema);
      }
    }
  }

  // Splitting, trimming and dropping comments make up no quotes.

  lemma {:induction false} StripsNoQuotes(s: string, p: char -> bool)
    ensures Quotes(StripLeft(s, p)) <= Quotes(s)
  {
    if s != "" && p(s[0]) {
      StripsNoQuotes(s[1..], p);
    }
  }

  lemma StripRightQuotes(s: string, p: char -> bool)
    ensures Quotes(StripRight(s, p)) <= Quotes(s)
  {
    StripRightSplits(s, p);
    var t := StripRight(s, p);
    QuotesAdd(t, s[|t|..]);
  }

  lemma TrimQuotes(s: string)
    ensures Quotes(Trim(s)) <= Quotes(s)
  {
    StripsNoQuotes(s, IsWhitespace);
    StripRightQuotes(StripLeft(s, IsWhitespace), IsWhitespace);
  }

  lemma {:induction false} CodeInQuotes(ls: seq<string>)
    ensures SumQuotes(CodeIn(ls)) <= SumQuotes(ls)
  {
    if ls != [] {
      CodeInQuotes(ls[1..]);
      TrimQuotes(ls[0]);
      SumConcat(CodeOf(ls[0]), CodeIn(ls[1..]));
      OneSum(Trim(ls[0]));
    }
  }

  lemma OneSum(l: string)
    ensures SumQuotes([l]) == Quotes(l) && SumQuotes([]) == 0
  {
    assert [l][1..] == [];
  }

  lemma {:induction false} PiecesQuotes(s: string)
    ensures SumQuotes(Pieces(s, '\n')) == Quotes(s)
  {
    if s != "" {
      PiecesQuotes(s[1..]);
      var rest := Pieces(s[1..], '\n');
      if s[0] == '\n' {
        assert ([""] + rest)[1..] == rest;
      } else {
        assert ([[s[0]] + rest[0]] + rest[1..])[1..] == rest[1..];
        assert ([s[0]] + rest[0])[1..] == rest[0];
      }
    }
  }

  lemma CodeQuotes(s: string)
    ensures SumQuotes(Code(s)) <= Quotes(s)
  {
    PiecesQuotes(s);
    CodeInQuotes(Pieces(s, '\n'));
  }

  lemma {:induction false} AllCodeQuotes(statements: seq<string>)
    ensures SumAll(CodeOfAll(statements)) <= SumQuotes(statements)
  {
    if statements != [] {
      AllCodeQuotes(statements[1..]);
      CodeQuotes(statements[0]);
      var code, rest := Code(statements[0]), CodeOfAll(statements[1..]);
      if code == [] {
        assert [] + rest == rest;
      } else {
        OneMoreCode(code, rest);
      }
    }
  }

  lemma {:induction false} TrimmedQuotes(pieces: seq<string>)
    ensures SumQuotes(Trimmed(pieces)) <= SumQuotes(pieces)
  {
    if pieces != [] {
      TrimmedQuotes(pieces[1..]);
      TrimQuotes(pieces[0]);
      SumConcat(Kept(pieces[0]), Trimmed(pieces[1..]));
      OneSum(Trim(pieces[0]));
    }
  }

  lemma {:induction false} CutQuotes(s: string, quoted: bool)
    ensures SumQuotes(Cut(s, quoted)) == Quotes(s)
  {
    if s != "" {
      CutQuotes(s[1..], Flip(quoted, s[0]));
      var rest := Cut(s[1..], Flip(quoted, s[0]));
      if s[0] == ';' && !quoted {
        assert ([""] + rest)[1..] == rest;
      } else {
        assert Onto([s[0]], rest)[1..] == rest[1..];
        assert ([s[0]] + rest[0])[1..] == rest[0];
      }
    }
  }

  // What the dump spends: one quote for each apostrophe, two around the rows.
  function Spent(tables: seq<string>, rows: string -> seq<string>): nat {
    if tables == [] then 0
    else QuotesIn(rows(tables[0])) + (if rows(tables[0]) == [] then 0 else 2) + Spent(tables[1..], rows)
  }

  lemma TableQuotes(table: string, rows: seq<string>)
    requires Simple(table)
    ensures Quotes(TableText(table, rows)) == QuotesIn(rows) + if rows == [] then 0 else 2
  {
    var comment := "\n" + Counted(table, |rows|) + "\n";
    CountedIsComment(table, |rows|);
    NoQuotes(comment);
    QuotesAdd(comment, "");
    if rows != [] {
      InsertHeadIsTame(table);
      NoQuotes(InsertHead(table));
      HeadQuotes(table);
      QuotesInArray(rows);
      QuotesInside(InsertHead(table), Array(rows), INSERT_TAIL);
      QuotesAdd(Insert(table, rows), ";");
      QuotesAdd(Insert(table, rows) + ";", "\n");
      QuotesAdd(comment, Insert(table, rows) + ";" + "\n");
      NoQuotes(";");
      NoQuotes("\n");
    }
  }

  lemma {:induction false} TextsQuotes(tables: seq<string>, rows: string -> seq<string>)
    requires forall t | t in tables :: Simple(t)
    ensures Quotes(TableTexts(tables, rows)) == Spent(tables, rows)
  {
    if tables != [] {
      assert tables[0] in tables && forall u | u in tables[1..] :: u in tables;
      TextsQuotes(tables[1..], rows);
      TableQuotes(tables[0], rows(tables[0]));
      QuotesAdd(TableText(tables[0], rows(tables[0])), TableTexts(tables[1..], rows));
    }
  }

  lemma {:induction false} FaithfulCosts(db: Database, tables: seq<string>, rows: string -> seq<string>)
    requires forall t | t in tables :: t in db && db[t] == rows(t)
    ensures CostOf(db, tables) >= Spent(tables, rows)
    ensures CostOf(db, tables) == Spent(tables, rows) ==> forall t | t in tables :: QuotesIn(rows(t)) == 0
  {
    if tables != [] {
      assert tables[0] in tables && forall u | u in tables[1..] :: u in tables;
      FaithfulCosts(db, tables[1..], rows);
      assert forall u | u in tables :: u == tables[0] || u in tables[1..];
    }
  }

  // The restore left every listed table as it was dumped.
  ghost predicate Restored(r: Option<Database>, s: Source) {
    r.Some? && forall t | t in s.tables :: t in r.value && r.value[t] == s.rows(t)
  }

  // A dump with an apostrophe in it cannot come back: there are fewer quotes
  // in it than reading its rows again would take.
  lemma ApostrophesAreLost(db: Database, s: Source, schema: Schema)
    requires KeepsQuotes(schema) && ParentsFirst(s.tables, schema) && (forall t | t in s.tables :: Simple(t))
    requires Tame(s.version) && Tame(s.time)
    requires Restored(Replayed(db, DumpText(s), s.tables, schema), s)
    ensures NoApostrophes(s)
  {
    var rest := "\n" + TableTexts(s.tables, s.rows);
    var codes := CodeOfAll(Trimmed(Cut(rest, false)));
    DumpStarts(s);
    OneMoreCode([Truncate(s.tables)], codes);
    var empty := Truncated(db, s.tables, schema);
    TruncationIsFree(db, s.tables, s.tables, schema);
    CodesCost(empty, codes, s.tables, schema);
    AllCodeQuotes(Trimmed(Cut(rest, false)));
    TrimmedQuotes(Cut(rest, false));
    CutQuotes(rest, false);
    QuotesAdd("\n", TableTexts(s.tables, s.rows));
    NoQuotes("\n");
    TextsQuotes(s.tables, s.rows);
    FaithfulCosts(Replayed(db, DumpText(s), s.tables, schema).value, s.tables, s.rows);
    forall t, r | t in s.tables && r in s.rows(t) ensures '\'' !in r {
      NoQuotesInRows(s.rows(t));
    }
  }

  // Over any database a restore brings every listed table back as dumped if
  // and only if no row of the dump contains an apostrophe.
  lemma RestoresExactly(db: Database, s: Source, schema: Schema)
    requires Dumpable(s) && ParentsFirst(s.tables, schema) && ConsistentRows(s, schema) && s.tables != []
    requires KeepsQuotes(schema) && forall t | t in s.tables :: t in db
    ensures Restored(Replayed(db, DumpText(s), s.tables, schema), s) <==> NoApostrophes(s)
  {
    if NoApostrophes(s) {
      DumpRestores(db, s, schema);
    }
    if Restored(Replayed(db, DumpText(s), s.tables, schema), s) {
      ApostrophesAreLost(db, s, schema);
    }
  }

  // --------------------------------------------------------------------------
  // DonDude's own tables
  // --------------------------------------------------------------------------

  const TABLES: seq<string> := [
    "users", "tenants", "settings", "devices", "sessions", "login_attempts",
    "backup_runs", "backup_events", "device_samples"]

  // The foreign keys of the migrations.
  function ForeignKeys(table: string): set<string> {
    if table == "sessions" then {"users"}
    else if table == "devices" then {"tenants"}
    else if table == "backup_events" then {"backup_runs", "tenants", "devices"}
    else if table == "device_samples" then {"devices"}
    else if table == "device_updates" then {"devices"}
    else {}
  }

  lemma TablesAreInOrder(schema: Schema)
    requires schema.parents == ForeignKeys
    ensures ParentsFirst(TABLES, schema)
  {
    TableNamesDiffer();
    forall i | 0 <= i < |TABLES| ensures schema.parents(TABLES[i]) <= set t | t in TABLES[..i] {
      ParentsBefore(i);
    }
  }

  lemma ParentsBefore(i: nat)
    requires i < |TABLES|
    ensures ForeignKeys(TABLES[i]) <= set t | t in TABLES[..i]
  {
    var before := TABLES[..i];
    assert forall k | 0 <= k < i :: before[k] == TABLES[k] && TABLES[k] in before;
    if i == 3 {
      assert ForeignKeys(TABLES[3]) == {TABLES[1]};
    } else if i == 4 {
      assert ForeignKeys(TABLES[4]) == {TABLES[0]};
    } else if i == 7 {
      assert ForeignKeys(TABLES[7]) == {TABLES[6], TABLES[1], TABLES[3]};
    } else if i == 8 {
      assert ForeignKeys(TABLES[8]) == {TABLES[3]};
    } else {
      assert ForeignKeys(TABLES[i]) == {};
    }
  }

  lemma TableNamesDiffer()
    ensures forall i, j | 0 <= i < j < |TABLES| :: TABLES[i] != TABLES[j]
  {
  }

  lemma TableNamesAreSimple()
    ensures forall t | t in TABLES :: Simple(t)
  {
    FirstNamesAreSimple();
    LastNamesAreSimple();
    forall t | t in TABLES ensures Simple(t) {
      var i :| 0 <= i < |TABLES| && TABLES[i] == t;
    }
  }

  lemma FirstNamesAreSimple()
    ensures forall i | 0 <= i < 5 :: Simple(TABLES[i])
  {
    assert Simple("users") && Simple("tenants") && Simple("settings") && Simple("devices") && Simple("sessions");
  }

  lemma LastNamesAreSimple()
    ensures forall i | 5 <= i < |TABLES| :: Simple(TABLES[i])
  {
    assert Simple("login_attempts") && Simple("backup_runs") && Simple("backup_events") && Simple("device_samples");
  }

  // A table left out of the dump that points at a dumped one.
  lemma UnlistedTableEndsEmpty(db: Database, s: Source, schema: Schema, other: string, parent: string)
    requires Dumpable(s) && NoApostrophes(s) && ParentsFirst(s.tables, schema) && ConsistentRows(s, schema) && s.tables != []
    requires forall t | t in s.tables :: t in db
    requires other in db && other !in s.tables && parent in s.tables && parent in schema.parents(other)
    ensures var r := Replayed(db, DumpText(s), s.tables, schema);
            && r.Some?
            && (forall t | t in s.tables :: t in r.value && r.value[t] == s.rows(t))
            && other in r.value && r.value[other] == []
  {
    DumpRestores(db, s, schema);
  }

  // The nine tables come back as dumped exactly when no row contains an
  // apostrophe; the device_updates table, which is not among them, is then
  // emptied along with the devices it points at.
  lemma DeploymentRestores(db: Database, s: Source, schema: Schema)
    requires s.tables == TABLES && schema.parents == ForeignKeys && KeepsQuotes(schema)
    requires Tame(s.version) && Tame(s.time) && ConsistentRows(s, schema)
    requires forall t, r | t in s.tables && r in s.rows(t) :: OneLineRow(r)
    requires (forall t | t in s.tables :: t in db) && "device_updates" in db
    ensures var r := Replayed(db, DumpText(s), s.tables, schema);
            && (Restored(r, s) <==> NoApostrophes(s))
            && (Restored(r, s) ==> "device_updates" in r.value && r.value["device_updates"] == [])
  {
    TableNamesAreSimple();
    TablesAreInOrder(schema);
    UpdatesPointAtDevices();
    RestoresExactly(db, s, schema);
    if NoApostrophes(s) {
      UnlistedTableEndsEmpty(db, s, schema, "device_updates", "devices");
    }
  }

  lemma UpdatesPointAtDevices()
    ensures "device_updates" !in TABLES && "devices" in ForeignKeys("device_updates") && "devices" in TABLES && |TABLES| == 9
  {
    assert TABLES[3] == "devices";
  }
}
