// The text of a logical dump (src/db/mod.rs) and how a database reads it.
module Dump {
  import opened Base
  import opened Text
  import opened Statements

  function Joined(texts: seq<string>, sep: string): string {
    if texts == [] then "" else if |texts| == 1 then texts[0] else texts[0] + sep + Joined(texts[1..], sep)
  }

  function QuoteIdent(name: string): string {
    "\"" + ReplaceAll(name, "\"", "\"\"") + "\""
  }

  function Idents(tables: seq<string>): seq<string> {
    if tables == [] then [] else Idents(tables[1..]) + [QuoteIdent(tables[0])]
  }

  // --------------------------------------------------------------------------
  // Writing
  // --------------------------------------------------------------------------

  // Rows are the JSON texts the database gives out.
  datatype Source = Source(version: string, time: string, tables: seq<string>, rows: string -> seq<string>)

  function Heading(version: string, time: string): string {
    "-- DonDude logical dump" + "\n" + "-- written by " + version + " at " + time + "\n" + "\n" + "\n"
  }

  function Truncate(tables: seq<string>): string {
    "TRUNCATE " + Joined(Idents(tables), ", ") + " CASCADE"
  }

  function Counted(table: string, n: nat): string {
    "-- " + Digits(n) + " rows in " + table
  }

  function Digits(n: nat): string {
    if n < 10 then [n as char + '0'] else Digits(n / 10) + [(n % 10) as char + '0']
  }

  function InsertHead(table: string): string {
    "INSERT INTO " + QuoteIdent(table) + " SELECT * FROM " + "jsonb_populate_recordset" + "(null::" + table + ", "
  }

  const INSERT_TAIL := "::jsonb)"

  function Array(rows: seq<string>): string {
    "[" + Joined(rows, ", ") + "] "
  }

  function Insert(table: string, rows: seq<string>): string {
    InsertHead(table) + ("'" + Array(rows) + "'") + INSERT_TAIL
  }

  function TableText(table: string, rows: seq<string>): string {
    "\n" + Counted(table, |rows|) + "\n" + if rows == [] then "" else Insert(table, rows) + ";" + "\n"
  }

  function TableTexts(tables: seq<string>, rows: string -> seq<string>): string {
    if tables == [] then "" else TableText(tables[0], rows(tables[0])) + TableTexts(tables[1..], rows)
  }

  // Everything before the first table.
  function Preface(s: Source): string {
    Heading(s.version, s.time) + Truncate(s.tables) + ";" + "\n"
  }

  function DumpText(s: Source): string {
    Preface(s) + TableTexts(s.tables, s.rows)
  }

  method DumpSql(s: Source) returns (out: string)
    ensures out == DumpText(s)
  {
    out := Preface(s);
    assert s.tables[..0] == [] && out + "" == out;
    for i := 0 to |s.tables|
      invariant out == Preface(s) + TableTexts(s.tables[..i], s.rows)
    {
      OneMoreTable(s.tables, s.rows, i);
      PushedInTwo(Preface(s), TableTexts(s.tables[..i], s.rows), TableText(s.tables[i], s.rows(s.tables[i])));
      out := PushTable(out, s.tables[i], s.rows(s.tables[i]));
    }
    assert s.tables[..|s.tables|] == s.tables;
  }

  method PushTable(buffer: string, table: string, rows: seq<string>) returns (out: string)
    ensures out == buffer + TableText(table, rows)
  {
    out := buffer + ("\n" + Counted(table, |rows|) + "\n");
    if rows != [] {
      out := out + (Insert(table, rows) + ";" + "\n");
    }
    PushedInTwo(buffer, "\n" + Counted(table, |rows|) + "\n", Insert(table, rows) + ";" + "\n");
  }

  lemma PushedInTwo(a: string, b: string, c: string)
    ensures a + b + c == a + (b + c) && b + "" == b
  {
  }

  lemma OneMoreTable(tables: seq<string>, rows: string -> seq<string>, i: nat)
    requires i < |tables|
    ensures TableTexts(tables[..i + 1], rows) == TableTexts(tables[..i], rows) + TableText(tables[i], rows(tables[i]))
  {
    assert tables[..i + 1] == tables[..i] + [tables[i]];
    TableTextsSnoc(tables[..i], tables[i], rows);
  }

  lemma {:induction false} TableTextsSnoc(tables: seq<string>, table: string, rows: string -> seq<string>)
    ensures TableTexts(tables + [table], rows) == TableTexts(tables, rows) + TableText(table, rows(table))
  {
    if tables == [] {
      assert ([] + [table])[1..] == [];
    } else {
      assert (tables + [table])[1..] == tables[1..] + [table];
      TableTextsSnoc(tables[1..], table, rows);
    }
  }

  // --------------------------------------------------------------------------
  // Reading
  // --------------------------------------------------------------------------

  // A single-quoted literal, from behind its opening quote: a doubled quote is
  // one quote of the text, a single one ends it.
  function ReadLiteral(s: string): Option<(string, string)> {
    if s == "" then None
    else if s[0] == '\'' && !(|s| > 1 && s[1] == '\'') then Some(("", s[1..]))
    else
      match ReadLiteral(if s[0] == '\'' then s[2..] else s[1..])
      case None => None
      case Some((text, rest)) => Some(([s[0]] + text, rest))
  }

  // How many characters reading a literal consumes.
  lemma {:induction false} LiteralConsumes(s: string)
    ensures var r := ReadLiteral(s);
            r.Some? ==>
              && |r.value.0| + 1 + |r.value.1| <= |s|
              && (|r.value.0| + 1 + |r.value.1| == |s| ==> '\'' !in r.value.0)
    decreases |s|
  {
    if s != "" && !(s[0] == '\'' && !(|s| > 1 && s[1] == '\'')) {
      LiteralConsumes(if s[0] == '\'' then s[2..] else s[1..]);
    }
  }

  lemma {:induction false} PlainLiteral(text: string, rest: string)
    requires '\'' !in text && (rest == "" || rest[0] != '\'')
    ensures ReadLiteral(text + "'" + rest) == Some((text, rest))
  {
    var s := text + "'" + rest;
    if text == "" {
      assert s[1..] == rest;
    } else {
      assert text[0] in text && s[0] == text[0];
      assert s[1..] == text[1..] + "'" + rest;
      PlainLiteral(text[1..], rest);
      assert [text[0]] + text[1..] == text;
    }
  }

  // The dump does not double apostrophes, so a literal reads back as what was
  // written exactly when it contains none.
  lemma LiteralReadsBack(text: string, rest: string)
    requires rest == "" || rest[0] != '\''
    ensures ReadLiteral(text + "'" + rest) == Some((text, rest)) <==> '\'' !in text
  {
    if '\'' !in text {
      PlainLiteral(text, rest);
    }
    LiteralConsumes(text + "'" + rest);
  }

  predicate IsComment(line: string) {
    "--" <= line
  }

  // What is left of a line for the database to run.
  function CodeOf(line: string): seq<string> {
    if Trim(line) == "" || IsComment(Trim(line)) then [] else [Trim(line)]
  }

  function CodeIn(ls: seq<string>): seq<string> {
    if ls == [] then [] else CodeOf(ls[0]) + CodeIn(ls[1..])
  }

  function Code(s: string): seq<string> {
    CodeIn(Pieces(s, '\n'))
  }

  lemma {:induction false} CodeInConcat(a: seq<string>, b: seq<string>)
    ensures CodeIn(a + b) == CodeIn(a) + CodeIn(b)
  {
    if a == [] {
      assert a + b == b;
    } else {
      assert (a + b)[1..] == a[1..] + b;
      CodeInConcat(a[1..], b);
    }
  }

  lemma {:induction false} PiecesAcross(a: string, b: string)
    ensures Pieces(a + "\n" + b, '\n') == Pieces(a, '\n') + Pieces(b, '\n')
  {
    if a == "" {
      assert a + "\n" + b == ['\n'] + b;
      PiecesOfSeparator(b, '\n');
    } else {
      assert (a + "\n" + b)[1..] == a[1..] + "\n" + b;
      PiecesAcross(a[1..], b);
      FrontGrows(a[0], Pieces(a[1..], '\n'), Pieces(b, '\n'));
    }
  }

  lemma FrontGrows(c: char, ps: seq<string>, qs: seq<string>)
    requires ps != []
    ensures [""] + (ps + qs) == [""] + ps + qs
    ensures [[c] + (ps + qs)[0]] + (ps + qs)[1..] == [[c] + ps[0]] + ps[1..] + qs
  {
  }

  lemma CodeAcross(a: string, b: string)
    ensures Code(a + "\n" + b) == Code(a) + Code(b)
  {
    PiecesAcross(a, b);
    CodeInConcat(Pieces(a, '\n'), Pieces(b, '\n'));
  }

  lemma CodeOfOneLine(line: string)
    requires '\n' !in line
    ensures Code(line) == CodeOf(line)
  {
    PiecesPrefix(line, "", '\n');
    assert line + "" == line;
    assert CodeIn([line]) == CodeOf(line) + CodeIn([]);
  }

  // --------------------------------------------------------------------------
  // Trimming a statement loses no code
  // --------------------------------------------------------------------------

  lemma CodeIgnoresSpaceBefore(c: char, s: string)
    requires IsWhitespace(c)
    ensures Code([c] + s) == Code(s)
  {
    assert ([c] + s)[1..] == s;
    var ps := Pieces(s, '\n');
    if c == '\n' {
      assert ([""] + ps)[1..] == ps;
    } else {
      var first := [c] + ps[0];
      assert first[1..] == ps[0];
      assert ([first] + ps[1..])[1..] == ps[1..];
    }
  }

  lemma {:induction false} CodeIgnoresLeading(s: string)
    ensures Code(StripLeft(s, IsWhitespace)) == Code(s)
  {
    if s != "" && IsWhitespace(s[0]) {
      CodeIgnoresLeading(s[1..]);
      CodeIgnoresSpaceBefore(s[0], s[1..]);
      assert [s[0]] + s[1..] == s;
    }
  }

  lemma {:induction false} StripLeftAppendBlank(s: string, c: char)
    requires IsWhitespace(c)
    ensures StripLeft(s + [c], IsWhitespace) == if StripLeft(s, IsWhitespace) == "" then "" else StripLeft(s, IsWhitespace) + [c]
  {
    if StripLeft(s, IsWhitespace) != "" {
      StripLeftAppend(s, [c], IsWhitespace);
    } else if s == "" {
      assert s + [c] == [c] && [c][1..] == "";
    } else {
      assert (s + [c])[1..] == s[1..] + [c];
      StripLeftAppendBlank(s[1..], c);
    }
  }

  lemma TrimIgnoresSpaceAfter(s: string, c: char)
    requires IsWhitespace(c)
    ensures Trim(s + [c]) == Trim(s)
  {
    StripLeftAppendBlank(s, c);
    var t := StripLeft(s, IsWhitespace);
    if t != "" {
      assert (t + [c])[..|t|] == t;
    }
  }

  lemma CodeIgnoresSpaceAfter(s: string, c: char)
    requires IsWhitespace(c)
    ensures Code(s + [c]) == Code(s)
  {
    if c == '\n' {
      assert s + [c] == s + "\n" + "";
      CodeAcross(s, "");
      CodeOfOneLine("");
    } else {
      LastPieceGrows(s, c);
      var ps := Pieces(s, '\n');
      var front, last := ps[..|ps| - 1], ps[|ps| - 1];
      assert ps == front + [last];
      LastLineMayGrow(front, last, last + [c], c);
    }
  }

  lemma LastLineMayGrow(front: seq<string>, last: string, longer: string, c: char)
    requires IsWhitespace(c) && longer == last + [c]
    ensures CodeIn(front + [longer]) == CodeIn(front + [last])
  {
    TrimIgnoresSpaceAfter(last, c);
    CodeInConcat(front, [last]);
    CodeInConcat(front, [longer]);
    CodeInOne(last);
    CodeInOne(longer);
  }

  lemma CodeInOne(line: string)
    ensures CodeIn([line]) == CodeOf(line)
  {
    assert [line][1..] == [];
  }

  lemma {:induction false} LastPieceGrows(s: string, c: char)
    requires c != '\n'
    ensures var ps := Pieces(s, '\n'); Pieces(s + [c], '\n') == ps[..|ps| - 1] + [ps[|ps| - 1] + [c]]
  {
    if s == "" {
      assert s + [c] == [c] && [c][1..] == "" && "" + [c] == [c] + "";
      assert Pieces("", '\n') == [""] && [""][1..] == [] && [""][..0] == [];
      assert Pieces([c], '\n') == [[c] + ""] + [];
    } else {
      assert (s + [c])[1..] == s[1..] + [c];
      LastPieceGrows(s[1..], c);
      var qs := Pieces(s[1..], '\n');
      if s[0] == '\n' {
        assert ([""] + qs)[..|qs|] == [""] + qs[..|qs| - 1];
      } else if |qs| == 1 {
        assert [s[0]] + (qs[0] + [c]) == [s[0]] + qs[0] + [c];
      } else {
        var ps := [[s[0]] + qs[0]] + qs[1..];
        assert ps[..|ps| - 1] == [[s[0]] + qs[0]] + qs[..|qs| - 1][1..];
      }
    }
  }

  lemma CodeIgnoresLastSpace(s: string)
    requires s != "" && IsWhitespace(s[|s| - 1])
    ensures Code(s[..|s| - 1]) == Code(s)
  {
    CodeIgnoresSpaceAfter(s[..|s| - 1], s[|s| - 1]);
    assert s[..|s| - 1] + [s[|s| - 1]] == s;
  }

  lemma {:induction false} CodeIgnoresTrailing(s: string)
    ensures Code(StripRight(s, IsWhitespace)) == Code(s)
  {
    if s != "" && IsWhitespace(s[|s| - 1]) {
      CodeIgnoresLastSpace(s);
      CodeIgnoresTrailing(s[..|s| - 1]);
    }
  }

  // Trimming drops blank lines and outer spaces, never code.
  lemma TrimKeepsCode(s: string)
    ensures Code(Trim(s)) == Code(s)
  {
    CodeIgnoresLeading(s);
    CodeIgnoresTrailing(StripLeft(s, IsWhitespace));
  }

  // --------------------------------------------------------------------------
  // A dump as a list of statements
  // --------------------------------------------------------------------------

  // Comment lines only, and at the start of a line.
  ghost predicate Silent(s: string) {
    s != "" && s[|s| - 1] == '\n' && Code(s[..|s| - 1]) == [] && Whole(s)
  }

  // A line of code as it stands.
  ghost predicate CodeLine(line: string) {
    '\n' !in line && Trim(line) == line && line != "" && !IsComment(line)
  }

  // A line the database runs as one statement.
  ghost predicate Runs(line: string) {
    CodeLine(line) && Whole(line)
  }

  lemma SilentThenLine(quiet: string, line: string)
    requires Silent(quiet) && Runs(line)
    ensures Code(quiet + line) == [line] && Whole(quiet + line)
    ensures Code(Trim(quiet + line)) == [line]
  {
    var front := quiet[..|quiet| - 1];
    assert quiet + line == front + "\n" + line;
    CodeAcross(front, line);
    CodeOfOneLine(line);
    WholeThen(quiet, line);
    TrimKeepsCode(quiet + line);
  }

  lemma SilentThenComment(quiet: string, comment: string)
    requires Silent(quiet) && Plain(comment) && '\n' !in comment && CodeOf(comment) == []
    ensures Silent(quiet + ("\n" + comment + "\n"))
  {
    var more := "\n" + comment + "\n";
    SilentHasNoCode(quiet);
    CodeAcross(quiet, comment);
    CodeOfOneLine(comment);
    LastNewline(quiet, comment);
    PlainBetweenNewlines(comment);
    PlainIsWhole(more);
    WholeThen(quiet, more);
  }

  lemma LastNewline(quiet: string, comment: string)
    ensures var all := quiet + ("\n" + comment + "\n");
            all != "" && all[|all| - 1] == '\n' && all[..|all| - 1] == quiet + "\n" + comment
  {
  }

  lemma PlainBetweenNewlines(comment: string)
    requires Plain(comment)
    ensures Plain("\n" + comment + "\n")
  {
  }

  lemma SilentHasNoCode(quiet: string)
    requires Silent(quiet)
    ensures Code(quiet) == []
  {
    var front := quiet[..|quiet| - 1];
    assert quiet == front + "\n" + "";
    CodeAcross(front, "");
    CodeOfOneLine("");
  }

  lemma NewlineIsSilent()
    ensures Silent("\n")
  {
    CodeOfOneLine("");
    assert "\n"[..0] == "";
    PlainIsWhole("\n");
  }

  // The statements the tables' rows are put back with.
  function Inserts(tables: seq<string>, rows: string -> seq<string>): seq<string> {
    if tables == [] then []
    else (if rows(tables[0]) == [] then [] else [Insert(tables[0], rows(tables[0]))]) + Inserts(tables[1..], rows)
  }

  function CodeOfAll(statements: seq<string>): seq<seq<string>> {
    if statements == [] then []
    else (if Code(statements[0]) == [] then [] else [Code(statements[0])]) + CodeOfAll(statements[1..])
  }

  function Singles(ls: seq<string>): seq<seq<string>> {
    if ls == [] then [] else [[ls[0]]] + Singles(ls[1..])
  }

  lemma InsertsOfFirst(tables: seq<string>, rows: string -> seq<string>)
    requires tables != []
    ensures Inserts(tables, rows) ==
            if rows(tables[0]) == [] then Inserts(tables[1..], rows) else [Insert(tables[0], rows(tables[0]))] + Inserts(tables[1..], rows)
  {
  }

  lemma SinglesCons(l: string, ls: seq<string>)
    ensures Singles([l] + ls) == [[l]] + Singles(ls)
  {
    assert ([l] + ls)[1..] == ls;
  }

  lemma QuietTail(quiet: string)
    requires Silent(quiet)
    ensures CodeOfAll(Trimmed([quiet])) == []
  {
    SilentHasNoCode(quiet);
    TrimKeepsCode(quiet);
    assert Trimmed([quiet]) == Kept(quiet) + Trimmed([]);
    if Kept(quiet) != [] {
      assert Trimmed([quiet]) == [Trim(quiet)];
      assert [Trim(quiet)][1..] == [];
    }
  }

  lemma FirstRuns(first: string, line: string, rest: seq<string>)
    requires Code(Trim(first)) == [line]
    ensures CodeOfAll(Trimmed([first] + rest)) == [[line]] + CodeOfAll(Trimmed(rest))
  {
    assert ([first] + rest)[1..] == rest;
    CodeOfOneLine("");
    assert Trim(first) != "";
    assert Trimmed([first] + rest) == [Trim(first)] + Trimmed(rest);
    assert ([Trim(first)] + Trimmed(rest))[1..] == Trimmed(rest);
  }

  // --------------------------------------------------------------------------
  // What a dump is made of
  // --------------------------------------------------------------------------

  // No quote, no semicolon, no line break.
  ghost predicate Tame(s: string) {
    '\'' !in s && ';' !in s && '\n' !in s
  }

  lemma TameWords()
    ensures Tame("-- DonDude logical dump") && Tame("-- written by ") && Tame(" at ") && Tame("TRUNCATE ") && Tame(" CASCADE")
    ensures Tame(", ") && Tame("-- ") && Tame(" rows in ") && Tame("\"")
  {
    TameHeadingWords();
    TameShortWords();
  }

  lemma TameHeadingWords()
    ensures Tame("-- DonDude logical dump") && Tame("-- written by ") && Tame(" at ")
  {
  }

  lemma TameShortWords()
    ensures Tame("TRUNCATE ") && Tame(" CASCADE") && Tame(", ") && Tame("-- ") && Tame(" rows in ") && Tame("\"")
  {
  }

  lemma TameInsertWords()
    ensures Tame("INSERT INTO ") && Tame(" SELECT * FROM ") && Tame("jsonb_populate_recordset") && Tame("(null::") && Tame("::jsonb)")
  {
    TameInsertWord();
    TameCastWord();
    TameFunctionWord();
  }

  lemma TameInsertWord()
    ensures Tame("INSERT INTO ") && Tame(" SELECT * FROM ")
  {
  }

  lemma TameCastWord()
    ensures Tame("(null::") && Tame("::jsonb)")
  {
  }

  lemma TameFunctionWord()
    ensures Tame("jsonb_populate_recordset")
  {
  }

  lemma TameTwo(a: string, b: string)
    requires Tame(a) && Tame(b)
    ensures Tame(a + b)
  {
  }

  lemma CommentStays(line: string)
    requires "--" <= line
    ensures CodeOf(line) == []
  {
    assert line[0] == '-' && line[1] == '-';
    assert StripLeft(line, IsWhitespace) == line;
    StripRightSplits(line, IsWhitespace);
    var t := StripRight(line, IsWhitespace);
    assert forall k | |t| <= k < |line| :: line[k] in line[|t|..];
    assert !IsWhitespace('-');
    assert "--" <= t;
  }

  lemma TrimFixes(line: string)
    requires line != "" && !IsWhitespace(line[0]) && !IsWhitespace(line[|line| - 1])
    ensures Trim(line) == line
  {
  }

  lemma {:induction false} DigitsAreTame(n: nat)
    ensures Tame(Digits(n))
  {
    if n >= 10 {
      DigitsAreTame(n / 10);
    }
  }

  lemma CountedIsComment(table: string, n: nat)
    requires Tame(table)
    ensures Tame(Counted(table, n)) && CodeOf(Counted(table, n)) == []
  {
    TameWords();
    DigitsAreTame(n);
    TameTwo("-- ", Digits(n));
    TameTwo("-- " + Digits(n), " rows in ");
    TameTwo("-- " + Digits(n) + " rows in ", table);
    StartsWithDashes("-- ", Digits(n), " rows in ", table);
    CommentStays(Counted(table, n));
  }

  lemma StartsWithDashes(a: string, b: string, c: string, d: string)
    requires "--" <= a
    ensures "--" <= a + b + c + d
  {
  }

  // A table name that needs no quoting.
  ghost predicate Simple(table: string) {
    Tame(table) && '"' !in table
  }

  lemma {:induction false} NothingToDouble(name: string)
    requires '"' !in name
    ensures ReplaceAll(name, "\"", "\"\"") == name
  {
    if name != "" {
      assert name[0] in name;
      NothingToDouble(name[1..]);
    }
  }

  lemma IdentIsTame(table: string)
    requires Simple(table)
    ensures QuoteIdent(table) == "\"" + table + "\"" && Tame(QuoteIdent(table))
  {
    NothingToDouble(table);
    TameWords();
    TameTwo("\"", table);
    TameTwo("\"" + table, "\"");
  }

  lemma {:induction false} JoinedIsTame(texts: seq<string>)
    requires forall t | t in texts :: Tame(t)
    ensures Tame(Joined(texts, ", "))
  {
    if texts != [] {
      TameWords();
      assert texts[0] in texts;
      assert forall t | t in texts[1..] :: t in texts;
      JoinedIsTame(texts[1..]);
      TameTwo(texts[0], ", ");
      TameTwo(texts[0] + ", ", Joined(texts[1..], ", "));
    }
  }

  lemma {:induction false} IdentsAreTame(tables: seq<string>)
    requires forall t | t in tables :: Simple(t)
    ensures forall i | i in Idents(tables) :: Tame(i)
  {
    if tables != [] {
      assert tables[0] in tables;
      assert forall t | t in tables[1..] :: t in tables;
      IdentsAreTame(tables[1..]);
      IdentIsTame(tables[0]);
    }
  }

  lemma TameRuns(line: string)
    requires Tame(line) && line != "" && line[0] in {'T', 'I'} && line[|line| - 1] in {'E', ')'}
    ensures Runs(line)
  {
    TrimFixes(line);
    PlainIsWhole(line);
  }

  lemma TruncateRuns(tables: seq<string>)
    requires forall t | t in tables :: Simple(t)
    ensures Runs(Truncate(tables))
  {
    var middle := Joined(Idents(tables), ", ");
    TameWords();
    IdentsAreTame(tables);
    JoinedIsTame(Idents(tables));
    TameTwo("TRUNCATE ", middle);
    TameTwo("TRUNCATE " + middle, " CASCADE");
    Ends("TRUNCATE ", middle, " CASCADE");
    TameRuns(Truncate(tables));
  }

  lemma Ends(a: string, b: string, c: string)
    requires a != "" && c != ""
    ensures var all := a + b + c; all != "" && all[0] == a[0] && all[|all| - 1] == c[|c| - 1]
  {
  }

  lemma InsertHeadIsTame(table: string)
    requires Simple(table)
    ensures Tame(InsertHead(table)) && InsertHead(table) != "" && InsertHead(table)[0] == 'I'
  {
    TameInsertWords();
    TameWords();
    IdentIsTame(table);
    TameTwo("INSERT INTO ", QuoteIdent(table));
    TameTwo("INSERT INTO " + QuoteIdent(table), " SELECT * FROM ");
    TameTwo("INSERT INTO " + QuoteIdent(table) + " SELECT * FROM ", "jsonb_populate_recordset");
    TameTwo("INSERT INTO " + QuoteIdent(table) + " SELECT * FROM " + "jsonb_populate_recordset", "(null::");
    TameTwo("INSERT INTO " + QuoteIdent(table) + " SELECT * FROM " + "jsonb_populate_recordset" + "(null::", table);
    TameTwo("INSERT INTO " + QuoteIdent(table) + " SELECT * FROM " + "jsonb_populate_recordset" + "(null::" + table, ", ");
  }

  // JSON texts contain no line break.
  ghost predicate OneLineRow(row: string) {
    '\n' !in row
  }

  lemma {:induction false} ArrayIsOneLine(rows: seq<string>)
    requires forall r | r in rows :: OneLineRow(r)
    ensures '\n' !in Joined(rows, ", ")
  {
    if rows != [] {
      assert rows[0] in rows;
      assert forall r | r in rows[1..] :: r in rows;
      ArrayIsOneLine(rows[1..]);
    }
  }

  lemma InsertIsCode(table: string, rows: seq<string>)
    requires Simple(table) && forall r | r in rows :: OneLineRow(r)
    ensures CodeLine(Insert(table, rows)) && Insert(table, rows)[0] == 'I'
  {
    ArrayIsOneLine(rows);
    InsertHeadIsTame(table);
    TameInsertWords();
    assert '\n' !in Array(rows);
    QuotedLineIsCode(InsertHead(table), Array(rows), INSERT_TAIL);
  }

  lemma QuotedLineIsCode(head: string, text: string, tail: string)
    requires Tame(head) && head != "" && head[0] == 'I' && '\n' !in text
    requires Tame(tail) && tail != "" && tail[|tail| - 1] == ')'
    ensures CodeLine(head + ("'" + text + "'") + tail) && (head + ("'" + text + "'") + tail)[0] == 'I'
  {
    var literal := "'" + text + "'";
    Ends(head, literal, tail);
    TrimFixes(head + literal + tail);
    assert '\n' !in literal;
  }

  // Semicolons in rows are inside quotes. An insert is one statement exactly
  // when the apostrophes in its rows are even in number, and no semicolon comes
  // after an odd number of them.
  lemma InsertRuns(table: string, rows: seq<string>)
    requires Simple(table)
    ensures Whole(Insert(table, rows)) <==> Quotes(Array(rows)) % 2 == 0 && forall k :: !CutHere(Array(rows), true, k)
  {
    InsertHeadIsTame(table);
    TameInsertWords();
    QuotedLineIsWhole(InsertHead(table), Array(rows), INSERT_TAIL);
    NoCutMeans(Array(rows), true);
    QuotedIsParity(Array(rows), true);
  }

  lemma QuotedLineIsWhole(head: string, text: string, tail: string)
    requires Tame(head) && Tame(tail)
    ensures Whole(head + ("'" + text + "'") + tail) <==> NoCut(text, true) && QuotedAfter(text, true)
  {
    QuotelessIsNoCut(head, false);
    OneQuote(false);
    var inside := QuotedAfter(text, true);
    OneQuote(inside);
    NoCutAcross("'", text, false);
    NoCutAcross("'" + text, "'", false);
    NoCutAcross(head, "'" + text + "'", false);
    NoCutAcross(head + ("'" + text + "'"), tail, false);
    if inside {
      QuotelessIsNoCut(tail, false);
    } else {
      QuotelessIsNoCut(tail, true);
    }
  }

  // Without apostrophes it always is.
  lemma QuotelessRowsRun(table: string, rows: seq<string>)
    requires Simple(table) && forall r | r in rows :: '\'' !in r
    ensures Whole(Insert(table, rows)) && Quotes(Array(rows)) == 0
  {
    QuotesInArray(rows);
    NoQuotesInRows(rows);
    InsertHeadIsTame(table);
    TameInsertWords();
    NoQuotes(Array(rows));
    QuotelessIsNoCut(Array(rows), true);
    QuotedLineIsWhole(InsertHead(table), Array(rows), INSERT_TAIL);
  }

  function QuotesIn(rows: seq<string>): nat {
    if rows == [] then 0 else Quotes(rows[0]) + QuotesIn(rows[1..])
  }

  lemma {:induction false} NoQuotesInRows(rows: seq<string>)
    ensures QuotesIn(rows) == 0 <==> forall r | r in rows :: '\'' !in r
  {
    if rows != [] {
      NoQuotes(rows[0]);
      NoQuotesInRows(rows[1..]);
      assert rows[0] in rows && forall r | r in rows :: r == rows[0] || r in rows[1..];
      assert forall r | r in rows[1..] :: r in rows;
    }
  }

  lemma {:induction false} QuotesInJoined(rows: seq<string>)
    ensures Quotes(Joined(rows, ", ")) == QuotesIn(rows)
  {
    if |rows| > 1 {
      QuotesInJoined(rows[1..]);
      QuotesAdd(rows[0], ", ");
      QuotesAdd(rows[0] + ", ", Joined(rows[1..], ", "));
      NoQuotes(", ");
    }
  }

  lemma QuotesInArray(rows: seq<string>)
    ensures Quotes(Array(rows)) == QuotesIn(rows)
  {
    QuotesInJoined(rows);
    QuotesAdd("[", Joined(rows, ", "));
    QuotesAdd("[" + Joined(rows, ", "), "] ");
    NoQuotes("[");
    NoQuotes("] ");
  }

  lemma HeadingIsSilent(version: string, time: string)
    requires Tame(version) && Tame(time)
    ensures Silent(Heading(version, time))
  {
    var a, b := "-- DonDude logical dump", "-- written by " + version + " at " + time;
    TameWords();
    TameTwo("-- written by ", version);
    TameTwo("-- written by " + version, " at ");
    TameTwo("-- written by " + version + " at ", time);
    StartsWithDashes("-- written by ", version, " at ", time);
    CommentStays(b);
    assert "--" <= a;
    CommentStays(a);
    TwoCommentsAreSilent(a, b);
    assert Heading(version, time) == a + "\n" + b + "\n" + "\n" + "\n" by {
      HeadingParts(a, "-- written by ", version, " at ", time);
    }
  }

  lemma HeadingParts(a: string, b: string, c: string, d: string, e: string)
    ensures a + "\n" + b + c + d + e + "\n" + "\n" + "\n" == a + "\n" + (b + c + d + e) + "\n" + "\n" + "\n"
  {
  }

  lemma TwoCommentsAreSilent(a: string, b: string)
    requires Tame(a) && Tame(b) && CodeOf(a) == [] && CodeOf(b) == []
    ensures Silent(a + "\n" + b + "\n" + "\n" + "\n")
  {
    var one := a + "\n" + b;
    var two := one + "\n" + "\n";
    CodeOfOneLine(a);
    CodeOfOneLine(b);
    CodeAcross(a, b);
    BlankLinesAreSilent(one);
    TameIsWhole(a, b);
    assert (two + "\n")[..|two|] == two;
  }

  lemma BlankLinesAreSilent(s: string)
    ensures Code(s + "\n" + "\n") == Code(s)
  {
    CodeOfOneLine("");
    CodeAcross(s, "");
    CodeAcross(s + "\n", "");
    assert s + "\n" + "" == s + "\n" && s + "\n" + "\n" + "" == s + "\n" + "\n";
  }

  lemma TameIsWhole(a: string, b: string)
    requires Tame(a) && Tame(b)
    ensures Whole(a + "\n" + b + "\n" + "\n" + "\n")
  {
    assert Plain(a + "\n" + b + "\n" + "\n" + "\n");
    PlainIsWhole(a + "\n" + b + "\n" + "\n" + "\n");
  }

  ghost predicate Dumpable(s: Source) {
    && Tame(s.version) && Tame(s.time)
    && (forall t | t in s.tables :: Simple(t))
    && (forall t, r | t in s.tables && r in s.rows(t) :: OneLineRow(r))
  }

  ghost predicate InsertsAreWhole(tables: seq<string>, rows: string -> seq<string>) {
    forall t | t in tables && rows(t) != [] :: Whole(Insert(t, rows(t)))
  }

  ghost predicate TablesDumpable(tables: seq<string>, rows: string -> seq<string>) {
    forall t | t in tables :: Simple(t) && forall r | r in rows(t) :: OneLineRow(r)
  }

  // A statement that does not end with its insert runs something else first.
  lemma BrokenInsertShows(insert: string, rest: string)
    requires CodeLine(insert) && insert[0] == 'I' && !Whole(insert)
    ensures var code := Code(Cut(insert + ";" + rest, false)[0]); code != [] && code[0] != insert
  {
    var text := insert + ";" + rest;
    var piece := Cut(text, false)[0];
    FirstPiece(text, false);
    PieceIsNotEmpty(insert, rest);
    var line := Pieces(piece, '\n')[0];
    FirstPieceIsPrefix(piece, '\n');
    LineIsNotEmpty(piece);
    FirstLineRuns(piece);
    if Trim(line) == insert {
      OnlySpaceAfter(line, insert);
      LineIsInsert(insert, rest, line);
      LineIsPiece(insert, rest, piece);
    }
  }

  lemma PieceIsNotEmpty(insert: string, rest: string)
    requires insert != "" && insert[0] == 'I'
    ensures var piece := Cut(insert + ";" + rest, false)[0]; piece != "" && piece[0] == 'I'
  {
    var text := insert + ";" + rest;
    assert text[0] == 'I';
    FirstPiece(text, false);
  }

  lemma LineIsNotEmpty(piece: string)
    requires piece != "" && piece[0] == 'I'
    ensures var line := Pieces(piece, '\n')[0]; line != "" && line[0] == 'I'
  {
  }

  lemma FirstLineRuns(piece: string)
    requires var line := Pieces(piece, '\n')[0]; line != "" && line[0] == 'I'
    ensures var line := Pieces(piece, '\n')[0]; Code(piece) != [] && Code(piece)[0] == Trim(line) && Trim(line) != ""
  {
    var line := Pieces(piece, '\n')[0];
    assert StripLeft(line, IsWhitespace) == line;
    StripRightSplits(line, IsWhitespace);
    assert line[0] in line[0..];
    assert Trim(line)[0] == 'I';
  }

  lemma OnlySpaceAfter(line: string, insert: string)
    requires line != "" && line[0] == 'I' && Trim(line) == insert
    ensures insert <= line && forall c | c in line[|insert|..] :: IsWhitespace(c)
  {
    assert StripLeft(line, IsWhitespace) == line;
    StripRightSplits(line, IsWhitespace);
  }

  lemma LineIsInsert(insert: string, rest: string, line: string)
    requires insert <= line && line <= insert + ";" + rest && forall c | c in line[|insert|..] :: IsWhitespace(c)
    ensures line == insert
  {
    assert (insert + ";" + rest)[|insert|] == ';' && !IsWhitespace(';');
    assert forall k | |insert| <= k < |line| :: line[k] in line[|insert|..];
  }

  lemma LineIsPiece(insert: string, rest: string, piece: string)
    requires piece == Cut(insert + ";" + rest, false)[0] && Pieces(piece, '\n')[0] == insert
    ensures Whole(insert)
  {
    var text := insert + ";" + rest;
    FirstPiece(text, false);
    FirstPieceIsPrefix(piece, '\n');
    LineEndsPiece(piece);
    assert text[|insert|] == ';' && piece == text[..|piece|];
    assert piece == insert;
  }

  lemma {:induction false} LineEndsPiece(piece: string)
    ensures var line := Pieces(piece, '\n')[0]; |piece| > |line| ==> piece[|line|] == '\n'
  {
    if piece != "" && piece[0] != '\n' {
      LineEndsPiece(piece[1..]);
      var line := Pieces(piece[1..], '\n')[0];
      assert |piece| > |line| + 1 ==> piece[|line| + 1] == piece[1..][|line|];
    }
  }

  // The first statement after quiet comments, and those after it.
  lemma FirstStatement(quiet: string, insert: string, rest: string)
    requires Silent(quiet) && CodeLine(insert) && insert[0] == 'I'
    ensures var all := CodeOfAll(Trimmed(Cut(quiet + (insert + ";" + rest), false)));
            if Whole(insert) then all == [[insert]] + CodeOfAll(Trimmed(Cut(rest, false)))
            else all != [] && all[0] != [insert]
  {
    var text := insert + ";" + rest;
    NoCutThen(quiet, text, false);
    if Whole(insert) {
      CutAfterWhole(insert, rest);
      SilentThenLine(quiet, insert);
      FirstRuns(quiet + insert, insert, Cut(rest, false));
    } else {
      BrokenInsertShows(insert, rest);
      var pieces := Cut(text, false);
      CodeAfterSilent(quiet, pieces[0]);
      TrimKeepsCode(quiet + pieces[0]);
      FirstCode(quiet + pieces[0], pieces[1..]);
    }
  }

  lemma CutAfterWhole(insert: string, rest: string)
    requires Whole(insert)
    ensures Cut(insert + ";" + rest, false) == [insert] + Cut(rest, false)
  {
    assert insert + ";" + rest == insert + (";" + rest) && (";" + rest)[1..] == rest;
    NoCutThen(insert, ";" + rest, false);
    assert insert + "" == insert;
  }

  lemma CodeAfterSilent(quiet: string, piece: string)
    requires Silent(quiet)
    ensures Code(quiet + piece) == Code(piece)
  {
    var front := quiet[..|quiet| - 1];
    assert quiet + piece == front + "\n" + piece;
    CodeAcross(front, piece);
  }

  lemma FirstCode(first: string, rest: seq<string>)
    requires Code(Trim(first)) != []
    ensures var all := CodeOfAll(Trimmed([first] + rest)); all != [] && all[0] == Code(Trim(first))
  {
    assert ([first] + rest)[1..] == rest;
    CodeOfOneLine("");
    assert Trim(first) != "";
    assert Trimmed([first] + rest) == [Trim(first)] + Trimmed(rest);
  }

  // The tables of a dump split back exactly when every insert is one statement.
  lemma {:induction false} TablesSplitBack(tables: seq<string>, rows: string -> seq<string>, quiet: string)
    requires TablesDumpable(tables, rows) && Silent(quiet)
    ensures CodeOfAll(Trimmed(Cut(quiet + TableTexts(tables, rows), false))) == Singles(Inserts(tables, rows)) <==>
            InsertsAreWhole(tables, rows)
  {
    if tables == [] {
      assert quiet + "" == quiet;
      NoCutThen(quiet, "", false);
      assert Cut(quiet, false) == [quiet];
      QuietTail(quiet);
    } else {
      var table, more := tables[0], tables[1..];
      var said := quiet + ("\n" + Counted(table, |rows(table)|) + "\n");
      FirstTableSaid(tables, rows, quiet);
      InsertsOfFirst(tables, rows);
      WholeOfFirst(tables, rows);
      if rows(table) == [] {
        TablesSplitBack(more, rows, said);
      } else {
        TablesSplitBack(more, rows, "\n");
        FirstStatement(said, Insert(table, rows(table)), "\n" + TableTexts(more, rows));
        SinglesCons(Insert(table, rows(table)), Inserts(more, rows));
        SameBehind([Insert(table, rows(table))], CodeOfAll(Trimmed(Cut("\n" + TableTexts(more, rows), false))), Singles(Inserts(more, rows)));
      }
    }
  }

  lemma SameBehind(first: seq<string>, a: seq<seq<string>>, b: seq<seq<string>>)
    ensures [first] + a == [first] + b <==> a == b
  {
    assert ([first] + a)[1..] == a && ([first] + b)[1..] == b;
  }

  lemma WholeOfFirst(tables: seq<string>, rows: string -> seq<string>)
    requires tables != []
    ensures InsertsAreWhole(tables, rows) <==>
            (rows(tables[0]) != [] ==> Whole(Insert(tables[0], rows(tables[0])))) && InsertsAreWhole(tables[1..], rows)
  {
    assert tables[0] in tables && forall t | t in tables :: t == tables[0] || t in tables[1..];
    assert forall t | t in tables[1..] :: t in tables;
  }

  lemma FirstTableSaid(tables: seq<string>, rows: string -> seq<string>, quiet: string)
    requires TablesDumpable(tables, rows) && Silent(quiet) && tables != []
    ensures var table := tables[0];
            var said := quiet + ("\n" + Counted(table, |rows(table)|) + "\n");
            var rest := TableTexts(tables[1..], rows);
            && Silent(said) && Silent("\n") && TablesDumpable(tables[1..], rows)
            && (rows(table) == [] ==> quiet + TableTexts(tables, rows) == said + rest)
            && (rows(table) != [] ==>
                 && CodeLine(Insert(table, rows(table))) && Insert(table, rows(table))[0] == 'I'
                 && quiet + TableTexts(tables, rows) == said + (Insert(table, rows(table)) + ";" + ("\n" + rest)))
  {
    var table := tables[0];
    assert table in tables;
    assert forall t | t in tables[1..] :: t in tables;
    CountedIsComment(table, |rows(table)|);
    SilentThenComment(quiet, Counted(table, |rows(table)|));
    NewlineIsSilent();
    InsertIsCode(table, rows(table));
    Regroup(quiet, "\n" + Counted(table, |rows(table)|) + "\n", Insert(table, rows(table)), TableTexts(tables[1..], rows));
  }

  lemma Regroup(quiet: string, comment: string, insert: string, rest: string)
    ensures quiet + (comment + (insert + ";" + "\n") + rest) == (quiet + comment) + (insert + ";" + ("\n" + rest))
    ensures quiet + (comment + "" + rest) == (quiet + comment) + rest
  {
  }

  // Splitting a dump gives back, comment lines and outer whitespace aside, the
  // truncation and one insert for each table that has rows: exactly when every
  // one of these inserts is a statement by itself.
  lemma DumpSplitsBack(s: Source)
    requires Dumpable(s)
    ensures CodeOfAll(Split(DumpText(s))) == Singles([Truncate(s.tables)] + Inserts(s.tables, s.rows)) <==>
            InsertsAreWhole(s.tables, s.rows)
  {
    var rest := CodeOfAll(Trimmed(Cut("\n" + TableTexts(s.tables, s.rows), false)));
    DumpStarts(s);
    NewlineIsSilent();
    TablesSplitBack(s.tables, s.rows, "\n");
    SinglesCons(Truncate(s.tables), Inserts(s.tables, s.rows));
    SameBehind([Truncate(s.tables)], rest, Singles(Inserts(s.tables, s.rows)));
  }

  // Whatever the rows contain, the first statement is the truncation.
  lemma DumpStarts(s: Source)
    requires Tame(s.version) && Tame(s.time) && forall t | t in s.tables :: Simple(t)
    ensures CodeOfAll(Split(DumpText(s))) ==
            [[Truncate(s.tables)]] + CodeOfAll(Trimmed(Cut("\n" + TableTexts(s.tables, s.rows), false)))
  {
    var heading, truncate, texts := Heading(s.version, s.time), Truncate(s.tables), TableTexts(s.tables, s.rows);
    HeadingIsSilent(s.version, s.time);
    TruncateRuns(s.tables);
    SilentThenLine(heading, truncate);
    CutAfterWhole(heading + truncate, "\n" + texts);
    DumpParts(heading, truncate, texts);
    FirstRuns(heading + truncate, truncate, Cut("\n" + texts, false));
  }

  lemma DumpParts(heading: string, truncate: string, texts: string)
    ensures heading + truncate + ";" + "\n" + texts == (heading + truncate) + ";" + ("\n" + texts)
  {
  }
}
