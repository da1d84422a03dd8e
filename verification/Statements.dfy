// Splitting a dump script into statements: src/backup_archive.rs.
module Statements {
  import opened Text

  function Flip(quoted: bool, c: char): bool {
    if c == '\'' then !quoted else quoted
  }

  // The script cut at every semicolon outside quotes; always at least one piece.
  function Cut(s: string, quoted: bool): (pieces: seq<string>)
    ensures pieces != []
  {
    if s == "" then [""]
    else if s[0] == ';' && !quoted then [""] + Cut(s[1..], false)
    else
      Onto([s[0]], Cut(s[1..], Flip(quoted, s[0])))
  }

  // The first piece made longer.
  function Onto(front: string, pieces: seq<string>): (r: seq<string>)
    requires pieces != []
    ensures |r| == |pieces|
  {
    [front + pieces[0]] + pieces[1..]
  }

  lemma OntoTwice(a: string, b: string, pieces: seq<string>)
    requires pieces != []
    ensures Onto(a, Onto(b, pieces)) == Onto(a + b, pieces) && Onto("", pieces) == pieces
  {
    assert a + (b + pieces[0]) == a + b + pieces[0];
    assert "" + pieces[0] == pieces[0];
  }

  // Pieces without their outer whitespace, blank ones left out.
  function Trimmed(pieces: seq<string>): seq<string> {
    if pieces == [] then [] else Kept(pieces[0]) + Trimmed(pieces[1..])
  }

  function Kept(piece: string): seq<string> {
    if Trim(piece) == "" then [] else [Trim(piece)]
  }

  function Split(sql: string): seq<string> {
    Trimmed(Cut(sql, false))
  }

  // --------------------------------------------------------------------------
  // The rule it follows
  // --------------------------------------------------------------------------

  function Quotes(s: string): nat {
    if s == "" then 0 else (if s[0] == '\'' then 1 else 0) + Quotes(s[1..])
  }

  // Where the pieces were separated, when the first begins at `offset`.
  ghost function Separators(pieces: seq<string>, offset: int): set<int> {
    if |pieces| <= 1 then {}
    else {offset + |pieces[0]|} + Separators(pieces[1..], offset + |pieces[0]| + 1)
  }

  function Rejoined(pieces: seq<string>): string {
    if pieces == [] then "" else if |pieces| == 1 then pieces[0] else pieces[0] + ";" + Rejoined(pieces[1..])
  }

  lemma {:induction false} SeparatorsShift(pieces: seq<string>, offset: int, k: int)
    ensures k in Separators(pieces, offset) <==> k - offset in Separators(pieces, 0)
  {
    if |pieces| > 1 {
      var n := |pieces[0]| + 1;
      SeparatorsShift(pieces[1..], offset + n, k);
      SeparatorsShift(pieces[1..], n, k - offset);
    }
  }

  ghost predicate CutHere(s: string, quoted: bool, k: int) {
    0 <= k < |s| && s[k] == ';' && (Quotes(s[..k]) + if quoted then 1 else 0) % 2 == 0
  }

  lemma CutHereLater(s: string, quoted: bool, k: int)
    requires s != "" && k > 0
    ensures CutHere(s, quoted, k) <==> CutHere(s[1..], Flip(quoted, s[0]), k - 1)
  {
    if k < |s| {
      assert s[..k][1..] == s[1..][..k - 1];
    }
  }

  // The script is cut at exactly the semicolons that an even number of quotes
  // precedes, and nothing is lost.
  lemma {:induction false} CutsAtEvenQuotes(s: string, quoted: bool, k: int)
    ensures k in Separators(Cut(s, quoted), 0) <==> CutHere(s, quoted, k)
    ensures Rejoined(Cut(s, quoted)) == s
  {
    if s != "" {
      var cutFirst := s[0] == ';' && !quoted;
      var rest := Cut(s[1..], Flip(quoted, s[0]));
      CutsAtEvenQuotes(s[1..], Flip(quoted, s[0]), k - 1);
      if k > 0 {
        CutHereLater(s, quoted, k);
      }
      if cutFirst {
        FirstSeparator(rest, k);
        assert Quotes(s[..0]) == 0;
      } else {
        LongerFirstPiece(rest, s[0], k);
        assert Quotes(s[..0]) == 0;
      }
    }
  }

  lemma FirstSeparator(rest: seq<string>, k: int)
    requires rest != []
    ensures k in Separators([""] + rest, 0) <==> k == 0 || k - 1 in Separators(rest, 0)
    ensures Rejoined([""] + rest) == ";" + Rejoined(rest)
  {
    var all := [""] + rest;
    assert all[1..] == rest;
    SeparatorsShift(rest, 1, k);
  }

  lemma LongerFirstPiece(rest: seq<string>, c: char, k: int)
    requires rest != []
    ensures k in Separators(Onto([c], rest), 0) <==> k - 1 in Separators(rest, 0)
    ensures Rejoined(Onto([c], rest)) == [c] + Rejoined(rest)
  {
    var all := Onto([c], rest);
    assert all[1..] == rest[1..];
    if |rest| > 1 {
      var n := |rest[0]| + 1;
      SeparatorsShift(rest[1..], n + 1, k);
      SeparatorsShift(rest[1..], n, k - 1);
      RejoinedOnto(c, rest[0], Rejoined(rest[1..]));
    }
  }

  lemma RejoinedOnto(c: char, first: string, rest: string)
    ensures ([c] + first) + ";" + rest == [c] + (first + ";" + rest)
  {
  }

  // --------------------------------------------------------------------------
  // The loop that does it
  // --------------------------------------------------------------------------

  method SplitStatements(sql: string) returns (statements: seq<string>)
    ensures statements == Split(sql)
  {
    statements := [];
    var current := "";
    var inString := false;
    var i := 0;
    FirstPending(sql);
    while i < |sql|
      invariant i <= |sql|
      invariant Split(sql) == statements + Pending(sql, i, inString, current)
      decreases |sql| - i
    {
      var c := sql[i];
      StepOver(sql, i, inString, current);
      i := i + 1;
      if c == '\'' {
        inString := !inString;
        current := current + [c];
        if !inString && i < |sql| && sql[i] == '\'' {
          StepOver(sql, i, inString, current);
          current := current + ['\''];
          i := i + 1;
          inString := true;
        }
        continue;
      }
      if c == ';' && !inString {
        KeptMovesOver(statements, current, Pending(sql, i, false, ""));
        statements := PushTrimmed(statements, current);
        current := "";
        continue;
      }
      current := current + [c];
    }
    LastPending(sql, inString, current);
    statements := PushTrimmed(statements, current);
  }

  lemma KeptMovesOver(statements: seq<string>, current: string, rest: seq<string>)
    ensures statements + (Kept(current) + rest) == statements + Kept(current) + rest
  {
  }

  method PushTrimmed(statements: seq<string>, current: string) returns (more: seq<string>)
    ensures more == statements + Kept(current)
  {
    more := statements;
    var trimmed := Trim(current);
    if trimmed != "" {
      more := more + [trimmed];
    }
  }

  // The statements still to come at position `i`, with `current` already read
  // of the first of them.
  function Pending(sql: string, i: nat, quoted: bool, current: string): seq<string>
    requires i <= |sql|
  {
    Trimmed(Onto(current, Cut(sql[i..], quoted)))
  }

  lemma FirstPending(sql: string)
    ensures Pending(sql, 0, false, "") == Split(sql)
  {
    assert sql[0..] == sql;
    OntoTwice("", "", Cut(sql, false));
  }

  lemma LastPending(sql: string, quoted: bool, current: string)
    ensures Pending(sql, |sql|, quoted, current) == Kept(current)
  {
    assert sql[|sql|..] == "" && current + "" == current;
    assert Onto(current, [""]) == [current];
    assert Trimmed([current]) == Kept(current) + Trimmed([]);
  }

  lemma StepOver(sql: string, i: nat, quoted: bool, current: string)
    requires i < |sql|
    ensures var c := sql[i];
            Pending(sql, i, quoted, current) ==
            if c == ';' && !quoted then Kept(current) + Pending(sql, i + 1, false, "")
            else Pending(sql, i + 1, Flip(quoted, c), current + [c])
  {
    assert sql[i..][1..] == sql[i + 1..];
    var c := sql[i];
    var rest := Cut(sql[i + 1..], Flip(quoted, c));
    OntoTwice(current, [c], rest);
    if c == ';' && !quoted {
      assert current + "" == current;
      assert ([current] + rest)[1..] == rest;
    }
  }

  // --------------------------------------------------------------------------
  // Scripts that are put together from whole statements
  // --------------------------------------------------------------------------

  predicate NoCut(s: string, quoted: bool) {
    s == "" || (!(s[0] == ';' && !quoted) && NoCut(s[1..], Flip(quoted, s[0])))
  }

  predicate QuotedAfter(s: string, quoted: bool) {
    if s == "" then quoted else QuotedAfter(s[1..], Flip(quoted, s[0]))
  }

  // Text that contains no cut and closes every quote it opens.
  predicate Whole(s: string) {
    NoCut(s, false) && !QuotedAfter(s, false)
  }

  // No quote and no semicolon.
  ghost predicate Plain(s: string) {
    '\'' !in s && ';' !in s
  }

  lemma {:induction false} NoCutThen(a: string, b: string, quoted: bool)
    requires NoCut(a, quoted)
    ensures Cut(a + b, quoted) == Onto(a, Cut(b, QuotedAfter(a, quoted)))
    ensures NoCut(b, QuotedAfter(a, quoted)) ==> NoCut(a + b, quoted)
    ensures QuotedAfter(a + b, quoted) == QuotedAfter(b, QuotedAfter(a, quoted))
  {
    if a == "" {
      assert a + b == b;
      OntoTwice("", "", Cut(b, quoted));
    } else {
      assert (a + b)[1..] == a[1..] + b;
      NoCutThen(a[1..], b, Flip(quoted, a[0]));
      OntoTwice([a[0]], a[1..], Cut(b, QuotedAfter(a, quoted)));
      assert [a[0]] + a[1..] == a;
    }
  }

  lemma WholeThen(a: string, b: string)
    requires Whole(a) && Whole(b)
    ensures Whole(a + b)
  {
    NoCutThen(a, b, false);
  }

  lemma {:induction false} QuotelessIsNoCut(s: string, quoted: bool)
    requires '\'' !in s && (quoted || ';' !in s)
    ensures NoCut(s, quoted) && QuotedAfter(s, quoted) == quoted
  {
    if s != "" {
      assert s[0] in s;
      QuotelessIsNoCut(s[1..], quoted);
    }
  }

  lemma PlainIsWhole(s: string)
    requires Plain(s)
    ensures Whole(s)
  {
    QuotelessIsNoCut(s, false);
  }

  lemma OneQuote(quoted: bool)
    ensures NoCut("'", quoted) && QuotedAfter("'", quoted) == !quoted
  {
    assert "'"[1..] == "";
  }

  function Script(chunks: seq<string>, last: string): string {
    if chunks == [] then last else chunks[0] + ";" + Script(chunks[1..], last)
  }

  // Splitting undoes the concatenation, whatever the statements contain.
  lemma {:induction false} SplitUndoesScript(chunks: seq<string>, last: string)
    requires Whole(last) && forall c | c in chunks :: Whole(c)
    ensures Cut(Script(chunks, last), false) == chunks + [last]
  {
    if chunks == [] {
      NoCutThen(last, "", false);
      assert last + "" == last;
    } else {
      var first, rest := chunks[0], Script(chunks[1..], last);
      assert first in chunks;
      SplitUndoesScript(chunks[1..], last);
      assert first + ";" + rest == first + (";" + rest) && (";" + rest)[1..] == rest;
      NoCutThen(first, ";" + rest, false);
      assert first + "" == first;
      assert chunks + [last] == [first] + (chunks[1..] + [last]);
    }
  }

  // --------------------------------------------------------------------------
  // Single statements
  // --------------------------------------------------------------------------

  // The first piece ends at the first cut, and nowhere before.
  lemma {:induction false} FirstPiece(s: string, quoted: bool)
    ensures var p := Cut(s, quoted)[0];
            p <= s && NoCut(p, quoted) && (|p| < |s| ==> s[|p|] == ';' && !QuotedAfter(p, quoted))
  {
    if s != "" && !(s[0] == ';' && !quoted) {
      FirstPiece(s[1..], Flip(quoted, s[0]));
      var p := Cut(s[1..], Flip(quoted, s[0]))[0];
      assert ([s[0]] + p)[1..] == p;
    }
  }

  lemma {:induction false} NoCutAcross(a: string, b: string, quoted: bool)
    ensures NoCut(a + b, quoted) <==> NoCut(a, quoted) && NoCut(b, QuotedAfter(a, quoted))
    ensures QuotedAfter(a + b, quoted) == QuotedAfter(b, QuotedAfter(a, quoted))
  {
    if a == "" {
      assert a + b == b;
    } else {
      assert (a + b)[1..] == a[1..] + b && (a + b)[0] == a[0];
      NoCutAcross(a[1..], b, Flip(quoted, a[0]));
    }
  }

  lemma {:induction false} QuotedIsParity(s: string, quoted: bool)
    ensures QuotedAfter(s, quoted) <==> (Quotes(s) + if quoted then 1 else 0) % 2 == 1
  {
    if s != "" {
      QuotedIsParity(s[1..], Flip(quoted, s[0]));
    }
  }

  // Text without a cut is text where no semicolon follows an even number of quotes.
  lemma {:induction false} NoCutMeans(s: string, quoted: bool)
    ensures NoCut(s, quoted) <==> forall k :: !CutHere(s, quoted, k)
  {
    if s != "" {
      NoCutMeans(s[1..], Flip(quoted, s[0]));
      assert Quotes(s[..0]) == 0;
      assert CutHere(s, quoted, 0) <==> s[0] == ';' && !quoted;
      forall k | k > 0 ensures CutHere(s, quoted, k) <==> CutHere(s[1..], Flip(quoted, s[0]), k - 1) {
        CutHereLater(s, quoted, k);
      }
      if !(s[0] == ';' && !quoted) && !NoCut(s, quoted) {
        var k :| CutHere(s[1..], Flip(quoted, s[0]), k);
        assert CutHere(s, quoted, k + 1);
      }
      if NoCut(s, quoted) {
        forall k ensures !CutHere(s, quoted, k) {
          assert k > 0 ==> !CutHere(s[1..], Flip(quoted, s[0]), k - 1);
        }
      }
    }
  }

  lemma {:induction false} QuotesAdd(a: string, b: string)
    ensures Quotes(a + b) == Quotes(a) + Quotes(b)
  {
    if a == "" {
      assert a + b == b;
    } else {
      assert (a + b)[1..] == a[1..] + b;
      QuotesAdd(a[1..], b);
    }
  }

  lemma {:induction false} NoQuotes(s: string)
    ensures '\'' !in s <==> Quotes(s) == 0
  {
    if s != "" {
      assert s == [s[0]] + s[1..];
      NoQuotes(s[1..]);
    }
  }
}
