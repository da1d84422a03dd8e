// Text as a list of lines, and the newline handling of src/routeros/export.rs.
module Lines {
  import opened Text

  predicate IsNewline(c: char) {
    c == '\n'
  }

  // No line break of either kind.
  predicate OneLine(s: string) {
    '\n' !in s && '\r' !in s
  }

  ghost predicate AllWhole(ls: seq<string>) {
    forall l | l in ls :: '\n' !in l
  }

  // Every line with its newline.
  function Unlines(ls: seq<string>): string {
    if ls == [] then "" else ls[0] + "\n" + Unlines(ls[1..])
  }

  // [_].join("\n")
  function Joined(ls: seq<string>): string {
    if ls == [] then "" else if |ls| == 1 then ls[0] else ls[0] + "\n" + Joined(ls[1..])
  }

  function StripCr(s: string): string {
    if s != "" && s[|s| - 1] == '\r' then s[..|s| - 1] else s
  }

  // str::lines: a final newline opens no further line.
  function LinesOf(s: string): seq<string> {
    var ps := Pieces(s, '\n');
    var n := |ps| - 1;
    seq(n, i requires 0 <= i < n => StripCr(ps[i])) + if ps[n] == "" then [] else [ps[n]]
  }

  function NormalizeNewlines(s: string): string {
    ReplaceAll(ReplaceAll(s, "\r\n", "\n"), "\r", "\n")
  }

  function TrimNewlines(s: string): string {
    StripRight(s, IsNewline)
  }

  function EnsureTrailingNewline(s: string): string {
    var trimmed := TrimNewlines(s);
    if trimmed == "" then "" else trimmed + "\n"
  }

  function DropTrailingEmpty(ls: seq<string>): seq<string> {
    if ls != [] && ls[|ls| - 1] == "" then DropTrailingEmpty(ls[..|ls| - 1]) else ls
  }

  // --------------------------------------------------------------------------
  // Lines and text determine each other
  // --------------------------------------------------------------------------

  lemma PiecesOfLine(l: string, rest: string)
    requires '\n' !in l
    ensures Pieces(l + "\n" + rest, '\n') == [l] + Pieces(rest, '\n')
  {
    assert l + "\n" + rest == l + (['\n'] + rest);
    PiecesPrefix(l, ['\n'] + rest, '\n');
    PiecesOfSeparator(rest, '\n');
    assert l + "" == l;
  }

  lemma FirstOfUnlines(ls: seq<string>, t: string)
    requires ls != []
    ensures Unlines(ls) + t == ls[0] + "\n" + (Unlines(ls[1..]) + t)
  {
  }

  lemma {:induction false} PiecesOfUnlines(ls: seq<string>, t: string)
    requires AllWhole(ls)
    ensures Pieces(Unlines(ls) + t, '\n') == ls + Pieces(t, '\n')
  {
    if ls == [] {
      assert Unlines(ls) + t == t;
    } else {
      FirstOfUnlines(ls, t);
      PiecesOfLine(ls[0], Unlines(ls[1..]) + t);
      PiecesOfUnlines(ls[1..], t);
    }
  }

  lemma {:induction false} PiecesOfJoined(ls: seq<string>)
    requires AllWhole(ls)
    ensures Pieces(Joined(ls), '\n') == if ls == [] then [""] else ls
  {
    if |ls| == 1 {
      PiecesPrefix(ls[0], "", '\n');
      assert ls[0] + "" == ls[0];
    } else if |ls| > 1 {
      PiecesOfLine(ls[0], Joined(ls[1..]));
      PiecesOfJoined(ls[1..]);
    }
  }

  lemma {:induction false} JoinedPieces(s: string)
    ensures Joined(Pieces(s, '\n')) == s
  {
    if s != "" {
      JoinedPieces(s[1..]);
    }
  }

  lemma UnlinesInjective(a: seq<string>, b: seq<string>)
    requires AllWhole(a) && AllWhole(b) && Unlines(a) == Unlines(b)
    ensures a == b
  {
    PiecesOfUnlines(a, "");
    PiecesOfUnlines(b, "");
    assert Unlines(a) + "" == Unlines(a) && Unlines(b) + "" == Unlines(b);
    var p, q := a + [""], b + [""];
    assert a == p[..|p| - 1] && b == q[..|q| - 1];
  }

  lemma {:induction false} UnlinesConcat(a: seq<string>, b: seq<string>)
    ensures Unlines(a + b) == Unlines(a) + Unlines(b)
  {
    if a == [] {
      assert a + b == b;
    } else {
      assert (a + b)[1..] == a[1..] + b;
      UnlinesConcat(a[1..], b);
    }
  }

  lemma {:induction false} UnlinesThenJoined(a: seq<string>, b: seq<string>)
    ensures Unlines(a) + Joined(b) == Joined(a + if b == [] then [""] else b)
  {
    var c := if b == [] then [""] else b;
    if a == [] {
      assert a + c == c;
    } else {
      assert (a + c)[1..] == a[1..] + c;
      UnlinesThenJoined(a[1..], b);
      assert a[0] + "\n" + Unlines(a[1..]) + Joined(b) == a[0] + "\n" + (Unlines(a[1..]) + Joined(b));
    }
  }

  lemma {:induction false} JoinedSnoc(a: seq<string>, l: string)
    requires a != []
    ensures Joined(a + [l]) == Joined(a) + "\n" + l
  {
    if |a| == 1 {
      assert (a + [l])[1..] == [l];
    } else {
      assert (a + [l])[1..] == a[1..] + [l];
      JoinedSnoc(a[1..], l);
    }
  }

  lemma {:induction false} UnlinesIsJoinedNewline(a: seq<string>)
    requires a != []
    ensures Unlines(a) == Joined(a) + "\n"
  {
    if |a| > 1 {
      UnlinesIsJoinedNewline(a[1..]);
    }
  }

  // Trimming the text is dropping its empty last lines.
  lemma {:induction false} TrimJoined(ls: seq<string>)
    requires AllWhole(ls)
    ensures TrimNewlines(Joined(ls)) == Joined(DropTrailingEmpty(ls))
    ensures EnsureTrailingNewline(Joined(ls)) == Unlines(DropTrailingEmpty(ls))
    ensures DropTrailingEmpty(ls) == [] <==> TrimNewlines(Joined(ls)) == ""
  {
    if ls != [] {
      var n := |ls| - 1;
      var front, last := ls[..n], ls[n];
      assert ls == front + [last];
      if last == "" {
        TrimJoined(front);
        if n > 0 {
          JoinedSnoc(front, last);
          assert Joined(ls)[..|Joined(ls)| - 1] == Joined(front);
        }
      } else {
        if n > 0 {
          JoinedSnoc(front, last);
        }
        assert Joined(ls)[|Joined(ls)| - 1] == last[|last| - 1];
        assert last[|last| - 1] in last;
        UnlinesIsJoinedNewline(ls);
      }
    }
  }

  lemma {:induction false} DropTrailingEmptyAppend(a: seq<string>, b: seq<string>)
    ensures DropTrailingEmpty(a + b) == if DropTrailingEmpty(b) == [] then DropTrailingEmpty(a) else a + DropTrailingEmpty(b)
  {
    if b == [] {
      assert a + b == a;
    } else if b[|b| - 1] == "" {
      assert (a + b)[..|a + b| - 1] == a + b[..|b| - 1];
      DropTrailingEmptyAppend(a, b[..|b| - 1]);
    }
  }

  lemma {:induction false} DropTrailingEmptyPrefix(a: seq<string>)
    ensures DropTrailingEmpty(a) <= a
    ensures var d := DropTrailingEmpty(a); d != [] ==> d[|d| - 1] != ""
  {
    if a != [] && a[|a| - 1] == "" {
      DropTrailingEmptyPrefix(a[..|a| - 1]);
    }
  }

  lemma StripCrFixes(l: string)
    requires '\r' !in l
    ensures StripCr(l) == l
  {
    if l != "" {
      assert l[|l| - 1] in l;
    }
  }

  // The lines of text without carriage returns are its pieces, less an empty last one.
  lemma LinesArePieces(s: string, ps: seq<string>)
    requires Pieces(s, '\n') == ps && forall l | l in ps :: '\r' !in l
    ensures LinesOf(s) == if ps[|ps| - 1] == "" then ps[..|ps| - 1] else ps
  {
    forall i | 0 <= i < |ps| ensures StripCr(ps[i]) == ps[i] {
      StripCrFixes(ps[i]);
    }
  }

  lemma LinesOfUnlines(ls: seq<string>)
    requires AllWhole(ls) && forall l | l in ls :: '\r' !in l
    ensures LinesOf(Unlines(ls)) == ls
  {
    PiecesOfUnlines(ls, "");
    assert Unlines(ls) + "" == Unlines(ls);
    LinesArePieces(Unlines(ls), ls + [""]);
  }

  // --------------------------------------------------------------------------
  // Carriage returns
  // --------------------------------------------------------------------------

  // The two replacements as one pass.
  function OnePass(s: string): string {
    if s == "" then ""
    else if s[0] != '\r' then [s[0]] + OnePass(s[1..])
    else if |s| > 1 && s[1] == '\n' then "\n" + OnePass(s[2..])
    else "\n" + OnePass(s[1..])
  }

  lemma {:induction false} NormalizeIsOnePass(s: string)
    ensures NormalizeNewlines(s) == OnePass(s)
    decreases |s|
  {
    if s != "" {
      if |s| > 1 && s[0] == '\r' && s[1] == '\n' {
        assert "\r\n" <= s;
        NormalizeIsOnePass(s[2..]);
        var rest := ReplaceAll(s[2..], "\r\n", "\n");
        assert ("\n" + rest)[1..] == rest;
        assert !("\r" <= "\n" + rest);
      } else {
        assert !("\r\n" <= s);
        NormalizeIsOnePass(s[1..]);
        var rest := ReplaceAll(s[1..], "\r\n", "\n");
        assert ([s[0]] + rest)[1..] == rest;
      }
    }
  }

  lemma {:induction false} NormalizedHasNoCr(s: string)
    ensures '\r' !in OnePass(s)
    decreases |s|
  {
    if s != "" {
      if s[0] != '\r' || |s| == 1 || s[1] != '\n' {
        NormalizedHasNoCr(s[1..]);
      } else {
        NormalizedHasNoCr(s[2..]);
      }
    }
  }

  lemma {:induction false} OnePassFixes(s: string)
    requires '\r' !in s
    ensures OnePass(s) == s
  {
    if s != "" {
      assert s[0] in s;
      OnePassFixes(s[1..]);
    }
  }

  lemma {:induction false} OnePassConcat(s: string, t: string)
    requires s == "" || t == "" || s[|s| - 1] != '\r' || t[0] != '\n'
    ensures OnePass(s + t) == OnePass(s) + OnePass(t)
    decreases |s|
  {
    if s == "" {
      assert s + t == t;
    } else if s[0] == '\r' && |s| > 1 && s[1] == '\n' {
      assert (s + t)[2..] == s[2..] + t;
      OnePassConcat(s[2..], t);
    } else {
      assert (s + t)[1..] == s[1..] + t;
      OnePassConcat(s[1..], t);
    }
  }

  lemma {:induction false} OnePassEnds(s: string)
    requires s != ""
    ensures OnePass(s) != ""
    ensures s[|s| - 1] in {'\r', '\n'} <==> OnePass(s)[|OnePass(s)| - 1] == '\n'
    ensures s[0] in {'\r', '\n'} <==> OnePass(s)[0] == '\n'
    decreases |s|
  {
    if |s| > 2 || (|s| == 2 && !(s[0] == '\r' && s[1] == '\n')) {
      if s[0] == '\r' && s[1] == '\n' {
        OnePassEnds(s[2..]);
      } else {
        OnePassEnds(s[1..]);
      }
    } else if |s| == 2 {
      assert s[2..] == "" && OnePass(s) == "\n";
    }
  }
}
