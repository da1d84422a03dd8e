// The string operations of the Rust standard library that the program relies on.
module Text {
  import opened Base

  // Unicode White_Space, as char::is_whitespace decides it.
  predicate IsWhitespace(c: char) {
    || '\t' <= c <= '\r'
    || c in {' ', '\U{85}', '\U{A0}', '\U{1680}', '\U{2028}', '\U{2029}', '\U{202F}', '\U{205F}', '\U{3000}'}
    || '\U{2000}' <= c <= '\U{200A}'
  }

  function AsciiLower(c: char): char {
    if 'A' <= c <= 'Z' then c - 'A' + 'a' else c
  }

  function StripLeft(s: string, p: char -> bool): string {
    if s != "" && p(s[0]) then StripLeft(s[1..], p) else s
  }

  function StripRight(s: string, p: char -> bool): string {
    if s != "" && p(s[|s| - 1]) then StripRight(s[..|s| - 1], p) else s
  }

  function Trim(s: string): string {
    StripRight(StripLeft(s, IsWhitespace), IsWhitespace)
  }

  predicate Blank(s: string) {
    forall c | c in s :: IsWhitespace(c)
  }

  // str::replace: leftmost, non-overlapping occurrences.
  function ReplaceAll(s: string, token: string, text: string): string
    requires token != ""
  {
    if s == "" then ""
    else if token <= s then text + ReplaceAll(s[|token|..], token, text)
    else [s[0]] + ReplaceAll(s[1..], token, text)
  }

  // str::split on one character; always at least one piece.
  function Pieces(s: string, sep: char): (ps: seq<string>)
    ensures ps != []
    ensures forall p | p in ps :: sep !in p
  {
    if s == "" then [""]
    else
      var rest := Pieces(s[1..], sep);
      if s[0] == sep then [""] + rest
      else [[s[0]] + rest[0]] + rest[1..]
  }

  // str::find: where `part` first begins.
  function IndexOf(s: string, part: string): (k: Option<nat>)
    ensures k.Some? ==> k.value + |part| <= |s| && part <= s[k.value..]
  {
    if part <= s then Some(0)
    else if s == "" then None
    else
      match IndexOf(s[1..], part)
      case None => None
      case Some(k) => Some(k + 1)
  }

  predicate Contains(s: string, part: string) {
    IndexOf(s, part).Some?
  }

  // --------------------------------------------------------------------------

  // What StripLeft removes and where it stops.
  lemma {:induction false} StripLeftSplits(s: string, p: char -> bool)
    ensures var t := StripLeft(s, p);
            && |t| <= |s| && s == s[..|s| - |t|] + t
            && (forall c | c in s[..|s| - |t|] :: p(c))
            && (t != "" ==> !p(t[0]))
  {
    if s != "" && p(s[0]) {
      StripLeftSplits(s[1..], p);
      var t := StripLeft(s[1..], p);
      assert s[..|s| - |t|] == [s[0]] + s[1..][..|s| - 1 - |t|];
    } else {
      assert s[..0] == "";
    }
  }

  lemma {:induction false} StripRightSplits(s: string, p: char -> bool)
    ensures var t := StripRight(s, p);
            && |t| <= |s| && s == t + s[|t|..]
            && (forall c | c in s[|t|..] :: p(c))
            && (t != "" ==> !p(t[|t| - 1]))
  {
    if s != "" && p(s[|s| - 1]) {
      var u := s[..|s| - 1];
      StripRightSplits(u, p);
      var t := StripRight(u, p);
      assert s[|t|..] == u[|t|..] + [s[|s| - 1]];
    }
  }

  // Prefixing separator-free text lengthens the first piece.
  lemma {:induction false} PiecesPrefix(t: string, s: string, sep: char)
    requires sep !in t
    ensures Pieces(t + s, sep) == [t + Pieces(s, sep)[0]] + Pieces(s, sep)[1..]
  {
    if t == "" {
      assert t + s == s && t + Pieces(s, sep)[0] == Pieces(s, sep)[0];
    } else {
      assert (t + s)[1..] == t[1..] + s;
      PiecesPrefix(t[1..], s, sep);
      assert [t[0]] + (t[1..] + Pieces(s, sep)[0]) == t + Pieces(s, sep)[0];
    }
  }

  function MapReplace(ps: seq<string>, token: string, text: string): (qs: seq<string>)
    requires token != ""
    ensures |qs| == |ps| && forall i | 0 <= i < |ps| :: qs[i] == ReplaceAll(ps[i], token, text)
  {
    if ps == [] then [] else [ReplaceAll(ps[0], token, text)] + MapReplace(ps[1..], token, text)
  }

  lemma {:induction false} FirstPieceIsPrefix(s: string, sep: char)
    ensures Pieces(s, sep)[0] <= s
  {
    if s != "" && s[0] != sep {
      FirstPieceIsPrefix(s[1..], sep);
    }
  }

  // Replacing text that contains no separator, by text that contains none,
  // acts on every piece separately.
  lemma {:induction false} ReplaceActsOnPieces(s: string, token: string, text: string, sep: char)
    requires token != "" && sep !in token && sep !in text
    ensures Pieces(ReplaceAll(s, token, text), sep) == MapReplace(Pieces(s, sep), token, text)
    decreases |s|
  {
    if s == "" {
    } else if token <= s {
      var rest := s[|token|..];
      assert s == token + rest;
      ReplaceActsOnPieces(rest, token, text, sep);
      PiecesPrefix(token, rest, sep);
      PiecesPrefix(text, ReplaceAll(rest, token, text), sep);
      var first := Pieces(rest, sep)[0];
      assert (token + first)[|token|..] == first;
    } else {
      var rest := s[1..];
      ReplaceActsOnPieces(rest, token, text, sep);
      FirstPieceIsPrefix(s, sep);
      if s[0] == sep {
        PiecesOfSeparator(ReplaceAll(rest, token, text), sep);
      } else {
        var first := Pieces(rest, sep)[0];
        PiecesPrefix([s[0]], ReplaceAll(rest, token, text), sep);
        assert !(token <= [s[0]] + first);
        assert ([s[0]] + first)[1..] == first;
      }
    }
  }

  lemma PiecesOfSeparator(s: string, sep: char)
    ensures Pieces([sep] + s, sep) == [""] + Pieces(s, sep)
  {
    assert ([sep] + s)[1..] == s;
  }

  lemma {:induction false} IndexOfIs(s: string, part: string, k: nat)
    requires part != "" && k <= |s| && part <= s[k..]
    requires forall j | 0 <= j < k :: !(part <= s[j..])
    ensures IndexOf(s, part) == Some(k)
  {
    if k > 0 {
      assert !(part <= s[0..]) && s[0..] == s;
      assert s[1..][k - 1..] == s[k..];
      forall j | 0 <= j < k - 1 ensures !(part <= s[1..][j..]) {
        assert s[1..][j..] == s[j + 1..];
      }
      IndexOfIs(s[1..], part, k - 1);
    }
  }

  lemma {:induction false} IndexOfIsFirst(s: string, part: string, j: nat)
    requires part != "" && j <= |s| && part <= s[j..]
    ensures IndexOf(s, part).Some? && IndexOf(s, part).value <= j
  {
    if part <= s {
    } else {
      assert s[0..] == s;
      assert s[1..][j - 1..] == s[j..];
      IndexOfIsFirst(s[1..], part, j - 1);
    }
  }

  lemma {:induction false} StripLeftAppend(s: string, t: string, p: char -> bool)
    requires StripLeft(s, p) != ""
    ensures StripLeft(s + t, p) == StripLeft(s, p) + t
  {
    if s != "" && p(s[0]) {
      assert (s + t)[1..] == s[1..] + t;
      StripLeftAppend(s[1..], t, p);
    }
  }

  lemma {:induction false} StripRightAppend(s: string, t: string, p: char -> bool)
    requires StripRight(t, p) != ""
    ensures StripRight(s + t, p) == s + StripRight(t, p)
  {
    if t != "" && p(t[|t| - 1]) {
      assert (s + t)[..|s + t| - 1] == s + t[..|t| - 1];
      StripRightAppend(s, t[..|t| - 1], p);
    }
  }
}
