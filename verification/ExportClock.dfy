// The capture clock leaves no trace, and nothing but the banner is lost.
module ExportClock {
  import opened Base
  import opened Text
  import opened Lines
  import opened Export
  import opened ExportTheorems

  // --------------------------------------------------------------------------
  // Facts read from a banner are single lines
  // --------------------------------------------------------------------------

  lemma TrimKeeps(s: string, c: char)
    requires c !in s
    ensures c !in Trim(s)
  {
    var t := StripLeft(s, IsWhitespace);
    StripLeftSplits(s, IsWhitespace);
    StripRightSplits(t, IsWhitespace);
  }

  lemma NonEmptyIsOneLine(s: string)
    requires '\n' !in s
    ensures '\n' !in Shown(NonEmpty(s))
  {
    TrimKeeps(s, '\n');
    TrimKeeps(Trim(s), '\n');
  }

  lemma RestIsOneLine(comment: string, k: nat)
    requires '\n' !in comment && k <= |comment|
    ensures '\n' !in Shown(NonEmpty(comment[k..]))
  {
    NonEmptyIsOneLine(comment[k..]);
  }

  lemma PairKeepsOneLine(info: RouterInfo, key: string, value: Option<string>)
    requires OneLineInfo(info) && '\n' !in Shown(value)
    ensures OneLineInfo(LearnPair(info, key, value))
  {
  }

  lemma LearnFromKeepsOneLine(info: RouterInfo, comment: string)
    requires OneLineInfo(info) && '\n' !in comment
    ensures OneLineInfo(LearnFrom(info, comment))
  {
    var version, equals := IndexOf(comment, SEPARATOR), IndexOf(comment, "=");
    if version.Some? {
      RestIsOneLine(comment, version.value + |SEPARATOR|);
    } else if equals.Some? {
      RestIsOneLine(comment, equals.value + 1);
      PairKeepsOneLine(info, Trim(comment[..equals.value]), NonEmpty(comment[equals.value + 1..]));
    }
  }

  lemma LearnKeepsOneLine(info: RouterInfo, line: string)
    requires OneLineInfo(info) && '\n' !in line
    ensures OneLineInfo(Learn(info, line))
  {
    StripLeftSplits(line, IsHash);
    TrimKeeps(StripLeft(line, IsHash), '\n');
    LearnFromKeepsOneLine(info, Comment(line));
  }

  lemma {:induction false} LearnAllKeepsOneLine(info: RouterInfo, banner: seq<string>)
    requires OneLineInfo(info) && AllWhole(banner)
    ensures OneLineInfo(LearnAll(info, banner))
  {
    if banner != [] {
      var n := |banner| - 1;
      assert forall l | l in banner[..n] :: l in banner;
      LearnAllKeepsOneLine(info, banner[..n]);
      assert banner[n] in banner;
      LearnKeepsOneLine(LearnAll(info, banner[..n]), banner[n]);
    }
  }

  lemma {:induction false} BannerLinesAreLines(ls: seq<string>)
    ensures forall l | l in BannerLines(ls) :: l in ls
  {
    if ls != [] {
      BannerLinesAreLines(ls[1..]);
    }
  }

  lemma BannerFactsAreOneLine(raw: string)
    ensures OneLineInfo(FromBanner(raw))
  {
    LinesAreWhole(raw);
    BannerLinesAreLines(LinesOf(raw));
    LearnAllKeepsOneLine(UNKNOWN, BannerLines(LinesOf(raw)));
  }

  // Banner values only fill gaps, and merging keeps facts on one line.
  lemma MergePrefersKnown(a: RouterInfo, b: RouterInfo)
    requires OneLineInfo(a) && OneLineInfo(b)
    ensures OneLineInfo(MergeFrom(a, b))
    ensures MergeFrom(MergeFrom(a, b), b) == MergeFrom(a, b) && MergeFrom(a, UNKNOWN) == MergeFrom(UNKNOWN, a) == a
    ensures Prefers(MergeFrom(a, b).identity, a.identity, b.identity) && Prefers(MergeFrom(a, b).version, a.version, b.version)
    ensures Prefers(MergeFrom(a, b).model, a.model, b.model) && Prefers(MergeFrom(a, b).serial, a.serial, b.serial)
    ensures Prefers(MergeFrom(a, b).softwareId, a.softwareId, b.softwareId)
    ensures Prefers(MergeFrom(a, b).architecture, a.architecture, b.architecture)
  {
  }

  // The value already known where there is one, the other one where there is none.
  ghost predicate Prefers(merged: Option<string>, known: Option<string>, other: Option<string>) {
    (known.Some? ==> merged == known) && (known.None? ==> merged == other)
  }

  // Change detection over raw router output, with no condition at all.
  lemma NormalizeDetectsExactlyTheChanges(raw1: string, raw2: string, command: string, name: string)
    ensures var (prefix1, export1) := Split(raw1);
            var (prefix2, export2) := Split(raw2);
            Normalized(raw1, command, name, Options(true)).contents == Normalized(raw2, command, name, Options(true)).contents <==>
            && SameFacts(FromBanner(export1), FromBanner(export2))
            && SameConfiguration(export1, export2)
            && SameUserState(prefix1, prefix2, StripBanner(export1) != "")
  {
    var (prefix1, export1) := Split(raw1);
    var (prefix2, export2) := Split(raw2);
    BannerFactsAreOneLine(export1);
    BannerFactsAreOneLine(export2);
    RenderDetectsExactlyTheChanges(raw1, prefix1, export1, FromBanner(export1), raw2, prefix2, export2, FromBanner(export2), command, name);
  }

  // --------------------------------------------------------------------------
  // Clock independence
  // --------------------------------------------------------------------------

  // What stands before the separator on a banner line: a comment with a date
  // in it, on one line, in which the separator does not already begin.
  ghost predicate Dated(lead: string) {
    && OneLine(lead)
    && StartsWithHash(StripLeft(lead, IsWhitespace))
    && StripLeft(StripLeft(lead, IsHash), IsWhitespace) != ""
    && IndexOf(lead + SEPARATOR, SEPARATOR) == Some(|lead|)
  }

  ghost predicate Versioned(tail: string) {
    OneLine(tail) && StripRight(tail, IsWhitespace) != ""
  }

  // The comment text of a dated line.
  lemma DatedComment(lead: string, sep: string, tail: string)
    requires StripLeft(StripLeft(lead, IsHash), IsWhitespace) != "" && StripRight(tail, IsWhitespace) != ""
    ensures Comment(lead + sep + tail) ==
            StripLeft(StripLeft(lead, IsHash), IsWhitespace) + sep + StripRight(tail, IsWhitespace)
  {
    var y := StripLeft(lead, IsHash);
    var x := StripLeft(y, IsWhitespace);
    assert lead + sep + tail == lead + (sep + tail);
    assert y != "";
    StripLeftAppend(lead, sep + tail, IsHash);
    StripLeftAppend(y, sep + tail, IsWhitespace);
    assert x + (sep + tail) == (x + sep) + tail;
    StripRightAppend(x + sep, tail, IsWhitespace);
  }

  lemma OccursAt(s: string, part: string, j: nat)
    requires j <= |s|
    ensures part <= s[j..] <==> j + |part| <= |s| && s[j..j + |part|] == part
  {
    if part <= s[j..] {
      assert part == s[j..][..|part|];
    }
  }

  lemma SharedSlice(front: string, x: string, sep: string, version: string, j: nat)
    requires j < |x|
    ensures (x + sep + version)[j..j + |sep|] == (front + x + sep)[|front| + j..|front| + j + |sep|]
  {
  }

  // Only the separator that follows the date is found.
  lemma FindsTheSeparator(front: string, x: string, sep: string, version: string)
    requires sep != "" && IndexOf(front + x + sep, sep) == Some(|front + x|)
    ensures IndexOf(x + sep + version, sep) == Some(|x|)
  {
    var comment := x + sep + version;
    forall j | 0 <= j < |x| ensures !(sep <= comment[j..]) {
      NotBefore(front, x, sep, version, j);
    }
    assert comment[|x|..] == sep + version;
    IndexOfIs(comment, sep, |x|);
  }

  lemma NotBefore(front: string, x: string, sep: string, version: string, j: nat)
    requires sep != "" && IndexOf(front + x + sep, sep) == Some(|front + x|) && j < |x|
    ensures !(sep <= (x + sep + version)[j..])
  {
    SharedSlice(front, x, sep, version, j);
    OccursAt(x + sep + version, sep, j);
    OccursAt(front + x + sep, sep, |front| + j);
    if sep <= (front + x + sep)[|front| + j..] {
      IndexOfIsFirst(front + x + sep, sep, |front| + j);
    }
  }

  // What follows the separator in the comment is the version, and it is found.
  lemma DatedCommentParts(lead: string, sep: string, tail: string)
    requires sep != "" && IndexOf(lead + sep, sep) == Some(|lead|)
    requires StripLeft(StripLeft(lead, IsHash), IsWhitespace) != "" && StripRight(tail, IsWhitespace) != ""
    ensures var comment := Comment(lead + sep + tail);
            var k := IndexOf(comment, sep);
            comment != "" && k.Some? && comment[k.value + |sep|..] == StripRight(tail, IsWhitespace)
  {
    var y := StripLeft(lead, IsHash);
    var x, version := StripLeft(y, IsWhitespace), StripRight(tail, IsWhitespace);
    DatedComment(lead, sep, tail);
    StripLeftSplits(lead, IsHash);
    StripLeftSplits(y, IsWhitespace);
    var front := lead[..|lead| - |x|];
    assert lead == front + x;
    FindsTheSeparator(front, x, sep, version);
    assert (x + sep + version)[|x| + |sep|..] == version;
  }

  lemma HashedLead(lead: string, sep: string, tail: string)
    requires StartsWithHash(StripLeft(lead, IsWhitespace))
    ensures StartsWithHash(StripLeft(lead + sep + tail, IsWhitespace))
  {
    assert lead + sep + tail == lead + (sep + tail);
    StripLeftAppend(lead, sep + tail, IsWhitespace);
  }

  // A dated line is recognised, and teaches the version and nothing of the date.
  lemma DatedLineTeachesVersion(lead: string, tail: string, info: RouterInfo)
    requires Dated(lead) && Versioned(tail)
    ensures var line := lead + SEPARATOR + tail;
            && IsExportBanner(line) && IsBannerLine(line) && StartsWithHash(StripLeft(line, IsWhitespace))
            && Learn(info, line) == info.(version := NonEmpty(StripRight(tail, IsWhitespace)))
  {
    var line := lead + SEPARATOR + tail;
    assert SEPARATOR != "";
    DatedCommentParts(lead, SEPARATOR, tail);
    HashedLead(lead, SEPARATOR, tail);
    HashAfterSpaceIsBanner(line);
  }

  lemma HashAfterSpaceIsBanner(line: string)
    requires StartsWithHash(StripLeft(line, IsWhitespace))
    ensures IsBannerLine(line)
  {
    var t := StripLeft(line, IsWhitespace);
    StripRightSplits(t, IsWhitespace);
    assert t[0] in t[0..];
  }

  lemma {:induction false} LastPieceEmpty(s: string)
    requires s == "" || s[|s| - 1] == '\n'
    ensures var ps := Pieces(s, '\n'); ps[|ps| - 1] == ""
  {
    if |s| > 1 {
      LastPieceEmpty(s[1..]);
    } else if |s| == 1 {
      assert s[1..] == "";
    }
  }

  // Text that ends in a newline is its lines.
  lemma WholeLines(s: string)
    requires s == "" || s[|s| - 1] == '\n'
    ensures var ps := Pieces(s, '\n'); s == Unlines(ps[..|ps| - 1])
  {
    var ps := Pieces(s, '\n');
    var front := ps[..|ps| - 1];
    LastPieceEmpty(s);
    JoinedPieces(s);
    assert ps == front + [""];
    if front != [] {
      JoinedSnoc(front, "");
      UnlinesIsJoinedNewline(front);
    }
  }

  ghost predicate EndsAtLineBreak(s: string) {
    s == "" || s[|s| - 1] in {'\r', '\n'}
  }

  ghost predicate BeginsAtLineBreak(s: string) {
    s == "" || s[0] in {'\r', '\n'}
  }

  ghost predicate NoBannerIn(s: string) {
    forall l | l in Pieces(NormalizeNewlines(s), '\n') :: !IsExportBanner(l)
  }

  lemma NormalizeAround(before: string, line: string, after: string)
    requires EndsAtLineBreak(before) && BeginsAtLineBreak(after) && OneLine(line) && line != ""
    ensures NormalizeNewlines(before + line + after) == NormalizeNewlines(before) + line + NormalizeNewlines(after)
  {
    NormalizeIsOnePass(before + line + after);
    NormalizeIsOnePass(before);
    NormalizeIsOnePass(after);
    assert line[0] in line && line[|line| - 1] in line;
    OnePassConcat(before + line, after);
    OnePassConcat(before, line);
    OnePassFixes(line);
  }

  lemma NormalizedEnds(before: string, after: string)
    requires EndsAtLineBreak(before) && BeginsAtLineBreak(after)
    ensures var b := NormalizeNewlines(before); b == "" || b[|b| - 1] == '\n'
    ensures Pieces(NormalizeNewlines(after), '\n')[0] == ""
  {
    NormalizeIsOnePass(before);
    NormalizeIsOnePass(after);
    if before != "" {
      OnePassEnds(before);
    }
    if after != "" {
      OnePassEnds(after);
    }
  }

  lemma {:induction false} FirstBannerAt(before: seq<string>, line: string, rest: seq<string>)
    requires IsExportBanner(line) && forall l | l in before :: !IsExportBanner(l)
    ensures FirstBanner(before + [line] + rest) == |before|
  {
    var ls := before + [line] + rest;
    assert ls[|before|] == line;
    assert forall j | 0 <= j < |before| :: ls[j] in before;
  }

  // The lines of text whose first part ends in a newline.
  lemma LinesAround(b: string, line: string, a: string)
    requires b == "" || b[|b| - 1] == '\n'
    requires '\n' !in line && Pieces(a, '\n')[0] == ""
    ensures var ps := Pieces(b, '\n');
            Pieces(b + line + a, '\n') == ps[..|ps| - 1] + [line] + Pieces(a, '\n')[1..]
    ensures Pieces(line + a, '\n') == [line] + Pieces(a, '\n')[1..]
  {
    var front := Pieces(b, '\n');
    front := front[..|front| - 1];
    WholeLines(b);
    assert forall l | l in front :: l in Pieces(b, '\n');
    PiecesOfUnlines(front, line + a);
    assert b + line + a == Unlines(front) + (line + a);
    PiecesPrefix(line, a, '\n');
    assert line + "" == line;
  }

  lemma SplitsAt(raw: string, front: seq<string>, line: string, rest: seq<string>)
    requires Pieces(NormalizeNewlines(raw), '\n') == front + [line] + rest
    requires IsExportBanner(line) && forall l | l in front :: !IsExportBanner(l)
    ensures Split(raw) == (Unlines(front), Joined([line] + rest))
  {
    FirstBannerAt(front, line, rest);
    var ls := front + [line] + rest;
    assert ls[..|front|] == front && ls[|front|..] == [line] + rest;
  }

  // The split falls right before the first banner line.
  lemma SplitsBeforeBanner(before: string, line: string, after: string)
    requires EndsAtLineBreak(before) && BeginsAtLineBreak(after) && OneLine(line) && line != ""
    requires NoBannerIn(before) && IsExportBanner(line)
    ensures Split(before + line + after) == (NormalizeNewlines(before), line + NormalizeNewlines(after))
    ensures Pieces(line + NormalizeNewlines(after), '\n') == [line] + Pieces(NormalizeNewlines(after), '\n')[1..]
  {
    var b, a := NormalizeNewlines(before), NormalizeNewlines(after);
    NormalizeAround(before, line, after);
    NormalizedEnds(before, after);
    LinesAround(b, line, a);
    WholeLines(b);
    var front := Pieces(b, '\n');
    front := front[..|front| - 1];
    assert forall l | l in front :: l in Pieces(b, '\n');
    SplitsAt(before + line + after, front, line, Pieces(a, '\n')[1..]);
    JoinedPieces(line + a);
  }

  lemma {:induction false} LearnAllFrom(info: RouterInfo, line: string, rest: seq<string>)
    ensures LearnAll(info, [line] + rest) == LearnAll(Learn(info, line), rest)
  {
    if rest == [] {
      assert [line] + rest == [line] && [line][..0] == [];
    } else {
      var n := |rest| - 1;
      assert ([line] + rest)[..n + 1] == [line] + rest[..n];
      LearnAllFrom(info, line, rest[..n]);
    }
  }

  // The lines below a banner line that opens the export.
  function Below(after: string): seq<string> {
    var rest := Pieces(NormalizeNewlines(after), '\n')[1..];
    if rest != [] && rest[|rest| - 1] == "" then rest[..|rest| - 1] else rest
  }

  lemma {:induction false} PiecesKeep(s: string, c: char)
    requires c !in s
    ensures forall l | l in Pieces(s, '\n') :: c !in l
  {
    if s != "" {
      assert s[0] in s;
      PiecesKeep(s[1..], c);
      assert Pieces(s[1..], '\n')[0] in Pieces(s[1..], '\n');
    }
  }

  lemma NormalTextStays(line: string, after: string)
    requires OneLine(line)
    ensures var text := line + NormalizeNewlines(after); '\r' !in text && NormalizeNewlines(text) == text
  {
    NormalizeIsOnePass(after);
    NormalizedHasNoCr(after);
    var text := line + NormalizeNewlines(after);
    NormalizeIsOnePass(text);
    OnePassFixes(text);
  }

  lemma LinesUnder(text: string, line: string, rest: seq<string>)
    requires '\r' !in text && line != "" && Pieces(text, '\n') == [line] + rest
    ensures LinesOf(text) == [line] + if rest != [] && rest[|rest| - 1] == "" then rest[..|rest| - 1] else rest
  {
    PiecesKeep(text, '\r');
    LinesArePieces(text, [line] + rest);
    if rest != [] {
      assert ([line] + rest)[|rest|] == rest[|rest| - 1];
      assert ([line] + rest)[..|rest|] == [line] + rest[..|rest| - 1];
    }
  }

  lemma LinesBelow(line: string, after: string)
    requires OneLine(line) && line != ""
    requires Pieces(line + NormalizeNewlines(after), '\n') == [line] + Pieces(NormalizeNewlines(after), '\n')[1..]
    ensures LinesOf(line + NormalizeNewlines(after)) == [line] + Below(after)
    ensures NormalizeNewlines(line + NormalizeNewlines(after)) == line + NormalizeNewlines(after)
  {
    NormalTextStays(line, after);
    LinesUnder(line + NormalizeNewlines(after), line, Pieces(NormalizeNewlines(after), '\n')[1..]);
  }

  // Everything normalisation reads off an export whose banner is dated.
  lemma DatedExport(lead: string, tail: string, after: string)
    requires Dated(lead) && Versioned(tail) && BeginsAtLineBreak(after)
    requires var line := lead + SEPARATOR + tail;
             Pieces(line + NormalizeNewlines(after), '\n') == [line] + Pieces(NormalizeNewlines(after), '\n')[1..]
    ensures var text := lead + SEPARATOR + tail + NormalizeNewlines(after);
            && FromBanner(text) == LearnAll(UNKNOWN.(version := NonEmpty(StripRight(tail, IsWhitespace))), BannerLines(Below(after)))
            && StripBanner(text) == Joined(DropBanner(Below(after)))
  {
    var line := lead + SEPARATOR + tail;
    LinesBelow(line, after);
    DatedLineTeachesVersion(lead, tail, UNKNOWN);
    BannerOnTop(line, Below(after));
    LearnAllFrom(UNKNOWN, line, BannerLines(Below(after)));
  }

  lemma BannerOnTop(line: string, below: seq<string>)
    requires IsBannerLine(line) && StartsWithHash(StripLeft(line, IsWhitespace))
    ensures BannerLines([line] + below) == [line] + BannerLines(below)
    ensures DropBanner([line] + below) == DropBanner(below)
  {
    var ls := [line] + below;
    assert ls[0] == line && ls[1..] == below;
  }

  lemma DatedLineIsOneLine(lead: string, tail: string)
    requires OneLine(lead) && OneLine(tail)
    ensures OneLine(lead + SEPARATOR + tail) && lead + SEPARATOR + tail != ""
  {
    assert OneLine(SEPARATOR) && |SEPARATOR| > 0;
  }

  // What a capture with a dated banner is split into.
  lemma DatedCapture(before: string, lead: string, tail: string, after: string)
    requires EndsAtLineBreak(before) && NoBannerIn(before) && BeginsAtLineBreak(after)
    requires Dated(lead) && Versioned(tail)
    ensures var line := lead + SEPARATOR + tail;
            && Split(before + line + after) == (NormalizeNewlines(before), line + NormalizeNewlines(after))
            && FromBanner(line + NormalizeNewlines(after)) ==
               LearnAll(UNKNOWN.(version := NonEmpty(StripRight(tail, IsWhitespace))), BannerLines(Below(after)))
            && StripBanner(line + NormalizeNewlines(after)) == Joined(DropBanner(Below(after)))
  {
    var line := lead + SEPARATOR + tail;
    DatedLineTeachesVersion(lead, tail, UNKNOWN);
    DatedLineIsOneLine(lead, tail);
    SplitsBeforeBanner(before, line, after);
    DatedExport(lead, tail, after);
  }

  // Clock independence: two captures whose banners differ only in the date
  // normalise to the same file and the same facts, whatever is printed before
  // the banner, whatever follows it, and whichever line breaks are used.
  lemma ClockIndependence(before: string, lead1: string, lead2: string, tail: string, after: string, command: string, name: string)
    requires EndsAtLineBreak(before) && NoBannerIn(before) && BeginsAtLineBreak(after)
    requires Dated(lead1) && Dated(lead2) && Versioned(tail)
    ensures Normalized(before + (lead1 + SEPARATOR + tail) + after, command, name, Options(true)) ==
            Normalized(before + (lead2 + SEPARATOR + tail) + after, command, name, Options(true))
  {
    var line1, line2 := lead1 + SEPARATOR + tail, lead2 + SEPARATOR + tail;
    DatedCapture(before, lead1, tail, after);
    DatedCapture(before, lead2, tail, after);
    SameRendering(before + line1 + after, line1 + NormalizeNewlines(after),
                  before + line2 + after, line2 + NormalizeNewlines(after), NormalizeNewlines(before), command, name);
  }

  lemma SameRendering(raw1: string, export1: string, raw2: string, export2: string, prefix: string, command: string, name: string)
    requires Split(raw1) == (prefix, export1) && Split(raw2) == (prefix, export2)
    requires FromBanner(export1) == FromBanner(export2) && StripBanner(export1) == StripBanner(export2)
    ensures Normalized(raw1, command, name, Options(true)) == Normalized(raw2, command, name, Options(true))
  {
  }

  // --------------------------------------------------------------------------
  // Nothing but the banner is lost
  // --------------------------------------------------------------------------

  ghost predicate NoCr(ls: seq<string>) {
    forall l | l in ls :: '\r' !in l
  }

  lemma LinesNoCr(s: string)
    requires '\r' !in s
    ensures NoCr(LinesOf(s))
  {
    PiecesKeep(s, '\r');
    var ps := Pieces(s, '\n');
    forall l | l in LinesOf(s) ensures '\r' !in l {
      var i :| 0 <= i < |LinesOf(s)| && LinesOf(s)[i] == l;
      assert ps[i] in ps;
      StripCrFixes(ps[i]);
    }
  }

  lemma UserLinesNoCr(prefix: string)
    ensures NoCr(UserLines(prefix))
  {
    var text := NormalizeNewlines(prefix);
    NormalizeIsOnePass(prefix);
    NormalizedHasNoCr(prefix);
    StripRightSplits(text, IsNewline);
    LinesNoCr(EnsureTrailingNewline(text));
  }

  lemma BodyLinesNoCr(exportPart: string)
    ensures NoCr(BodyLines(exportPart))
  {
    NormalizeIsOnePass(exportPart);
    NormalizedHasNoCr(exportPart);
    LinesNoCr(NormalizeNewlines(exportPart));
    DropBannerIsSuffix(LinesOf(NormalizeNewlines(exportPart)));
  }

  lemma RemLinesNoCr(ls: seq<string>)
    requires NoCr(ls)
    ensures NoCr(RemLines(ls))
  {
    forall l | l in RemLines(ls) ensures '\r' !in l {
      var i :| 0 <= i < |ls| && RemLines(ls)[i] == l;
      assert ls[i] in ls;
    }
  }

  // What follows the header of a file.
  function TailLines(prefix: string, exportPart: string): seq<string> {
    DropTrailingEmpty(RemLines(UserLines(prefix)) + BodyLines(exportPart))
  }

  lemma TailNoCr(prefix: string, exportPart: string)
    ensures NoCr(TailLines(prefix, exportPart))
  {
    var all := RemLines(UserLines(prefix)) + BodyLines(exportPart);
    UserLinesNoCr(prefix);
    RemLinesNoCr(UserLines(prefix));
    BodyLinesNoCr(exportPart);
    DropTrailingEmptyPrefix(all);
    assert forall l | l in DropTrailingEmpty(all) :: l in all;
  }

  lemma {:induction false} NoCrUnlines(ls: seq<string>)
    requires NoCr(ls)
    ensures '\r' !in Unlines(ls)
  {
    if ls != [] {
      assert ls[0] in ls;
      assert forall l | l in ls[1..] :: l in ls;
      NoCrUnlines(ls[1..]);
    }
  }

  // The lines of the header as stripping reads them back.
  function ReadHeader(name: string, command: string, info: RouterInfo): seq<string> {
    LinesOf(NormalizeNewlines(Header(name, command, info)))
  }

  // Everything of the header but its last line.
  function HeaderStart(name: string, command: string, info: RouterInfo): string {
    TITLE + "\n" + Field("device", Some(name)) + Concat(Fields(Facts(info))) + Field("command", Some(command))
  }

  lemma {:induction false} ConcatEnds(start: string, texts: seq<string>)
    requires start != "" && start[|start| - 1] == '\n'
    requires forall t | t in texts :: Ends(t)
    ensures var all := start + Concat(texts); all != "" && all[|all| - 1] == '\n'
    decreases |texts|
  {
    if texts == [] {
      assert start + "" == start;
    } else {
      assert texts[0] in texts && forall t | t in texts[1..] :: t in texts;
      ConcatEnds(start + texts[0], texts[1..]);
      assert start + (texts[0] + Concat(texts[1..])) == start + texts[0] + Concat(texts[1..]);
    }
  }

  lemma FieldEnds(key: string, value: Option<string>)
    ensures Ends(Field(key, value))
  {
  }

  lemma HeaderStartEnds(name: string, command: string, info: RouterInfo)
    ensures var start := HeaderStart(name, command, info); start != "" && start[|start| - 1] == '\n'
    ensures Header(name, command, info) == HeaderStart(name, command, info) + "#\n"
  {
    FieldEnds("device", Some(name));
    FieldEnds("command", Some(command));
    FieldsEnd(Facts(info));
    PartsEnd(TITLE + "\n", Field("device", Some(name)), Fields(Facts(info)), Field("command", Some(command)));
  }

  ghost predicate Ends(s: string) {
    s == "" || s[|s| - 1] == '\n'
  }

  lemma FieldsEnd(facts: seq<Fact>)
    ensures forall t | t in Fields(facts) :: Ends(t)
  {
    forall t | t in Fields(facts) ensures Ends(t) {
      var i :| 0 <= i < |facts| && Fields(facts)[i] == t;
      FieldEnds(facts[i].key, facts[i].value);
    }
  }

  lemma PartsEnd(a: string, b: string, texts: seq<string>, c: string)
    requires a != "" && Ends(a) && Ends(b) && (forall t | t in texts :: Ends(t)) && Ends(c)
    ensures var all := a + b + Concat(texts) + c; all != "" && Ends(all)
  {
    EndsAfter(a, b);
    ConcatEnds(a + b, texts);
    EndsAfter(a + b + Concat(texts), c);
  }

  lemma EndsAfter(a: string, b: string)
    requires a != "" && a[|a| - 1] == '\n' && (b == "" || b[|b| - 1] == '\n')
    ensures a + b != "" && (a + b)[|a + b| - 1] == '\n'
  {
  }

  // The header as it is read back ends in its empty comment line, and is whole
  // lines without carriage returns.
  lemma HeaderReadsAs(name: string, command: string, info: RouterInfo)
    ensures var header := ReadHeader(name, command, info);
            && OnePass(Header(name, command, info)) == Unlines(header)
            && header != [] && header[|header| - 1] == "#" && AllWhole(header) && NoCr(header)
  {
    var start := HeaderStart(name, command, info);
    HeaderStartEnds(name, command, info);
    OnePassConcat(start, "#\n");
    OnePassFixes("#\n");
    OnePassEnds(start);
    NormalizedHasNoCr(start);
    NormalizeIsOnePass(Header(name, command, info));
    HashClosesLines(OnePass(start));
  }

  lemma HashClosesLines(start: string)
    requires start != "" && start[|start| - 1] == '\n' && '\r' !in start
    ensures var header := LinesOf(start + "#\n");
            start + "#\n" == Unlines(header) && header != [] && header[|header| - 1] == "#" && AllWhole(header) && NoCr(header)
  {
    var ps := Pieces(start, '\n');
    var ls := ps[..|ps| - 1];
    WholeLines(start);
    PiecesKeep(start, '\r');
    assert forall l | l in ls :: l in ps;
    UnlinesConcat(ls, ["#"]);
    assert Unlines(["#"]) == "#" + "\n" + Unlines([]) == "#\n";
    LinesOfUnlines(ls + ["#"]);
  }

  // Stripping a file again: exactly the lines from the first that is no comment.
  lemma StripRendered(raw: string, prefix: string, exportPart: string, command: string, name: string, info: RouterInfo)
    ensures var all := ReadHeader(name, command, info) + TailLines(prefix, exportPart);
            && StripBanner(Rendered(raw, prefix, exportPart, command, name, info, Options(true))) == Joined(DropBanner(all))
            && AllWhole(all)
  {
    var header, tail := Header(name, command, info), TailLines(prefix, exportPart);
    RenderedIsLines(raw, prefix, exportPart, command, name, info);
    HeaderIsLines(name, command, info);
    UnlinesConcat(HeaderLines(name, command, info), tail);
    TailNoCr(prefix, exportPart);
    TailIsWhole(prefix, exportPart);
    HeaderReadsAs(name, command, info);
    HeaderStartEnds(name, command, info);
    ReadsInTwo(header, ReadHeader(name, command, info), tail);
  }

  lemma TailIsWhole(prefix: string, exportPart: string)
    ensures AllWhole(TailLines(prefix, exportPart))
  {
    LinesAreWhole(EnsureTrailingNewline(NormalizeNewlines(prefix)));
    RemLinesAreWhole(UserLines(prefix));
    BodyLinesAreWhole(exportPart);
    WholeParts([], RemLines(UserLines(prefix)) + BodyLines(exportPart));
    assert [] + TailLines(prefix, exportPart) == TailLines(prefix, exportPart);
  }

  lemma ReadsInTwo(header: string, read: seq<string>, tail: seq<string>)
    requires header != "" && header[|header| - 1] == '\n' && OnePass(header) == Unlines(read)
    requires AllWhole(read) && AllWhole(tail) && NoCr(read) && NoCr(tail)
    ensures LinesOf(NormalizeNewlines(header + Unlines(tail))) == read + tail
  {
    NoCrUnlines(tail);
    NormalizeIsOnePass(header + Unlines(tail));
    OnePassConcat(header, Unlines(tail));
    OnePassFixes(Unlines(tail));
    UnlinesConcat(read, tail);
    LinesOfUnlines(read + tail);
  }

  lemma TailStrips(rems: seq<string>, body: seq<string>) returns (s: seq<string>)
    requires AllBanner(rems) && Configuration(body)
    ensures DropTrailingEmpty(rems + body) == s + DropTrailingEmpty(body) && AllBanner(s)
  {
    ConfigurationTrims(body);
    DropTrailingEmptyAppend(rems, body);
    DropTrailingEmptyPrefix(rems);
    if body == [] {
      s := DropTrailingEmpty(rems);
      assert s + [] == s;
      assert forall l | l in s :: l in rems;
    } else {
      s := rems;
    }
  }

  // Stripping the banner of a stored file gives the configuration back, up to
  // newlines at its end, exactly when every line of the header, as it is read
  // back, is a comment or blank.
  lemma StripUndoesRender(raw: string, prefix: string, exportPart: string, command: string, name: string, info: RouterInfo)
    ensures StripBanner(Rendered(raw, prefix, exportPart, command, name, info, Options(true))) == TrimNewlines(StripBanner(exportPart)) <==>
            AllBanner(ReadHeader(name, command, info))
  {
    StripRendered(raw, prefix, exportPart, command, name, info);
    RemLinesAreBanner(UserLines(prefix));
    DropBannerIsSuffix(LinesOf(NormalizeNewlines(exportPart)));
    BodyLinesAreWhole(exportPart);
    TrimJoined(BodyLines(exportPart));
    HeaderReadsAs(name, command, info);
    HashIsBanner("#");
    StripsParts(ReadHeader(name, command, info), RemLines(UserLines(prefix)), BodyLines(exportPart));
  }

  // No carriage return in anything written into the header.
  ghost predicate HeaderNoCr(name: string, command: string, info: RouterInfo) {
    NoCr(HeaderLines(name, command, info))
  }

  // Which single-line names, commands and facts guarantee.
  lemma SingleLinesComeBack(raw: string, prefix: string, exportPart: string, command: string, name: string, info: RouterInfo)
    requires HeaderNoCr(name, command, info) && '\n' !in name && '\n' !in command && OneLineInfo(info)
    ensures StripBanner(Rendered(raw, prefix, exportPart, command, name, info, Options(true))) == TrimNewlines(StripBanner(exportPart))
  {
    HeaderIsLines(name, command, info);
    NoCrUnlines(HeaderLines(name, command, info));
    NormalizeIsOnePass(Header(name, command, info));
    OnePassFixes(Header(name, command, info));
    LinesOfUnlines(HeaderLines(name, command, info));
    SingleLineHeaderIsBanner(name, command, info);
    StripUndoesRender(raw, prefix, exportPart, command, name, info);
  }

  lemma StripsParts(header: seq<string>, rems: seq<string>, body: seq<string>)
    requires AllBanner(rems) && Configuration(body)
    requires header != [] && IsBannerLine(header[|header| - 1])
    requires AllWhole(header + DropTrailingEmpty(rems + body))
    ensures Joined(DropBanner(header + DropTrailingEmpty(rems + body))) == Joined(DropTrailingEmpty(body)) <==> AllBanner(header)
  {
    ConfigurationTrims(body);
    var s := TailStrips(rems, body);
    StripsTail(header, DropTrailingEmpty(rems + body), s, DropTrailingEmpty(body));
  }

  lemma StripsTail(header: seq<string>, tail: seq<string>, s: seq<string>, body: seq<string>)
    requires tail == s + body && AllBanner(s) && Configuration(body) && AllWhole(header + tail)
    requires header != [] && IsBannerLine(header[|header| - 1])
    ensures Joined(DropBanner(header + tail)) == Joined(body) <==> AllBanner(header)
  {
    assert header + tail == header + s + body;
    StripsExactlyBanner(header, s, body);
  }

  lemma StripsExactlyBanner(header: seq<string>, s: seq<string>, body: seq<string>)
    requires AllBanner(s) && Configuration(body) && AllWhole(header + s + body)
    requires header != [] && IsBannerLine(header[|header| - 1])
    ensures Joined(DropBanner(header + s + body)) == Joined(body) <==> AllBanner(header)
  {
    if AllBanner(header) {
      DropBannerOf(header + s, body);
    } else {
      var k := FirstOther(header);
      assert AllBanner(header[..k]);
      Regroup(header, k, s, body);
      StopsEarly(header[..k], header[k..] + s, body);
    }
  }

  lemma Regroup(header: seq<string>, k: nat, s: seq<string>, body: seq<string>)
    requires k < |header| && AllWhole(header + s + body)
    ensures header + s + body == header[..k] + (header[k..] + s + body)
    ensures AllWhole(header[k..] + s) && AllWhole(body)
    ensures (header[k..] + s)[0] == header[k]
  {
    assert forall l | l in header[k..] + s :: l in header + s + body;
    assert forall l | l in body :: l in header + s + body;
  }

  lemma StopsEarly(comments: seq<string>, other: seq<string>, body: seq<string>)
    requires AllBanner(comments) && |other| >= 2 && !IsBannerLine(other[0])
    requires AllWhole(other) && AllWhole(body)
    ensures Joined(DropBanner(comments + (other + body))) != Joined(body)
  {
    DropBannerOf(comments, other + body);
    PiecesOfJoined(other + body);
    PiecesOfJoined(body);
    assert |other + body| != |body| && |other + body| > 1;
  }

  function FirstOther(ls: seq<string>): (k: nat)
    requires exists l | l in ls :: !IsBannerLine(l)
    ensures k < |ls| && !IsBannerLine(ls[k]) && forall j | 0 <= j < k :: IsBannerLine(ls[j])
  {
    if !IsBannerLine(ls[0]) then 0 else 1 + FirstOther(ls[1..])
  }

  lemma SingleLineHeaderIsBanner(name: string, command: string, info: RouterInfo)
    requires '\n' !in name && '\n' !in command && OneLineInfo(info)
    ensures AllBanner(HeaderLines(name, command, info))
  {
    TitleIsOneLine();
    TitleIsBanner();
    HashIsBanner("#");
    OneLineFieldIsBanner("device", name);
    OneLineFieldIsBanner("command", command);
    FactsArePlain(info);
    PlainFactsAreBanner(Facts(info));
    assert Opening(name) == [TITLE] + FieldLines("device", Some(name));
    assert Closing(command) == FieldLines("command", Some(command)) + ["#"];
    BannerParts([TITLE], FieldLines("device", Some(name)), FactLines(Facts(info)), FieldLines("command", Some(command)), ["#"]);
  }

  lemma BannerParts(a: seq<string>, b: seq<string>, c: seq<string>, d: seq<string>, e: seq<string>)
    requires AllBanner(a) && AllBanner(b) && AllBanner(c) && AllBanner(d) && AllBanner(e)
    ensures AllBanner((a + b) + c + (d + e))
  {
  }

  lemma TitleIsBanner()
    ensures IsBannerLine(TITLE)
  {
    assert TITLE[0] == '#';
    HashIsBanner(TITLE);
  }

  lemma OneLineFieldIsBanner(key: string, value: string)
    requires '\n' !in key && '\n' !in value
    ensures AllBanner(FieldLines(key, Some(value)))
  {
    TrimKeeps(value, '\n');
    FieldIsBanner(key, Some(value));
  }

  lemma TitleIsOneLine()
    ensures Pieces(TITLE, '\n') == [TITLE]
  {
    WordsAreOneLine();
    assert '\n' !in TITLE;
    OneWholePiece(TITLE);
  }

  lemma WordsAreOneLine()
    ensures '\n' !in "# RouterOS " && '\n' !in "configuration " && '\n' !in "export " && '\n' !in "captured by " && '\n' !in "DonDude"
  {
  }

  lemma OneWholePiece(s: string)
    requires '\n' !in s
    ensures Pieces(s, '\n') == [s]
  {
    PiecesPrefix(s, "", '\n');
    assert s + "" == s;
  }

  lemma FieldIsBanner(key: string, value: Option<string>)
    requires '\n' !in key && '\n' !in Shown(value)
    ensures AllBanner(FieldLines(key, value))
  {
    SingleFieldLine(key, value);
    HashIsBanner("# " + key + " = " + Shown(value));
  }

  lemma {:induction false} PlainFactsAreBanner(facts: seq<Fact>)
    requires Plain(facts)
    ensures AllBanner(FactLines(facts))
  {
    if facts != [] {
      FieldIsBanner(facts[0].key, facts[0].value);
      PlainFactsAreBanner(facts[1..]);
    }
  }
}
