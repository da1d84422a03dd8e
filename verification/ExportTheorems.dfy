// Same configuration, same bytes; different configuration, different bytes.
module ExportTheorems {
  import opened Base
  import opened Text
  import opened Lines
  import opened Export

  // --------------------------------------------------------------------------
  // A rendered file as a list of lines
  // --------------------------------------------------------------------------

  function FieldLines(key: string, value: Option<string>): seq<string> {
    if Shown(value) == "" then [] else Pieces("# " + key + " = " + Shown(value), '\n')
  }

  function FactLines(facts: seq<Fact>): seq<string> {
    if facts == [] then [] else FieldLines(facts[0].key, facts[0].value) + FactLines(facts[1..])
  }

  function HeaderLines(name: string, command: string, info: RouterInfo): seq<string> {
    Opening(name) + FactLines(Facts(info)) + Closing(command)
  }

  function Opening(name: string): seq<string> {
    Pieces(TITLE, '\n') + FieldLines("device", Some(name))
  }

  function Closing(command: string): seq<string> {
    FieldLines("command", Some(command)) + ["#"]
  }

  // The captured user state, line by line.
  function UserLines(prefix: string): seq<string> {
    LinesOf(EnsureTrailingNewline(NormalizeNewlines(prefix)))
  }

  // The configuration itself, line by line.
  function BodyLines(exportPart: string): seq<string> {
    DropBanner(LinesOf(NormalizeNewlines(exportPart)))
  }

  function FileLines(prefix: string, exportPart: string, command: string, name: string, info: RouterInfo): seq<string> {
    HeaderLines(name, command, info) + DropTrailingEmpty(RemLines(UserLines(prefix)) + BodyLines(exportPart))
  }

  lemma LinesAreWhole(s: string)
    ensures AllWhole(LinesOf(s))
  {
    var ps := Pieces(s, '\n');
    forall l | l in LinesOf(s) ensures '\n' !in l {
      var i :| 0 <= i < |LinesOf(s)| && LinesOf(s)[i] == l;
      assert ps[i] in ps;
      assert forall c | c in l :: c in ps[i];
    }
  }

  lemma {:induction false} DropBannerIsSuffix(ls: seq<string>)
    ensures var d := DropBanner(ls);
            |d| <= |ls| && d == ls[|ls| - |d|..] && (d != [] ==> !IsBannerLine(d[0]))
  {
    if ls != [] && IsBannerLine(ls[0]) {
      DropBannerIsSuffix(ls[1..]);
    }
  }

  lemma BodyLinesAreWhole(exportPart: string)
    ensures AllWhole(BodyLines(exportPart))
  {
    LinesAreWhole(NormalizeNewlines(exportPart));
    DropBannerIsSuffix(LinesOf(NormalizeNewlines(exportPart)));
  }

  lemma RemLinesAreWhole(ls: seq<string>)
    requires AllWhole(ls)
    ensures AllWhole(RemLines(ls))
  {
    forall l | l in RemLines(ls) ensures '\n' !in l {
      var i :| 0 <= i < |ls| && RemLines(ls)[i] == l;
      assert ls[i] in ls;
    }
  }

  lemma FieldIsLines(key: string, value: Option<string>)
    ensures Field(key, value) == Unlines(FieldLines(key, value))
    ensures AllWhole(FieldLines(key, value))
  {
    if Shown(value) != "" {
      var text := "# " + key + " = " + Shown(value);
      JoinedPieces(text);
      UnlinesIsJoinedNewline(Pieces(text, '\n'));
    }
  }

  lemma {:induction false} FactsAreLines(facts: seq<Fact>)
    ensures Concat(Fields(facts)) == Unlines(FactLines(facts))
    ensures AllWhole(FactLines(facts))
  {
    if facts != [] {
      FieldIsLines(facts[0].key, facts[0].value);
      FactsAreLines(facts[1..]);
      UnlinesConcat(FieldLines(facts[0].key, facts[0].value), FactLines(facts[1..]));
      FirstField(facts);
    }
  }

  lemma FirstField(facts: seq<Fact>)
    requires facts != []
    ensures Concat(Fields(facts)) == Field(facts[0].key, facts[0].value) + Concat(Fields(facts[1..]))
  {
    var first, rest := Field(facts[0].key, facts[0].value), Fields(facts[1..]);
    assert Fields(facts) == [first] + rest;
    OneMoreText(first, rest);
  }

  lemma OpeningIsLines(name: string)
    ensures TITLE + "\n" + Field("device", Some(name)) == Unlines(Opening(name)) && AllWhole(Opening(name))
  {
    JoinedPieces(TITLE);
    UnlinesIsJoinedNewline(Pieces(TITLE, '\n'));
    FieldIsLines("device", Some(name));
    UnlinesConcat(Pieces(TITLE, '\n'), FieldLines("device", Some(name)));
  }

  lemma ClosingIsLines(command: string)
    ensures Field("command", Some(command)) + "#\n" == Unlines(Closing(command)) && AllWhole(Closing(command))
  {
    FieldIsLines("command", Some(command));
    UnlinesConcat(FieldLines("command", Some(command)), ["#"]);
    assert Unlines(["#"]) == "#" + "\n" + Unlines([]);
  }

  lemma HeaderIsLines(name: string, command: string, info: RouterInfo)
    ensures Header(name, command, info) == Unlines(HeaderLines(name, command, info))
    ensures AllWhole(HeaderLines(name, command, info))
  {
    OpeningIsLines(name);
    FactsAreLines(Facts(info));
    ClosingIsLines(command);
    var a, b, c := Opening(name), FactLines(Facts(info)), Closing(command);
    UnlinesConcat(a, b);
    UnlinesConcat(a + b, c);
    HeaderParts(TITLE + "\n" + Field("device", Some(name)), Concat(Fields(Facts(info))), Field("command", Some(command)));
  }

  lemma HeaderParts(a: string, b: string, c: string)
    ensures a + b + c + "#\n" == a + b + (c + "#\n")
  {
  }

  lemma TextOfParts(header: seq<string>, rems: seq<string>, body: seq<string>)
    ensures Unlines(header) + Unlines(rems) + Joined(body) == Joined(header + (rems + if body == [] then [""] else body))
  {
    UnlinesConcat(header, rems);
    UnlinesThenJoined(header + rems, body);
    assert header + rems + (if body == [] then [""] else body) == header + (rems + if body == [] then [""] else body);
  }

  // A file that ends in a newline, whatever empty lines its parts end in.
  lemma FileShape(header: seq<string>, rems: seq<string>, body: seq<string>)
    requires AllWhole(header) && AllWhole(rems) && AllWhole(body)
    requires header != [] && header[|header| - 1] != ""
    ensures EnsureTrailingNewline(Unlines(header) + Unlines(rems) + Joined(body)) ==
            Unlines(header + DropTrailingEmpty(rems + body))
  {
    var all := rems + if body == [] then [""] else body;
    TextOfParts(header, rems, body);
    TrimJoined(header + all);
    PaddingDrops(rems, body);
    HeaderStays(header, all);
  }

  lemma HeaderStays(header: seq<string>, rest: seq<string>)
    requires header != [] && header[|header| - 1] != ""
    ensures DropTrailingEmpty(header + rest) == header + DropTrailingEmpty(rest)
  {
    DropTrailingEmptyAppend(header, rest);
    assert header + [] == header;
  }

  lemma WholeParts(header: seq<string>, rest: seq<string>)
    requires AllWhole(header) && AllWhole(rest)
    ensures AllWhole(header + DropTrailingEmpty(rest))
  {
    DropTrailingEmptyPrefix(rest);
    forall l | l in DropTrailingEmpty(rest) ensures l in rest {
    }
  }

  lemma PaddingDrops(rems: seq<string>, body: seq<string>)
    ensures DropTrailingEmpty(rems + if body == [] then [""] else body) == DropTrailingEmpty(rems + body)
  {
    if body == [] {
      assert (rems + [""])[..|rems|] == rems && rems + body == rems;
    }
  }

  lemma RenderedIsLines(raw: string, prefix: string, exportPart: string, command: string, name: string, info: RouterInfo)
    ensures Rendered(raw, prefix, exportPart, command, name, info, Options(true)) ==
            Unlines(FileLines(prefix, exportPart, command, name, info))
    ensures AllWhole(FileLines(prefix, exportPart, command, name, info))
  {
    HeaderIsLines(name, command, info);
    LinesAreWhole(EnsureTrailingNewline(NormalizeNewlines(prefix)));
    RemLinesAreWhole(UserLines(prefix));
    BodyLinesAreWhole(exportPart);
    FileShape(HeaderLines(name, command, info), RemLines(UserLines(prefix)), BodyLines(exportPart));
    WholeParts(HeaderLines(name, command, info), RemLines(UserLines(prefix)) + BodyLines(exportPart));
  }

  // --------------------------------------------------------------------------
  // The header has one reading
  // --------------------------------------------------------------------------

  ghost predicate Keyed(line: string, key: string) {
    "# " + key + " = " <= line
  }

  lemma KeysExclude(line: string, k: string, l: string)
    requires Keyed(line, k) && Keyed(line, l) && '=' !in k && '=' !in l
    ensures k == l
  {
    var x, y := "# " + k + " = ", "# " + l + " = ";
    assert x[|k| + 3] == '=' && forall i | 0 <= i < |k| + 3 :: x[i] != '=';
    assert y[|l| + 3] == '=' && forall i | 0 <= i < |l| + 3 :: y[i] != '=';
    assert x == line[..|x|] && y == line[..|y|];
    assert |k| == |l|;
    assert k == x[2..2 + |k|] && l == y[2..2 + |l|];
  }

  function Keys(facts: seq<Fact>): set<string> {
    if facts == [] then {} else {facts[0].key} + Keys(facts[1..])
  }

  function Values(facts: seq<Fact>): seq<string> {
    if facts == [] then [] else [Shown(facts[0].value)] + Values(facts[1..])
  }

  // Single-line values under different keys, none of which contains a '='.
  ghost predicate Plain(facts: seq<Fact>) {
    facts == [] ||
    (&& '=' !in facts[0].key && '\n' !in facts[0].key && '\n' !in Shown(facts[0].value)
     && facts[0].key !in Keys(facts[1..])
     && Plain(facts[1..]))
  }

  // The next line belongs to no fact of these keys.
  ghost predicate ClosedBy(facts: seq<Fact>, rest: seq<string>) {
    rest != [] && (facts == [] || (!Keyed(rest[0], facts[0].key) && ClosedBy(facts[1..], rest)))
  }

  ghost predicate SameKeys(a: seq<Fact>, b: seq<Fact>) {
    if a == [] || b == [] then a == b else a[0].key == b[0].key && SameKeys(a[1..], b[1..])
  }

  lemma SingleFieldLine(key: string, value: Option<string>)
    requires '\n' !in Shown(value) && '\n' !in key
    ensures FieldLines(key, value) == if Shown(value) == "" then [] else ["# " + key + " = " + Shown(value)]
  {
    var text := "# " + key + " = " + Shown(value);
    assert '\n' !in text;
    PiecesPrefix(text, "", '\n');
    assert text + "" == text;
  }

  lemma {:induction false} HeadIsNotKeyed(facts: seq<Fact>, rest: seq<string>, key: string)
    requires Plain(facts) && '=' !in key && key !in Keys(facts)
    requires rest != [] && !Keyed(rest[0], key)
    ensures var all := FactLines(facts) + rest; !Keyed(all[0], key)
  {
    if facts != [] {
      var k, v := facts[0].key, facts[0].value;
      SingleFieldLine(k, v);
      if Shown(v) == "" {
        HeadIsNotKeyed(facts[1..], rest, key);
        assert FactLines(facts) == FactLines(facts[1..]);
      } else {
        var line := "# " + k + " = " + Shown(v);
        assert (FactLines(facts) + rest)[0] == line;
        assert Keyed(line, k);
        if Keyed(line, key) {
          KeysExclude(line, k, key);
        }
      }
    }
  }

  // One field and what follows it, when neither follower is keyed the same.
  lemma FieldReadsBack(k: string, v: Option<string>, w: Option<string>, x: seq<string>, y: seq<string>)
    requires '\n' !in Shown(v) && '\n' !in Shown(w) && '\n' !in k
    requires x != [] && y != [] && !Keyed(x[0], k) && !Keyed(y[0], k)
    requires FieldLines(k, v) + x == FieldLines(k, w) + y
    ensures Shown(v) == Shown(w) && x == y
  {
    SingleFieldLine(k, v);
    SingleFieldLine(k, w);
    var lv, lw := "# " + k + " = " + Shown(v), "# " + k + " = " + Shown(w);
    assert Keyed(lv, k) && Keyed(lw, k);
    assert (FieldLines(k, v) + x)[0] == (FieldLines(k, w) + y)[0];
    assert Shown(v) == "" <==> Shown(w) == "";
    if Shown(v) == "" {
      assert FieldLines(k, v) + x == x && FieldLines(k, w) + y == y;
    } else {
      assert Shown(v) == lv[|k| + 5..] && Shown(w) == lw[|k| + 5..];
      assert x == ([lv] + x)[1..] && y == ([lw] + y)[1..];
    }
  }

  lemma {:induction false} SameKeySets(a: seq<Fact>, b: seq<Fact>)
    requires SameKeys(a, b)
    ensures Keys(a) == Keys(b)
  {
    if a != [] {
      SameKeySets(a[1..], b[1..]);
    }
  }

  // Facts that are written under the same keys and followed by foreign lines
  // can be read back: equal lines mean equal values and equal rests.
  lemma {:induction false} FactsReadBack(a: seq<Fact>, b: seq<Fact>, x: seq<string>, y: seq<string>)
    requires SameKeys(a, b) && Plain(a) && Plain(b) && ClosedBy(a, x) && ClosedBy(b, y)
    requires FactLines(a) + x == FactLines(b) + y
    ensures x == y && Values(a) == Values(b)
  {
    if a == [] {
      assert FactLines(a) + x == x && FactLines(b) + y == y;
    } else {
      var k := a[0].key;
      var ra, rb := FactLines(a[1..]) + x, FactLines(b[1..]) + y;
      FactLinesThen(a, x);
      FactLinesThen(b, y);
      SameKeySets(a[1..], b[1..]);
      HeadIsNotKeyed(a[1..], x, k);
      HeadIsNotKeyed(b[1..], y, k);
      FieldReadsBack(k, a[0].value, b[0].value, ra, rb);
      FactsReadBack(a[1..], b[1..], x, y);
    }
  }

  lemma FactLinesThen(facts: seq<Fact>, x: seq<string>)
    requires facts != []
    ensures FactLines(facts) + x == FieldLines(facts[0].key, facts[0].value) + (FactLines(facts[1..]) + x)
  {
    ThreeParts(FieldLines(facts[0].key, facts[0].value), FactLines(facts[1..]), x);
  }

  lemma ThreeParts(a: seq<string>, b: seq<string>, c: seq<string>)
    ensures a + b + c == a + (b + c)
  {
  }

  // --------------------------------------------------------------------------
  // User state and configuration have one reading
  // --------------------------------------------------------------------------

  // Lines that differ only by being whitespace are the same line here.
  function Seen(ls: seq<string>): seq<string> {
    seq(|ls|, i requires 0 <= i < |ls| => if Trim(ls[i]) == "" then "" else ls[i])
  }

  lemma RemLinesInjective(a: seq<string>, b: seq<string>)
    ensures RemLines(a) == RemLines(b) <==> Seen(a) == Seen(b)
  {
    if RemLines(a) == RemLines(b) {
      forall i | 0 <= i < |a| ensures Seen(a)[i] == Seen(b)[i] {
        assert RemLines(a)[i] == RemLines(b)[i];
        assert RemLine(a[i]) == "" || RemLine(a[i])[6..] == a[i];
        assert RemLine(b[i]) == "" || RemLine(b[i])[6..] == b[i];
      }
    }
    if Seen(a) == Seen(b) {
      forall i | 0 <= i < |a| ensures RemLines(a)[i] == RemLines(b)[i] {
        assert Seen(a)[i] == Seen(b)[i];
        TrimOfEmpty();
      }
    }
  }

  lemma TrimOfEmpty()
    ensures Trim("") == ""
  {
  }

  // How many lines are left once blank last ones are dropped.
  function Kept(a: seq<string>): (k: nat)
    ensures k <= |a|
  {
    if a != [] && Trim(a[|a| - 1]) == "" then Kept(a[..|a| - 1]) else |a|
  }

  // Dropping empty last lines, for any image in which blank lines are the empty ones.
  lemma {:induction false} ImageDrops(a: seq<string>, m: seq<string>)
    requires |m| == |a| && forall i | 0 <= i < |a| :: m[i] == "" <==> Trim(a[i]) == ""
    ensures DropTrailingEmpty(m) == m[..Kept(a)]
  {
    var n := |a| - 1;
    if a != [] && m[n] == "" {
      ImageDrops(a[..n], m[..n]);
      assert m[..n][..Kept(a)] == m[..Kept(a)];
    }
  }

  // Dropping empty last lines commutes with commenting.
  lemma RemLinesDrop(a: seq<string>)
    ensures DropTrailingEmpty(RemLines(a)) == RemLines(a[..Kept(a)])
    ensures DropTrailingEmpty(Seen(a)) == Seen(a[..Kept(a)])
  {
    TrimOfEmpty();
    ImageDrops(a, RemLines(a));
    ImageDrops(a, Seen(a));
    RemLinesFront(a, Kept(a));
  }

  lemma RemLinesFront(a: seq<string>, n: nat)
    requires n <= |a|
    ensures RemLines(a)[..n] == RemLines(a[..n]) && Seen(a)[..n] == Seen(a[..n])
  {
    var b := a[..n];
    forall i | 0 <= i < n ensures RemLines(a)[i] == RemLines(b)[i] && Seen(a)[i] == Seen(b)[i] {
      assert a[i] == b[i];
    }
  }

  lemma RemLinesDropInjective(a: seq<string>, b: seq<string>)
    ensures DropTrailingEmpty(RemLines(a)) == DropTrailingEmpty(RemLines(b)) <==>
            DropTrailingEmpty(Seen(a)) == DropTrailingEmpty(Seen(b))
  {
    RemLinesDrop(a);
    RemLinesDrop(b);
    RemLinesInjective(a[..Kept(a)], b[..Kept(b)]);
  }

  ghost predicate AllBanner(ls: seq<string>) {
    forall l | l in ls :: IsBannerLine(l)
  }

  ghost predicate Configuration(body: seq<string>) {
    body == [] || !IsBannerLine(body[0])
  }

  lemma {:induction false} DropBannerOf(a: seq<string>, body: seq<string>)
    requires AllBanner(a) && Configuration(body)
    ensures DropBanner(a + body) == body
  {
    if a == [] {
      assert a + body == body;
    } else {
      assert a[0] in a;
      assert (a + body)[1..] == a[1..] + body;
      DropBannerOf(a[1..], body);
    }
  }

  lemma HashIsBanner(line: string)
    requires StartsWithHash(line)
    ensures IsBannerLine(line)
  {
    assert StripLeft(line, IsWhitespace) == line;
    StripRightSplits(line, IsWhitespace);
    var t := StripRight(line, IsWhitespace);
    assert line[0] in line[0..];
    assert t != "" && t[0] == line[0];
  }

  lemma RemLinesAreBanner(ls: seq<string>)
    ensures AllBanner(RemLines(ls))
  {
    forall l | l in RemLines(ls) ensures IsBannerLine(l) {
      var i :| 0 <= i < |ls| && RemLines(ls)[i] == l;
      if l == "" {
        TrimOfEmpty();
      } else {
        HashIsBanner(l);
      }
    }
  }

  lemma ConfigurationTrims(body: seq<string>)
    requires Configuration(body)
    ensures Configuration(DropTrailingEmpty(body)) && (DropTrailingEmpty(body) == [] <==> body == [])
  {
    DropTrailingEmptyPrefix(body);
    if body != [] {
      TrimOfEmpty();
      assert body[0] != "";
      DropTrailingEmptyAppend([body[0]], body[1..]);
      assert [body[0]] + body[1..] == body;
    }
  }

  // Comment lines followed by configuration: both parts can be read back, up
  // to empty last lines of the file.
  lemma TailReadsBack(r1: seq<string>, b1: seq<string>, r2: seq<string>, b2: seq<string>)
    requires AllBanner(r1) && AllBanner(r2) && Configuration(b1) && Configuration(b2)
    ensures DropTrailingEmpty(r1 + b1) == DropTrailingEmpty(r2 + b2) <==>
            && DropTrailingEmpty(b1) == DropTrailingEmpty(b2)
            && (if b1 == [] then DropTrailingEmpty(r1) == DropTrailingEmpty(r2) else r1 == r2)
  {
    ConfigurationTrims(b1);
    ConfigurationTrims(b2);
    TailParts(r1, b1);
    TailParts(r2, b2);
    OneReading(KeptComments(r1, b1), DropTrailingEmpty(b1), KeptComments(r2, b2), DropTrailingEmpty(b2));
  }

  function KeptComments(comments: seq<string>, body: seq<string>): seq<string> {
    if body == [] then DropTrailingEmpty(comments) else comments
  }

  lemma TailParts(comments: seq<string>, body: seq<string>)
    requires AllBanner(comments) && Configuration(body)
    ensures DropTrailingEmpty(comments + body) == KeptComments(comments, body) + DropTrailingEmpty(body)
    ensures AllBanner(KeptComments(comments, body))
  {
    ConfigurationTrims(body);
    DropTrailingEmptyAppend(comments, body);
    DropTrailingEmptyPrefix(comments);
    var kept := KeptComments(comments, body);
    assert kept <= comments;
    assert kept + [] == kept;
    assert forall l | l in kept :: l in comments;
  }

  lemma OneReading(s1: seq<string>, c1: seq<string>, s2: seq<string>, c2: seq<string>)
    requires AllBanner(s1) && AllBanner(s2) && Configuration(c1) && Configuration(c2)
    ensures s1 + c1 == s2 + c2 <==> s1 == s2 && c1 == c2
  {
    DropBannerOf(s1, c1);
    DropBannerOf(s2, c2);
    if s1 + c1 == s2 + c2 {
      assert s1 == (s1 + c1)[..|s1|] && s2 == (s2 + c2)[..|s2|];
    }
  }

  // --------------------------------------------------------------------------
  // Change detection
  // --------------------------------------------------------------------------

  ghost predicate SameFacts(a: RouterInfo, b: RouterInfo) {
    && Shown(a.identity) == Shown(b.identity) && Shown(a.version) == Shown(b.version)
    && Shown(a.model) == Shown(b.model) && Shown(a.serial) == Shown(b.serial)
    && Shown(a.softwareId) == Shown(b.softwareId) && Shown(a.architecture) == Shown(b.architecture)
  }

  ghost predicate OneLineInfo(info: RouterInfo) {
    && '\n' !in Shown(info.identity) && '\n' !in Shown(info.version) && '\n' !in Shown(info.model)
    && '\n' !in Shown(info.serial) && '\n' !in Shown(info.softwareId) && '\n' !in Shown(info.architecture)
  }

  // The same captured user state. Below a configuration every line counts;
  // with nothing below it, blank last lines cannot be told from none.
  ghost predicate SameUserState(prefix1: string, prefix2: string, underConfiguration: bool) {
    var a, b := Seen(UserLines(prefix1)), Seen(UserLines(prefix2));
    if underConfiguration then a == b else DropTrailingEmpty(a) == DropTrailingEmpty(b)
  }

  ghost predicate SameConfiguration(export1: string, export2: string) {
    TrimNewlines(StripBanner(export1)) == TrimNewlines(StripBanner(export2))
  }

  // The six facts as a chain, so that what is defined on lists can be computed.
  lemma FactChain(info: RouterInfo)
    ensures var f := Facts(info);
            && |f| == 6
            && f == [f[0]] + f[1..] && f[1..] == [f[1]] + f[2..] && f[2..] == [f[2]] + f[3..]
            && f[3..] == [f[3]] + f[4..] && f[4..] == [f[4]] + f[5..] && f[5..] == [f[5]]
            && f[1..][1..] == f[2..] && f[2..][1..] == f[3..] && f[3..][1..] == f[4..] && f[4..][1..] == f[5..] && f[5..][1..] == []
  {
  }

  lemma FactKeySets(info: RouterInfo)
    ensures var f := Facts(info);
            && Keys(f[5..]) == {"routeros"}
            && Keys(f[4..]) == {"routeros", "architecture"}
            && Keys(f[3..]) == {"routeros", "architecture", "software id"}
            && Keys(f[2..]) == {"routeros", "architecture", "software id", "serial number"}
            && Keys(f[1..]) == {"routeros", "architecture", "software id", "serial number", "model"}
  {
    FactChain(info);
    var f := Facts(info);
    assert Keys(f[5..]) == {f[5].key} + Keys([]);
    assert Keys(f[4..]) == {f[4].key} + Keys(f[5..]);
    assert Keys(f[3..]) == {f[3].key} + Keys(f[4..]);
    assert Keys(f[2..]) == {f[2].key} + Keys(f[3..]);
    assert Keys(f[1..]) == {f[1].key} + Keys(f[2..]);
  }

  lemma KeysAreDistinct()
    ensures "architecture" !in {"routeros"}
    ensures "software id" !in {"routeros", "architecture"}
    ensures "serial number" !in {"routeros", "architecture", "software id"}
    ensures "model" !in {"routeros", "architecture", "software id", "serial number"}
    ensures "identity" !in {"routeros", "architecture", "software id", "serial number", "model"}
  {
    assert "software id"[1] == 'o' && "serial number"[1] == 'e';
    assert "architecture"[0] == 'a' && "routeros"[0] == 'r' && "software id"[0] == 's' && "serial number"[0] == 's';
    assert "model"[0] == 'm' && "identity"[0] == 'i';
  }

  lemma KeysAreWhole()
    ensures '=' !in "identity" && '\n' !in "identity" && '=' !in "model" && '\n' !in "model"
    ensures '=' !in "serial number" && '\n' !in "serial number" && '=' !in "software id" && '\n' !in "software id"
    ensures '=' !in "architecture" && '\n' !in "architecture" && '=' !in "routeros" && '\n' !in "routeros"
  {
  }

  lemma FactsArePlain(info: RouterInfo)
    requires OneLineInfo(info)
    ensures Plain(Facts(info))
  {
    var f := Facts(info);
    FactChain(info);
    FactKeySets(info);
    KeysAreDistinct();
    KeysAreWhole();
    assert Plain(f[5..]);
    assert Plain(f[4..]);
    assert Plain(f[3..]);
    assert Plain(f[2..]);
    assert Plain(f[1..]);
  }

  lemma FactsShareKeys(a: RouterInfo, b: RouterInfo)
    ensures SameKeys(Facts(a), Facts(b))
  {
    FactChain(a);
    FactChain(b);
    var f, g := Facts(a), Facts(b);
    assert SameKeys(f[5..], g[5..]);
    assert SameKeys(f[4..], g[4..]);
    assert SameKeys(f[3..], g[3..]);
    assert SameKeys(f[2..], g[2..]);
    assert SameKeys(f[1..], g[1..]);
  }

  lemma FactValues(info: RouterInfo)
    ensures Values(Facts(info)) == [Shown(info.identity), Shown(info.model), Shown(info.serial), Shown(info.softwareId),
                                    Shown(info.architecture), Shown(info.version)]
  {
    FactChain(info);
    var f := Facts(info);
    assert Values(f[5..]) == [Shown(f[5].value)] + Values([]);
    assert Values(f[4..]) == [Shown(f[4].value)] + Values(f[5..]);
    assert Values(f[3..]) == [Shown(f[3].value)] + Values(f[4..]);
    assert Values(f[2..]) == [Shown(f[2].value)] + Values(f[3..]);
    assert Values(f[1..]) == [Shown(f[1].value)] + Values(f[2..]);
  }

  lemma FactsClosed(info: RouterInfo, command: string, rest: seq<string>)
    ensures ClosedBy(Facts(info), Closing(command) + rest)
  {
    var line := (Closing(command) + rest)[0];
    if Shown(Some(command)) != "" {
      assert "# " + "command" + " = " == "# command = ";
      FirstPieceStarts("# command = ", Shown(Some(command)));
    }
    assert line == "#" || "# command = " <= line;
    assert |line| >= 3 ==> line[2] == 'c';
    FactChain(info);
    var f, x := Facts(info), Closing(command) + rest;
    NotKeyedByFirst(line, f[0].key);
    NotKeyedByFirst(line, f[1].key);
    NotKeyedByFirst(line, f[2].key);
    NotKeyedByFirst(line, f[3].key);
    NotKeyedByFirst(line, f[4].key);
    NotKeyedByFirst(line, f[5].key);
    assert ClosedBy([], x);
    assert ClosedBy(f[5..], x);
    assert ClosedBy(f[4..], x);
    assert ClosedBy(f[3..], x);
    assert ClosedBy(f[2..], x);
    assert ClosedBy(f[1..], x);
  }

  lemma NotKeyedByFirst(line: string, key: string)
    requires key != "" && key[0] != 'c' && (|line| >= 3 ==> line[2] == 'c')
    ensures !Keyed(line, key)
  {
    assert ("# " + key + " = ")[2] == key[0];
  }

  lemma FirstPieceStarts(start: string, s: string)
    requires '\n' !in start
    ensures start <= Pieces(start + s, '\n')[0]
  {
    PiecesPrefix(start, s, '\n');
  }

  lemma ConfigurationIsLines(export1: string, export2: string)
    ensures SameConfiguration(export1, export2) <==>
            DropTrailingEmpty(BodyLines(export1)) == DropTrailingEmpty(BodyLines(export2))
  {
    BodyLinesAreWhole(export1);
    BodyLinesAreWhole(export2);
    var a, b := BodyLines(export1), BodyLines(export2);
    TrimJoined(a);
    TrimJoined(b);
    DropTrailingEmptyPrefix(a);
    DropTrailingEmptyPrefix(b);
    var x, y := DropTrailingEmpty(a), DropTrailingEmpty(b);
    if Joined(x) == Joined(y) {
      PiecesOfJoined(x);
      PiecesOfJoined(y);
    }
  }

  // Change detection is sound and complete. For one device name and command,
  // two rendered files are equal exactly when the facts they show, the user
  // state and the configuration are the same. Nothing is asked of the device
  // name or the command; facts must be single lines, which parsed facts are.
  lemma RenderDetectsExactlyTheChanges(raw1: string, prefix1: string, export1: string, info1: RouterInfo,
                                       raw2: string, prefix2: string, export2: string, info2: RouterInfo,
                                       command: string, name: string)
    requires OneLineInfo(info1) && OneLineInfo(info2)
    ensures Rendered(raw1, prefix1, export1, command, name, info1, Options(true)) ==
            Rendered(raw2, prefix2, export2, command, name, info2, Options(true)) <==>
            && SameFacts(info1, info2)
            && SameConfiguration(export1, export2)
            && SameUserState(prefix1, prefix2, StripBanner(export1) != "")
  {
    RenderedIsLines(raw1, prefix1, export1, command, name, info1);
    RenderedIsLines(raw2, prefix2, export2, command, name, info2);
    var f1, f2 := FileLines(prefix1, export1, command, name, info1), FileLines(prefix2, export2, command, name, info2);
    if Unlines(f1) == Unlines(f2) {
      UnlinesInjective(f1, f2);
    }
    TailsReadBack(prefix1, export1, prefix2, export2);
    HeadersReadBack(info1, info2, command, name,
                    DropTrailingEmpty(RemLines(UserLines(prefix1)) + BodyLines(export1)),
                    DropTrailingEmpty(RemLines(UserLines(prefix2)) + BodyLines(export2)));
  }

  lemma HeadersReadBack(info1: RouterInfo, info2: RouterInfo, command: string, name: string, t1: seq<string>, t2: seq<string>)
    requires OneLineInfo(info1) && OneLineInfo(info2)
    ensures HeaderLines(name, command, info1) + t1 == HeaderLines(name, command, info2) + t2 <==>
            SameFacts(info1, info2) && t1 == t2
  {
    FactsClosed(info1, command, t1);
    FactsClosed(info2, command, t2);
    FactsBetween(Opening(name), Closing(command), info1, info2, t1, t2);
  }

  lemma FactsBetween(opening: seq<string>, closing: seq<string>, info1: RouterInfo, info2: RouterInfo, t1: seq<string>, t2: seq<string>)
    requires OneLineInfo(info1) && OneLineInfo(info2)
    requires ClosedBy(Facts(info1), closing + t1) && ClosedBy(Facts(info2), closing + t2)
    ensures opening + FactLines(Facts(info1)) + closing + t1 == opening + FactLines(Facts(info2)) + closing + t2 <==>
            SameFacts(info1, info2) && t1 == t2
  {
    var f1, f2 := FactLines(Facts(info1)), FactLines(Facts(info2));
    FactsShareKeys(info1, info2);
    if opening + f1 + closing + t1 == opening + f2 + closing + t2 {
      Peel(opening, f1, closing, t1);
      Peel(opening, f2, closing, t2);
      FactsArePlain(info1);
      FactsArePlain(info2);
      FactsReadBack(Facts(info1), Facts(info2), closing + t1, closing + t2);
      assert t1 == (closing + t1)[|closing|..] && t2 == (closing + t2)[|closing|..];
      SameValuesSameFacts(info1, info2);
    }
    if SameFacts(info1, info2) {
      FactValues(info1);
      FactValues(info2);
      SameFactLines(Facts(info1), Facts(info2));
    }
  }

  lemma Peel(a: seq<string>, b: seq<string>, c: seq<string>, d: seq<string>)
    ensures (a + b + c + d)[|a|..] == b + (c + d)
  {
  }

  lemma SameValuesSameFacts(a: RouterInfo, b: RouterInfo)
    requires Values(Facts(a)) == Values(Facts(b))
    ensures SameFacts(a, b)
  {
    FactValues(a);
    FactValues(b);
    var v, w := Values(Facts(a)), Values(Facts(b));
    assert v[0] == w[0] && v[1] == w[1] && v[2] == w[2] && v[3] == w[3] && v[4] == w[4] && v[5] == w[5];
  }

  lemma {:induction false} SameFactLines(a: seq<Fact>, b: seq<Fact>)
    requires SameKeys(a, b) && Values(a) == Values(b)
    ensures FactLines(a) == FactLines(b)
  {
    if a != [] {
      assert Values(a)[0] == Values(b)[0] && Values(a)[1..] == Values(a[1..]) && Values(b)[1..] == Values(b[1..]);
      SameFactLines(a[1..], b[1..]);
    }
  }

  lemma TailsReadBack(prefix1: string, export1: string, prefix2: string, export2: string)
    ensures DropTrailingEmpty(RemLines(UserLines(prefix1)) + BodyLines(export1)) ==
            DropTrailingEmpty(RemLines(UserLines(prefix2)) + BodyLines(export2)) <==>
            SameConfiguration(export1, export2) && SameUserState(prefix1, prefix2, StripBanner(export1) != "")
  {
    var u1, u2 := UserLines(prefix1), UserLines(prefix2);
    var b1, b2 := BodyLines(export1), BodyLines(export2);
    RemLinesAreBanner(u1);
    RemLinesAreBanner(u2);
    DropBannerIsSuffix(LinesOf(NormalizeNewlines(export1)));
    DropBannerIsSuffix(LinesOf(NormalizeNewlines(export2)));
    TailReadsBack(RemLines(u1), b1, RemLines(u2), b2);
    ConfigurationIsLines(export1, export2);
    RemLinesInjective(u1, u2);
    RemLinesDropInjective(u1, u2);
    BodyIsEmptyText(b1);
    assert StripBanner(export1) == Joined(b1);
  }

  lemma BodyIsEmptyText(body: seq<string>)
    requires Configuration(body)
    ensures Joined(body) == "" <==> body == []
  {
    if body != [] {
      TrimOfEmpty();
      assert body[0] != "";
    }
  }

  // --------------------------------------------------------------------------
  // Verbatim
  // --------------------------------------------------------------------------

  // With header rewriting off a file is the raw text, one kind of line break
  // and one final newline aside, so that any other difference is a change.
  lemma VerbatimDetectsExactlyTheChanges(raw1: string, prefix1: string, export1: string, info1: RouterInfo,
                                         raw2: string, prefix2: string, export2: string, info2: RouterInfo,
                                         command: string, name: string)
    ensures var file := Rendered(raw1, prefix1, export1, command, name, info1, Options(false));
            && TrimNewlines(file) == TrimNewlines(OnePass(raw1))
            && (file == "" || file == TrimNewlines(file) + "\n")
    ensures Rendered(raw1, prefix1, export1, command, name, info1, Options(false)) ==
            Rendered(raw2, prefix2, export2, command, name, info2, Options(false)) <==>
            TrimNewlines(OnePass(raw1)) == TrimNewlines(OnePass(raw2))
  {
    NormalizeIsOnePass(raw1);
    NormalizeIsOnePass(raw2);
    OneFinalNewline(OnePass(raw1));
    OneFinalNewline(OnePass(raw2));
  }

  lemma OneFinalNewline(text: string)
    ensures TrimNewlines(EnsureTrailingNewline(text)) == TrimNewlines(text)
  {
    var trimmed := TrimNewlines(text);
    StripRightSplits(text, IsNewline);
    if trimmed != "" {
      var ended := trimmed + "\n";
      assert ended[|ended| - 1] == '\n' && ended[..|ended| - 1] == trimmed;
      assert StripRight(trimmed, IsNewline) == trimmed;
    }
  }
}
