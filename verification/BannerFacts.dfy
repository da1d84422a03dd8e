// What the export banner and the header of a stored file have in common: the
// header, read as a banner, teaches again what was written into it.
module BannerFacts {
  import opened Base
  import opened Text
  import opened Lines
  import opened Export
  import opened ExportTheorems
  import opened ExportClock

  // --------------------------------------------------------------------------
  // One line
  // --------------------------------------------------------------------------

  // Neither end is whitespace.
  ghost predicate Tight(s: string) {
    s != "" && !IsWhitespace(s[0]) && !IsWhitespace(s[|s| - 1])
  }

  lemma TightStays(s: string)
    requires Tight(s)
    ensures Trim(s) == s && NonEmpty(s) == Some(s)
  {
  }

  lemma ShownIsTight(value: Option<string>)
    ensures Shown(value) != "" ==> Tight(Shown(value))
  {
    if value.Some? {
      var left := StripLeft(value.value, IsWhitespace);
      StripLeftSplits(value.value, IsWhitespace);
      StripRightSplits(left, IsWhitespace);
      if Shown(value) != "" {
        assert Shown(value)[0] == left[0];
      }
    }
  }

  ghost predicate FactKey(key: string) {
    Tight(key) && key[0] != '#' && '=' !in key && 'R' !in key
  }

  lemma TightComment(text: string)
    requires Tight(text) && text[0] != '#'
    ensures Comment("# " + text) == text
  {
    var padded := " " + text;
    assert "# " + text == "#" + padded && ("# " + text)[1..] == padded;
    assert StripLeft(padded, IsHash) == padded && padded[1..] == text;
    assert StripLeft(padded, IsWhitespace) == text;
  }

  lemma FieldComment(key: string, value: string)
    requires FactKey(key) && Tight(value)
    ensures Comment("# " + key + " = " + value) == key + " = " + value
  {
    var text := key + " = " + value;
    assert text[0] == key[0] && text[|text| - 1] == value[|value| - 1];
    TightComment(text);
    assert "# " + text == "# " + key + " = " + value;
  }

  lemma EqualsAt(key: string, value: string)
    requires '=' !in key
    ensures IndexOf(key + " = " + value, "=") == Some(|key| + 1)
  {
    var text := key + " = " + value;
    assert text[|key| + 1] == '=' && text[|key| + 1..][0] == '=';
    forall j | 0 <= j < |key| + 1 ensures !("=" <= text[j..]) {
      assert text[j..][0] == text[j] && text[j] == if j < |key| then key[j] else ' ';
    }
    IndexOfIs(text, "=", |key| + 1);
  }

  lemma PairParts(key: string, value: string)
    requires Tight(key) && Tight(value)
    ensures var text := key + " = " + value;
            Trim(text[..|key| + 1]) == key && NonEmpty(text[|key| + 2..]) == Some(value)
  {
    var text := key + " = " + value;
    assert text[..|key| + 1] == key + " " && text[|key| + 2..] == " " + value;
    var padded := key + " ";
    assert padded[0] == key[0] && padded[..|key|] == key;
    assert StripLeft(padded, IsWhitespace) == padded;
    assert StripRight(padded, IsWhitespace) == StripRight(key, IsWhitespace) == key;
    assert (" " + value)[1..] == value;
    assert StripLeft(" " + value, IsWhitespace) == value;
  }

  lemma Found(s: string, part: string)
    requires part != ""
    ensures Contains(s, part) <==> exists k :: 0 <= k <= |s| && part <= s[k..]
  {
    forall k | 0 <= k <= |s| && part <= s[k..] ensures Contains(s, part) {
      IndexOfIsFirst(s, part, k);
    }
    if Contains(s, part) {
      assert part <= s[IndexOf(s, part).value..];
    }
  }

  // A field reads as a line with a version only through its value.
  lemma SeparatorInValue(key: string, value: string)
    requires FactKey(key)
    ensures Contains(key + " = " + value, SEPARATOR) <==> Contains(" " + value, SEPARATOR)
  {
    var text, front := key + " = " + value, key + " =";
    assert text == front + (" " + value);
    if Contains(text, SEPARATOR) {
      var k := IndexOf(text, SEPARATOR).value;
      SeparatorBehind(key, value, k);
      FoundBehind(front, " " + value, SEPARATOR, k);
    }
    if Contains(" " + value, SEPARATOR) {
      StillFound(front, " " + value, SEPARATOR);
    }
  }

  lemma FoundBehind(front: string, rest: string, part: string, k: nat)
    requires part != "" && |front| <= k <= |front + rest| && part <= (front + rest)[k..]
    ensures Contains(rest, part)
  {
    assert (front + rest)[k..] == rest[k - |front|..];
    IndexOfIsFirst(rest, part, k - |front|);
  }

  lemma StillFound(front: string, rest: string, part: string)
    requires part != "" && Contains(rest, part)
    ensures Contains(front + rest, part)
  {
    var k := IndexOf(rest, part).value;
    assert (front + rest)[|front| + k..] == rest[k..];
    IndexOfIsFirst(front + rest, part, |front| + k);
  }

  lemma SeparatorBehind(key: string, value: string, k: nat)
    requires FactKey(key) && k <= |key + " = " + value| && SEPARATOR <= (key + " = " + value)[k..]
    ensures k >= |key| + 2
  {
    var text := key + " = " + value;
    var sep := " by RouterOS ";
    assert SEPARATOR == sep && |sep| == 13;
    assert text[k..k + 13] == sep;
    assert text[k + 4] == sep[4] == 'R';
    assert forall i | 0 <= i < |key| :: text[i] == key[i] != 'R';
    assert text[|key| + 1] == '=' && forall i | k <= i < k + 13 :: text[i] == sep[i - k] != '=';
  }

  // A field of the header, read as a line of the banner.
  lemma FieldTeaches(info: RouterInfo, key: string, value: string)
    requires FactKey(key) && Tight(value)
    ensures var learned := Learn(info, "# " + key + " = " + value);
            if Contains(" " + value, SEPARATOR)
            then learned == info.(version := learned.version)
            else learned == LearnPair(info, key, Some(value))
  {
    FieldComment(key, value);
    EqualsAt(key, value);
    PairParts(key, value);
    SeparatorInValue(key, value);
  }

  // --------------------------------------------------------------------------
  // The whole header
  // --------------------------------------------------------------------------

  lemma {:induction false} LearnInTwo(info: RouterInfo, a: seq<string>, b: seq<string>)
    ensures LearnAll(info, a + b) == LearnAll(LearnAll(info, a), b)
  {
    if b == [] {
      assert a + b == a;
    } else {
      var n := |b| - 1;
      assert (a + b)[..|a| + n] == a + b[..n];
      LearnInTwo(info, a, b[..n]);
    }
  }

  lemma LearnOne(info: RouterInfo, line: string)
    ensures LearnAll(info, [line]) == Learn(info, line)
  {
    assert [line][..0] == [];
  }

  // What comes back of a value: itself, unless it reads as a version.
  function Again(value: Option<string>): Option<string> {
    if Shown(value) == "" || Contains(" " + Shown(value), SEPARATOR) then None else Some(Shown(value))
  }

  // The three facts that both a banner and a header carry.
  function Shared(info: RouterInfo): (Option<string>, Option<string>, Option<string>) {
    (info.model, info.serial, info.softwareId)
  }

  // Reading one field, where nothing was known under its key.
  lemma FieldLearned(info: RouterInfo, key: string, value: Option<string>)
    requires FactKey(key) && '\n' !in key && '\n' !in Shown(value)
    ensures var learned := LearnAll(info, FieldLines(key, value));
            Shared(learned) == Shared(if Again(value).None? then info else LearnPair(info, key, Again(value)))
  {
    SingleFieldLine(key, value);
    ShownIsTight(value);
    if Shown(value) != "" {
      LearnOne(info, "# " + key + " = " + Shown(value));
      FieldTeaches(info, key, Shown(value));
    }
  }

  lemma {:induction false} FieldsLearned(info: RouterInfo, facts: seq<Fact>)
    requires forall i | 0 <= i < |facts| :: FactKey(facts[i].key) && '\n' !in facts[i].key && '\n' !in Shown(facts[i].value)
    ensures Shared(LearnAll(info, FactLines(facts))) == Shared(LearnFacts(info, facts))
    decreases facts
  {
    if facts != [] {
      var first := FieldLines(facts[0].key, facts[0].value);
      LearnInTwo(info, first, FactLines(facts[1..]));
      FieldLearned(info, facts[0].key, facts[0].value);
      FieldsLearned(LearnAll(info, first), facts[1..]);
      SharedStays(LearnAll(info, first), LearnFact(info, facts[0]), facts[1..]);
    }
  }

  function LearnFact(info: RouterInfo, fact: Fact): RouterInfo {
    if Again(fact.value).None? then info else LearnPair(info, fact.key, Again(fact.value))
  }

  function LearnFacts(info: RouterInfo, facts: seq<Fact>): RouterInfo
    decreases facts
  {
    if facts == [] then info else LearnFacts(LearnFact(info, facts[0]), facts[1..])
  }

  lemma {:induction false} SharedStays(a: RouterInfo, b: RouterInfo, facts: seq<Fact>)
    requires Shared(a) == Shared(b)
    ensures Shared(LearnFacts(a, facts)) == Shared(LearnFacts(b, facts))
    decreases facts
  {
    if facts != [] {
      SharedStays(LearnFact(a, facts[0]), LearnFact(b, facts[0]), facts[1..]);
    }
  }

  lemma SixLearned(info: RouterInfo)
    ensures Shared(LearnFacts(UNKNOWN, Facts(info))) == (Again(info.model), Again(info.serial), Again(info.softwareId))
  {
    var f := Facts(info);
    FactChain(info);
    LearnNext(UNKNOWN, f);
    var a := LearnFact(UNKNOWN, f[0]);
    LearnNext(a, f[1..]);
    var b := LearnFact(a, f[1]);
    LearnNext(b, f[2..]);
    var c := LearnFact(b, f[2]);
    LearnNext(c, f[3..]);
    var d := LearnFact(c, f[3]);
    LearnNext(d, f[4..]);
    var e := LearnFact(d, f[4]);
    LearnNext(e, f[5..]);
    KeysDiffer();
  }

  lemma LearnNext(info: RouterInfo, facts: seq<Fact>)
    requires facts != []
    ensures LearnFacts(info, facts) == LearnFacts(LearnFact(info, facts[0]), facts[1..])
  {
  }

  lemma KeysDiffer()
    ensures "identity" !in {"model", "serial number", "software id"} && "architecture" !in {"model", "serial number", "software id"}
    ensures "routeros" !in {"model", "serial number", "software id"}
    ensures "serial number" != "model" && "software id" != "model" && "software id" != "serial number"
  {
    assert "software id"[1] == 'o' && "serial number"[1] == 'e';
    assert "architecture"[0] == 'a' && "routeros"[0] == 'r' && "identity"[0] == 'i';
    assert "model"[0] == 'm' && "software id"[0] == 's' && "serial number"[0] == 's';
  }

  lemma SeparatorHasR(text: string, k: nat)
    requires k <= |text| && SEPARATOR <= text[k..]
    ensures k + 4 < |text| && text[k + 4] == 'R'
  {
    var sep := " by RouterOS ";
    assert SEPARATOR == sep && text[k..][..13] == sep;
    assert text[k..][4] == sep[4];
  }

  // The separator needs an R behind the first few characters.
  lemma NoLaterR(text: string)
    requires '=' !in text && forall i | 4 <= i < |text| :: text[i] != 'R'
    ensures !Contains(text, SEPARATOR) && !Contains(text, "=")
  {
    Found(text, SEPARATOR);
    Found(text, "=");
    forall k | 0 <= k <= |text| ensures !("=" <= text[k..]) {
      assert k < |text| ==> text[k] in text && text[k..][0] == text[k];
    }
    forall k | 0 <= k <= |text| ensures !(SEPARATOR <= text[k..]) {
      if SEPARATOR <= text[k..] {
        SeparatorHasR(text, k);
      }
    }
  }

  lemma TitleTeachesNothing(info: RouterInfo)
    ensures Learn(info, TITLE) == info
  {
    var rest := "configuration " + "export " + "captured by " + "DonDude";
    var text := "RouterOS " + rest;
    Regrouped("# RouterOS ", "configuration ", "export ", "captured by ", "DonDude");
    assert TITLE == "# RouterOS " + rest;
    assert "# RouterOS " == "# " + "RouterOS ";
    assert TITLE == "# " + text;
    TitleText(rest);
    TightComment(text);
    NoLaterR(text);
  }

  lemma Regrouped(a: string, b: string, c: string, d: string, e: string)
    ensures a + b + c + d + e == a + (b + c + d + e)
  {
  }

  lemma TitleText(rest: string)
    requires rest == "configuration " + "export " + "captured by " + "DonDude"
    ensures var text := "RouterOS " + rest;
            && Tight(text) && text[0] != '#' && '=' !in text
            && forall i | 4 <= i < |text| :: text[i] != 'R'
  {
    assert forall c | c in rest :: c != '=' && c != 'R';
    var text := "RouterOS " + rest;
    forall i | 4 <= i < |text| ensures text[i] != 'R' {
      if i >= 9 {
        assert text[i] == rest[i - 9] && rest[i - 9] in rest;
      }
    }
  }

  lemma DeviceAndCommand()
    ensures FactKey("device") && FactKey("command") && '\n' !in "device" && '\n' !in "command"
    ensures forall info: RouterInfo, v :: LearnPair(info, "device", v) == LearnPair(info, "command", v) == info
  {
    assert "device"[0] == 'd' && "command"[0] == 'c' && "model"[0] == 'm' && "serial number"[0] == 's' && "software id"[0] == 's';
  }

  lemma KeysAreFactKeys()
    ensures FactKey("identity") && FactKey("model") && FactKey("serial number")
    ensures FactKey("software id") && FactKey("architecture") && FactKey("routeros")
  {
    ThreeKeys();
    OtherKeys();
  }

  lemma ThreeKeys()
    ensures FactKey("model") && FactKey("serial number") && FactKey("software id")
  {
  }

  lemma OtherKeys()
    ensures FactKey("identity") && FactKey("architecture") && FactKey("routeros")
  {
  }

  lemma FactsLearned(known: RouterInfo, info: RouterInfo)
    requires OneLineInfo(info) && Shared(known) == Shared(UNKNOWN)
    ensures Shared(LearnAll(known, FactLines(Facts(info)))) == (Again(info.model), Again(info.serial), Again(info.softwareId))
  {
    KeysAreWhole();
    KeysAreFactKeys();
    FieldsLearned(known, Facts(info));
    SharedStays(known, UNKNOWN, Facts(info));
    SixLearned(info);
  }

  lemma LinesTeachAgain(name: string, command: string, info: RouterInfo)
    requires OneLineInfo(info) && '\n' !in Shown(Some(name)) && '\n' !in Shown(Some(command))
    ensures Shared(LearnAll(UNKNOWN, HeaderLines(name, command, info))) ==
            (Again(info.model), Again(info.serial), Again(info.softwareId))
  {
    var opening, facts, closing := Opening(name), FactLines(Facts(info)), Closing(command);
    LearnInTwo(UNKNOWN, opening + facts, closing);
    LearnInTwo(UNKNOWN, opening, facts);
    OpeningTeachesNothing(name);
    FactsLearned(LearnAll(UNKNOWN, opening), info);
    ClosingTeachesNothing(LearnAll(UNKNOWN, opening + facts), command);
  }

  lemma OpeningTeachesNothing(name: string)
    requires '\n' !in Shown(Some(name))
    ensures Shared(LearnAll(UNKNOWN, Opening(name))) == Shared(UNKNOWN)
  {
    TitleIsOneLine();
    LearnInTwo(UNKNOWN, [TITLE], FieldLines("device", Some(name)));
    LearnOne(UNKNOWN, TITLE);
    TitleTeachesNothing(UNKNOWN);
    DeviceAndCommand();
    FieldLearned(UNKNOWN, "device", Some(name));
  }

  lemma ClosingTeachesNothing(info: RouterInfo, command: string)
    requires '\n' !in Shown(Some(command))
    ensures Shared(LearnAll(info, Closing(command))) == Shared(info)
  {
    LearnInTwo(info, FieldLines("command", Some(command)), ["#"]);
    DeviceAndCommand();
    FieldLearned(info, "command", Some(command));
    var known := LearnAll(info, FieldLines("command", Some(command)));
    LearnOne(known, "#");
    assert "#"[1..] == "" && StripLeft("#", IsHash) == "";
  }

  // --------------------------------------------------------------------------
  // Read back from the text
  // --------------------------------------------------------------------------

  // A comment line as it is read back.
  ghost predicate Hashed(ls: seq<string>) {
    forall l | l in ls :: l != "" && l[0] == '#' && l[|l| - 1] != '\r' && '\n' !in l
  }

  lemma HashedInTwo(a: seq<string>, b: seq<string>)
    requires Hashed(a) && Hashed(b)
    ensures Hashed(a + b)
  {
  }

  lemma FieldIsHashed(key: string, value: Option<string>)
    requires '\n' !in key && '\n' !in Shown(value)
    ensures Hashed(FieldLines(key, value))
  {
    SingleFieldLine(key, value);
    ShownIsTight(value);
    var line := "# " + key + " = " + Shown(value);
    if Shown(value) != "" {
      assert line[0] == '#' && line[|line| - 1] == Shown(value)[|Shown(value)| - 1];
    }
  }

  lemma {:induction false} FactsAreHashed(facts: seq<Fact>)
    requires forall i | 0 <= i < |facts| :: '\n' !in facts[i].key && '\n' !in Shown(facts[i].value)
    ensures Hashed(FactLines(facts))
  {
    if facts != [] {
      FieldIsHashed(facts[0].key, facts[0].value);
      FactsAreHashed(facts[1..]);
    }
  }

  lemma OpeningIsHashed(name: string)
    requires '\n' !in Shown(Some(name))
    ensures Hashed(Opening(name))
  {
    DeviceAndCommand();
    FieldIsHashed("device", Some(name));
    TitleIsOneLine();
    TitleIsHashed();
    HashedInTwo([TITLE], FieldLines("device", Some(name)));
  }

  lemma TitleIsHashed()
    ensures Hashed([TITLE])
  {
    TitleIsOneLine();
    assert TITLE in Pieces(TITLE, '\n');
    assert TITLE[0] == '#' && TITLE[|TITLE| - 1] == 'e';
  }

  lemma ClosingIsHashed(command: string)
    requires '\n' !in Shown(Some(command))
    ensures Hashed(Closing(command))
  {
    DeviceAndCommand();
    FieldIsHashed("command", Some(command));
    HashedInTwo(FieldLines("command", Some(command)), ["#"]);
  }

  lemma HeaderIsHashed(name: string, command: string, info: RouterInfo)
    requires OneLineInfo(info) && '\n' !in Shown(Some(name)) && '\n' !in Shown(Some(command))
    ensures Hashed(HeaderLines(name, command, info))
  {
    OpeningIsHashed(name);
    InfoIsHashed(info);
    ClosingIsHashed(command);
    HashedInThree(Opening(name), FactLines(Facts(info)), Closing(command));
  }

  lemma InfoIsHashed(info: RouterInfo)
    requires OneLineInfo(info)
    ensures Hashed(FactLines(Facts(info)))
  {
    KeysAreWhole();
    FactsAreHashed(Facts(info));
  }

  lemma HashedInThree(a: seq<string>, b: seq<string>, c: seq<string>)
    requires Hashed(a) && Hashed(b) && Hashed(c)
    ensures Hashed(a + b + c)
  {
    HashedInTwo(a, b);
    HashedInTwo(a + b, c);
  }

  lemma {:induction false} HashedIsBanner(ls: seq<string>)
    requires Hashed(ls)
    ensures BannerLines(ls) == ls
  {
    if ls != [] {
      assert ls[0] in ls;
      HashIsBanner(ls[0]);
      HashedIsBanner(ls[1..]);
    }
  }

  lemma HashedReadsBack(ls: seq<string>)
    requires Hashed(ls)
    ensures LinesOf(Unlines(ls)) == ls
  {
    PiecesOfUnlines(ls, "");
    assert Unlines(ls) + "" == Unlines(ls);
    forall i | 0 <= i < |ls| ensures StripCr(ls[i]) == ls[i] {
      assert ls[i] in ls;
    }
  }

  // Read as a banner, the header of a stored file teaches the model, the serial
  // number and the software id that were written into it, each under its own
  // name; only a value that reads as a version is taken for one.
  lemma HeaderTeachesAgain(name: string, command: string, info: RouterInfo)
    requires OneLineInfo(info) && '\n' !in Shown(Some(name)) && '\n' !in Shown(Some(command))
    ensures var again := FromBanner(Header(name, command, info));
            && again.model == Again(info.model) && again.serial == Again(info.serial) && again.softwareId == Again(info.softwareId)
  {
    var ls := HeaderLines(name, command, info);
    HeaderIsLines(name, command, info);
    HeaderIsHashed(name, command, info);
    HashedReadsBack(ls);
    HashedIsBanner(ls);
    LinesTeachAgain(name, command, info);
  }

  // The lines of RouterOS's own banner, word for word.
  lemma BannerLinesTeach(info: RouterInfo, value: string)
    requires Tight(value) && !Contains(" " + value, SEPARATOR)
    ensures Learn(info, "# model = " + value) == info.(model := Some(value))
    ensures Learn(info, "# serial number = " + value) == info.(serial := Some(value))
    ensures Learn(info, "# software id = " + value) == info.(softwareId := Some(value))
  {
    KeysAreFactKeys();
    KeysDiffer();
    FieldTeaches(info, "model", value);
    FieldTeaches(info, "serial number", value);
    FieldTeaches(info, "software id", value);
    assert "# " + "model" + " = " == "# model = " && "# " + "serial number" + " = " == "# serial number = ";
    assert "# " + "software id" + " = " == "# software id = ";
  }

  // --------------------------------------------------------------------------
  // What is taken for the banner
  // --------------------------------------------------------------------------

  // `part` stands in `s`, behind its first `skip` characters.
  ghost predicate PartOf(part: string, s: string, skip: nat) {
    skip + |part| <= |s| && part == s[skip..skip + |part|]
  }

  lemma PartOfPart(a: string, b: string, c: string, i: nat, j: nat)
    requires PartOf(a, b, i) && PartOf(b, c, j)
    ensures PartOf(a, c, i + j)
  {
    forall k | 0 <= k < |a| ensures a[k] == c[i + j..i + j + |a|][k] {
      assert a[k] == b[i + k] && b[i + k] == c[j + (i + k)];
    }
  }

  lemma StrippedIsPart(s: string, p: char -> bool)
    ensures |StripLeft(s, p)| <= |s| && PartOf(StripLeft(s, p), s, |s| - |StripLeft(s, p)|)
    ensures PartOf(StripRight(s, p), s, 0)
  {
    StripLeftSplits(s, p);
    StripRightSplits(s, p);
    var left, right := StripLeft(s, p), StripRight(s, p);
    assert left == s[|s| - |left|..] && right == s[0..0 + |right|];
  }

  lemma CommentIsPart(line: string) returns (skip: nat)
    ensures PartOf(Comment(line), line, skip)
  {
    var text := StripLeft(line, IsHash);
    var left := StripLeft(text, IsWhitespace);
    StrippedIsPart(line, IsHash);
    StrippedIsPart(text, IsWhitespace);
    StrippedIsPart(left, IsWhitespace);
    PartOfPart(left, text, line, |text| - |left|, |line| - |text|);
    skip := |line| - |left|;
    PartOfPart(Comment(line), left, line, 0, skip);
  }

  // Only a comment that names the RouterOS version begins the export: no line
  // of the prints before it, and no other comment, is mistaken for one.
  lemma BannerNamesRouterOS(line: string)
    requires IsExportBanner(line)
    ensures StripLeft(line, IsWhitespace) != "" && StripLeft(line, IsWhitespace)[0] == '#'
    ensures exists k :: 0 <= k <= |line| && " by RouterOS " <= line[k..]
  {
    var skip := CommentIsPart(line);
    FoundInPart(line, skip, Comment(line), SEPARATOR);
    assert SEPARATOR == " by RouterOS ";
  }

  lemma FoundInPart(s: string, skip: nat, part: string, sep: string)
    requires PartOf(part, s, skip) && Contains(part, sep)
    ensures exists k :: 0 <= k <= |s| && sep <= s[k..]
  {
    var k := IndexOf(part, sep).value;
    assert part[k..][..|sep|] == sep;
    assert s[skip + k..][..|sep|] == part[k..][..|sep|];
    assert sep <= s[skip + k..];
  }
}
