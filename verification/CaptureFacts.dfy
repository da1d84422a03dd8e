// From what the router prints to what the stored file says: which line teaches
// which fact, in prints, in the export banner, and in the file itself.
module CaptureFacts {
  import opened Base
  import opened Text
  import opened Lines
  import opened Export
  import opened ExportTheorems
  import opened ExportClock
  import opened Capture

  // --------------------------------------------------------------------------
  // Lines of a print
  // --------------------------------------------------------------------------

  // The keys of a print: lower case, digits and dashes.
  predicate PrintKey(key: string) {
    key != "" && forall i | 0 <= i < |key| :: 'a' <= key[i] <= 'z' || '0' <= key[i] <= '9' || key[i] == '-'
  }

  predicate Spells(text: string, key: string) {
    |text| == |key| && forall i | 0 <= i < |key| :: AsciiLower(text[i]) == key[i]
  }

  // The colon that ends the key.
  ghost predicate Colon(line: string, at: int) {
    0 <= at < |line| && line[at] == ':' && ':' !in line[..at]
  }

  // The line reads "key: value", spaces around either aside.
  ghost predicate Says(line: string, key: string, value: string) {
    exists at | Colon(line, at) :: Spells(Trim(line[..at]), key) && value == Trim(line[at + 1..])
  }

  ghost predicate Mentions(line: string, key: string) {
    exists at | Colon(line, at) :: Spells(Trim(line[..at]), key)
  }

  // The last line about the key gives it this value.
  ghost predicate LastSays(ls: seq<string>, key: string, value: string) {
    exists i :: LastAt(ls, key, value, i)
  }

  ghost predicate LastAt(ls: seq<string>, key: string, value: string, i: int) {
    0 <= i < |ls| && Says(ls[i], key, value) && forall j | i < j < |ls| :: !Mentions(ls[j], key)
  }

  lemma FindsColon(line: string)
    ensures var at := IndexOf(line, ":");
            && (at.Some? ==> Colon(line, at.value))
            && forall k | Colon(line, k) :: at == Some(k)
  {
    var at := IndexOf(line, ":");
    if at.Some? {
      assert line[at.value] == line[at.value..][0] == ':';
      if ':' in line[..at.value] {
        var j :| 0 <= j < at.value && line[j] == ':';
        IndexOfIsFirst(line, ":", j);
      }
    }
    forall k | Colon(line, k) ensures at == Some(k) {
      forall j | 0 <= j < k ensures !(":" <= line[j..]) {
        assert line[j] == line[..k][j];
      }
      IndexOfIs(line, ":", k);
    }
  }

  lemma SpellsKey(text: string, key: string)
    requires PrintKey(key)
    ensures Spells(text, key) <==> PlainKey(text) && LowerKey(text) == key
  {
    if Spells(text, key) {
      forall c | c in text ensures 'a' <= c <= 'z' || 'A' <= c <= 'Z' || '0' <= c <= '9' || c == '-' {
        var i :| 0 <= i < |text| && text[i] == c;
        assert AsciiLower(text[i]) == key[i];
      }
      assert LowerKey(text) == key;
    }
    if PlainKey(text) && LowerKey(text) == key {
      forall i | 0 <= i < |key| ensures AsciiLower(text[i]) == key[i] {
        assert LowerKey(text)[i] == key[i];
      }
    }
  }

  // One line sets the key it is about, and no other.
  lemma LineSets(fields: map<string, string>, line: string, key: string)
    requires PrintKey(key)
    ensures Mentions(line, key) <==> exists value :: Says(line, key, value)
    ensures var next := WithLine(fields, line);
            && (forall value | Says(line, key, value) :: key in next && next[key] == value)
            && (!Mentions(line, key) ==> (key in next <==> key in fields) && (key in fields ==> next[key] == fields[key]))
  {
    FindsColon(line);
    var at := IndexOf(line, ":");
    if at.Some? {
      SpellsKey(Trim(line[..at.value]), key);
      if Mentions(line, key) {
        assert Says(line, key, Trim(line[at.value + 1..]));
      }
    }
  }

  // Reading a print is reading, for every key, the last line about it.
  lemma {:induction false} LastLineWins(ls: seq<string>, key: string)
    requires PrintKey(key)
    ensures key in WithLines(ls) ==> LastSays(ls, key, WithLines(ls)[key])
    ensures forall value | LastSays(ls, key, value) :: key in WithLines(ls) && WithLines(ls)[key] == value
  {
    if ls != [] {
      var n := |ls| - 1;
      LastLineWins(ls[..n], key);
      LineSets(WithLines(ls[..n]), ls[n], key);
      if Mentions(ls[n], key) {
        var value :| Says(ls[n], key, value);
        assert LastAt(ls, key, value, n);
      } else {
        LastSaysBefore(ls, key);
      }
    }
  }

  lemma LastSaysBefore(ls: seq<string>, key: string)
    requires PrintKey(key) && ls != [] && !Mentions(ls[|ls| - 1], key)
    ensures forall value :: LastSays(ls, key, value) <==> LastSays(ls[..|ls| - 1], key, value)
  {
    LineSets(map[], ls[|ls| - 1], key);
    forall value ensures LastSays(ls, key, value) <==> LastSays(ls[..|ls| - 1], key, value) {
      SaidBefore(ls, key, value);
    }
  }

  lemma SaidBefore(ls: seq<string>, key: string, value: string)
    requires ls != [] && !Mentions(ls[|ls| - 1], key) && !Says(ls[|ls| - 1], key, value)
    ensures LastSays(ls, key, value) <==> LastSays(ls[..|ls| - 1], key, value)
  {
    var front := ls[..|ls| - 1];
    assert ls == front + [ls[|ls| - 1]];
    if LastSays(ls, key, value) {
      var i :| LastAt(ls, key, value, i);
      SameLast(front, ls[|ls| - 1], key, value, i);
    }
    if LastSays(front, key, value) {
      var i :| LastAt(front, key, value, i);
      SameLast(front, ls[|ls| - 1], key, value, i);
    }
  }

  lemma SameLast(front: seq<string>, line: string, key: string, value: string, i: int)
    requires !Mentions(line, key) && !Says(line, key, value)
    ensures LastAt(front + [line], key, value, i) <==> LastAt(front, key, value, i)
  {
    var ls := front + [line];
    assert ls[|front|] == line && forall j | 0 <= j < |front| :: ls[j] == front[j];
  }

  lemma TrimTrims(s: string)
    ensures Trim(Trim(s)) == Trim(s)
  {
    var left := StripLeft(s, IsWhitespace);
    StripLeftSplits(s, IsWhitespace);
    StripRightSplits(left, IsWhitespace);
    var t := Trim(s);
    if t != "" {
      assert t[0] == left[0];
    }
  }

  // What a print that came back teaches under one key.
  ghost predicate Tells(output: Option<string>, key: string, value: string) {
    output.Some? && value != "" && LastSays(LinesOf(NormalizeNewlines(output.value)), key, value)
  }

  ghost predicate Silent(output: Option<string>, key: string) {
    forall value :: !Tells(output, key, value)
  }

  lemma FieldTells(raw: string, key: string)
    requires PrintKey(key)
    ensures forall value :: Tells(Some(raw), key, value) <==> FieldOf(Printed(raw), key) == Some(value)
  {
    var ls := LinesOf(NormalizeNewlines(raw));
    LastLineWins(ls, key);
    if key in Printed(raw) {
      var value := Printed(raw)[key];
      assert LastSays(ls, key, value);
      var i :| LastAt(ls, key, value, i);
      var at :| Colon(ls[i], at) && value == Trim(ls[i][at + 1..]);
      TrimTrims(ls[i][at + 1..]);
    }
  }

  lemma KeysOfPrints()
    ensures PrintKey("version") && PrintKey("board-name") && PrintKey("architecture-name")
    ensures PrintKey("name") && PrintKey("serial-number") && PrintKey("model")
  {
  }

  // --------------------------------------------------------------------------
  // Where the facts of a capture come from
  // --------------------------------------------------------------------------

  lemma BannerLeavesUntold(info: RouterInfo, banner: seq<string>)
    ensures LearnAll(info, banner).identity == info.identity && LearnAll(info, banner).architecture == info.architecture
  {
  }

  // Which print teaches which fact, which of two wins, and what the banner
  // fills in where the prints are silent.
  lemma FactsComeFrom(raw: string, p: Prints, value: string)
    ensures var facts, banner := KnownFacts(raw, p), FromBanner(Split(raw).1);
            && (Tells(p.resource, "version", value) ==> facts.version == Some(value))
            && (Silent(p.resource, "version") ==> facts.version == banner.version)
            && (Tells(p.resource, "board-name", value) ==> facts.model == Some(value))
            && (Silent(p.resource, "board-name") && Tells(p.routerboard, "model", value) ==> facts.model == Some(value))
            && (Silent(p.resource, "board-name") && Silent(p.routerboard, "model") ==> facts.model == banner.model)
            && (Tells(p.resource, "architecture-name", value) ==> facts.architecture == Some(value))
            && (Silent(p.resource, "architecture-name") ==> facts.architecture == None)
            && (Tells(p.identity, "name", value) ==> facts.identity == Some(value))
            && (Silent(p.identity, "name") ==> facts.identity == None)
            && (Tells(p.routerboard, "serial-number", value) ==> facts.serial == Some(value))
            && (Silent(p.routerboard, "serial-number") ==> facts.serial == banner.serial)
            && facts.softwareId == banner.softwareId
  {
    BannerLeavesUntold(UNKNOWN, BannerLines(LinesOf(Split(raw).1)));
    CollectedIsTold(p);
    OutputTells(p.resource, "version");
    OutputTells(p.resource, "board-name");
    OutputTells(p.resource, "architecture-name");
    OutputTells(p.identity, "name");
    OutputTells(p.routerboard, "serial-number");
    OutputTells(p.routerboard, "model");
  }

  function Told(output: Option<string>, key: string): Option<string> {
    if output.None? then None else FieldOf(Printed(output.value), key)
  }

  lemma CollectedIsTold(p: Prints)
    ensures Collected(p) ==
            RouterInfo(Told(p.identity, "name"), Told(p.resource, "version"),
                       Fill(Told(p.resource, "board-name"), Told(p.routerboard, "model")),
                       Told(p.routerboard, "serial-number"), None, Told(p.resource, "architecture-name"))
  {
  }

  lemma OutputTells(output: Option<string>, key: string)
    requires key in {"version", "board-name", "architecture-name", "name", "serial-number", "model"}
    ensures forall value :: Tells(output, key, value) <==> Told(output, key) == Some(value)
    ensures Silent(output, key) <==> Told(output, key) == None
  {
    KeysOfPrints();
    if output.Some? {
      FieldTells(output.value, key);
    }
    if Told(output, key).Some? {
      assert Tells(output, key, Told(output, key).value);
    }
  }

  // --------------------------------------------------------------------------
  // Lines of the file
  // --------------------------------------------------------------------------

  lemma {:induction false} FactIsWritten(facts: seq<Fact>, i: nat)
    requires i < |facts| && '\n' !in facts[i].key && '\n' !in Shown(facts[i].value) && Shown(facts[i].value) != ""
    ensures "# " + facts[i].key + " = " + Shown(facts[i].value) in FactLines(facts)
  {
    if i == 0 {
      SingleFieldLine(facts[0].key, facts[0].value);
    } else {
      FactIsWritten(facts[1..], i - 1);
    }
  }

  lemma InFile(raw: string, p: Prints, command: string, name: string, line: string)
    requires line in FactLines(Facts(KnownFacts(raw, p)))
    ensures line in Pieces(Stored(raw, p, command, name, Options(true)), '\n')
  {
    var info, prefix, exportPart := KnownFacts(raw, p), Split(raw).0, Split(raw).1;
    var ls := FileLines(prefix, exportPart, command, name, info);
    RenderedIsLines(raw, prefix, exportPart, command, name, info);
    PiecesOfUnlines(ls, "");
    assert Unlines(ls) + "" == Unlines(ls);
    InHeader(name, command, info, line);
    assert line in ls;
  }

  lemma InHeader(name: string, command: string, info: RouterInfo, line: string)
    requires line in FactLines(Facts(info))
    ensures line in HeaderLines(name, command, info)
  {
  }

  // Every fact stands in the stored file, on a line of its own and under its name.
  lemma FileShowsFacts(raw: string, p: Prints, command: string, name: string)
    ensures var facts, ls := KnownFacts(raw, p), Pieces(Stored(raw, p, command, name, Options(true)), '\n');
            && (Shown(facts.identity) != "" ==> "# identity = " + Shown(facts.identity) in ls)
            && (Shown(facts.model) != "" ==> "# model = " + Shown(facts.model) in ls)
            && (Shown(facts.serial) != "" ==> "# serial number = " + Shown(facts.serial) in ls)
            && (Shown(facts.softwareId) != "" ==> "# software id = " + Shown(facts.softwareId) in ls)
            && (Shown(facts.architecture) != "" ==> "# architecture = " + Shown(facts.architecture) in ls)
            && (Shown(facts.version) != "" ==> "# routeros = " + Shown(facts.version) in ls)
  {
    var facts := KnownFacts(raw, p);
    FactsAreOneLine(raw, p);
    KeysAreWhole();
    ShowsOne(raw, p, command, name, 0, "identity", facts.identity);
    ShowsOne(raw, p, command, name, 1, "model", facts.model);
    ShowsOne(raw, p, command, name, 2, "serial number", facts.serial);
    ShowsOne(raw, p, command, name, 3, "software id", facts.softwareId);
    ShowsOne(raw, p, command, name, 4, "architecture", facts.architecture);
    ShowsOne(raw, p, command, name, 5, "routeros", facts.version);
    SpelledOut();
  }

  lemma SpelledOut()
    ensures "# " + "identity" + " = " == "# identity = " && "# " + "model" + " = " == "# model = "
    ensures "# " + "serial number" + " = " == "# serial number = " && "# " + "software id" + " = " == "# software id = "
    ensures "# " + "architecture" + " = " == "# architecture = " && "# " + "routeros" + " = " == "# routeros = "
  {
  }

  lemma ShowsOne(raw: string, p: Prints, command: string, name: string, i: nat, key: string, value: Option<string>)
    requires i < 6 && Facts(KnownFacts(raw, p))[i] == Fact(key, value) && '\n' !in key && '\n' !in Shown(value)
    ensures Shown(value) != "" ==> "# " + key + " = " + Shown(value) in Pieces(Stored(raw, p, command, name, Options(true)), '\n')
  {
    if Shown(value) != "" {
      FactIsWritten(Facts(KnownFacts(raw, p)), i);
      InFile(raw, p, command, name, "# " + key + " = " + Shown(value));
    }
  }

  // From print to file: what a router prints about itself is what its stored
  // file says, each value under its own name.
  lemma PrintsAreShown(raw: string, p: Prints, command: string, name: string, value: string)
    ensures var ls := Pieces(Stored(raw, p, command, name, Options(true)), '\n');
            && (Tells(p.resource, "version", value) ==> "# routeros = " + value in ls)
            && (Tells(p.resource, "board-name", value) ==> "# model = " + value in ls)
            && (Silent(p.resource, "board-name") && Tells(p.routerboard, "model", value) ==> "# model = " + value in ls)
            && (Tells(p.resource, "architecture-name", value) ==> "# architecture = " + value in ls)
            && (Tells(p.identity, "name", value) ==> "# identity = " + value in ls)
            && (Tells(p.routerboard, "serial-number", value) ==> "# serial number = " + value in ls)
  {
    FactsComeFrom(raw, p, value);
    FileShowsFacts(raw, p, command, name);
    ToldIsTrimmed(p.resource, value);
    ToldIsTrimmed(p.identity, value);
    ToldIsTrimmed(p.routerboard, value);
  }

  lemma ToldIsTrimmed(output: Option<string>, value: string)
    ensures (exists key :: Tells(output, key, value)) ==> Trim(value) == value
  {
    if key :| Tells(output, key, value) {
      var ls := LinesOf(NormalizeNewlines(output.value));
      var i :| LastAt(ls, key, value, i);
      var at :| Colon(ls[i], at) && value == Trim(ls[i][at + 1..]);
      TrimTrims(ls[i][at + 1..]);
    }
  }

  // --------------------------------------------------------------------------
  // The rest of the file
  // --------------------------------------------------------------------------

  // What the user prints put before the export stands in the file as remarks,
  // and what follows the comments at the top of the export stands there as it
  // is, every line in its place, under the header.
  lemma FileKeepsTheRest(raw: string, p: Prints, command: string, name: string, banner: seq<string>, body: seq<string>)
    requires LinesOf(NormalizeNewlines(Split(raw).1)) == banner + body
    requires forall l | l in banner :: Trim(l) == "" || Trim(l)[0] == '#'
    requires body != [] && Trim(body[0]) != "" && Trim(body[0])[0] != '#'
    ensures var user := UserLines(Split(raw).0);
            var top := HeaderLines(name, command, KnownFacts(raw, p));
            Stored(raw, p, command, name, Options(true)) == Unlines(top + Remarks(user) + DropTrailingEmpty(body))
  {
    var info, prefix, exportPart := KnownFacts(raw, p), Split(raw).0, Split(raw).1;
    var rems := RemLines(UserLines(prefix));
    RenderedIsLines(raw, prefix, exportPart, command, name, info);
    DropBannerOf(banner, body);
    TailKeeps(rems, body);
    RemarksAre(UserLines(prefix));
    ThreeParts(HeaderLines(name, command, info), rems, DropTrailingEmpty(body));
  }

  lemma TailKeeps(rems: seq<string>, body: seq<string>)
    requires body != [] && !IsBannerLine(body[0])
    ensures DropTrailingEmpty(rems + body) == rems + DropTrailingEmpty(body)
  {
    ConfigurationTrims(body);
    DropTrailingEmptyAppend(rems, body);
  }

  function Remarks(user: seq<string>): seq<string> {
    seq(|user|, i requires 0 <= i < |user| => if Trim(user[i]) == "" then "" else "# REM " + user[i])
  }

  lemma RemarksAre(user: seq<string>)
    ensures RemLines(user) == Remarks(user)
  {
  }

  // The first lines of the header.
  lemma FileNamesItsDevice(name: string, command: string, info: RouterInfo)
    requires Trim(name) != "" && '\n' !in Trim(name)
    ensures var ls := HeaderLines(name, command, info);
            |ls| >= 2 && ls[0] == "# RouterOS " + "configuration " + "export " + "captured by " + "DonDude" && ls[1] == "# device = " + Trim(name)
  {
    TitleIsOneLine();
    DeviceLine(Some(name));
    var ls := HeaderLines(name, command, info);
    assert Opening(name) == [TITLE, "# device = " + Trim(name)];
    assert ls[..2] == Opening(name);
    assert ls[0] == ls[..2][0] && ls[1] == ls[..2][1];
  }

  lemma DeviceLine(value: Option<string>)
    requires Shown(value) != "" && '\n' !in Shown(value)
    ensures FieldLines("device", value) == ["# device = " + Shown(value)]
  {
    assert '\n' !in "device" && "# " + "device" + " = " == "# device = ";
    SingleFieldLine("device", value);
  }
}
