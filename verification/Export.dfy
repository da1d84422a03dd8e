// Turning raw router output into a stable .rsc file: src/routeros/export.rs.
module Export {
  import opened Base
  import opened Text
  import opened Lines

  datatype RouterInfo = RouterInfo(
    identity: Option<string>, version: Option<string>, model: Option<string>,
    serial: Option<string>, softwareId: Option<string>, architecture: Option<string>)

  datatype Options = Options(normalizeHeader: bool)

  const UNKNOWN := RouterInfo(None, None, None, None, None, None)
  const SEPARATOR := " by RouterOS "
  const TITLE := "# RouterOS " + "configuration " + "export " + "captured by " + "DonDude"

  predicate IsHash(c: char) {
    c == '#'
  }

  function NonEmpty(s: string): Option<string> {
    var t := Trim(s); if t == "" then None else Some(t)
  }

  function Fill(slot: Option<string>, value: Option<string>): Option<string> {
    if slot.None? then value else slot
  }

  // Values already known win.
  function MergeFrom(a: RouterInfo, b: RouterInfo): RouterInfo {
    RouterInfo(Fill(a.identity, b.identity), Fill(a.version, b.version), Fill(a.model, b.model),
               Fill(a.serial, b.serial), Fill(a.softwareId, b.softwareId), Fill(a.architecture, b.architecture))
  }

  // --------------------------------------------------------------------------
  // The banner
  // --------------------------------------------------------------------------

  predicate StartsWithHash(s: string) {
    s != "" && s[0] == '#'
  }

  predicate IsBannerLine(line: string) {
    Trim(line) == "" || StartsWithHash(Trim(line))
  }

  function Comment(line: string): string {
    Trim(StripLeft(line, IsHash))
  }

  // "# <date> by RouterOS <version>"
  predicate IsExportBanner(line: string) {
    StartsWithHash(StripLeft(line, IsWhitespace)) && Contains(Comment(line), SEPARATOR)
  }

  function DropBanner(ls: seq<string>): seq<string> {
    if ls != [] && IsBannerLine(ls[0]) then DropBanner(ls[1..]) else ls
  }

  // The leading comment block, without its blank lines.
  function BannerLines(ls: seq<string>): seq<string> {
    if ls == [] || !IsBannerLine(ls[0]) then []
    else (if StartsWithHash(StripLeft(ls[0], IsWhitespace)) then [ls[0]] else []) + BannerLines(ls[1..])
  }

  // What one banner line adds to the facts; later lines overwrite earlier ones.
  function Learn(info: RouterInfo, line: string): RouterInfo {
    LearnFrom(info, Comment(line))
  }

  function LearnFrom(info: RouterInfo, comment: string): RouterInfo {
    var version := IndexOf(comment, SEPARATOR);
    var equals := IndexOf(comment, "=");
    if comment == "" then info
    else if version.Some? then info.(version := NonEmpty(comment[version.value + |SEPARATOR|..]))
    else if equals.Some? then
      LearnPair(info, Trim(comment[..equals.value]), NonEmpty(comment[equals.value + 1..]))
    else info
  }

  function LearnPair(info: RouterInfo, key: string, value: Option<string>): RouterInfo {
    if key == "model" then info.(model := value)
    else if key == "serial number" then info.(serial := value)
    else if key == "software id" then info.(softwareId := value)
    else info
  }

  function LearnAll(info: RouterInfo, banner: seq<string>): RouterInfo {
    if banner == [] then info
    else
      var n := |banner| - 1;
      Learn(LearnAll(info, banner[..n]), banner[n])
  }

  function FromBanner(raw: string): RouterInfo {
    LearnAll(UNKNOWN, BannerLines(LinesOf(raw)))
  }

  method FromExportBanner(raw: string) returns (info: RouterInfo)
    ensures info == FromBanner(raw)
  {
    info := UNKNOWN;
    var banner := BannerLines(LinesOf(raw));
    for k := 0 to |banner|
      invariant info == LearnAll(UNKNOWN, banner[..k])
    {
      assert banner[..k + 1][..k] == banner[..k];
      info := LearnLine(info, banner[k]);
    }
    assert banner[..|banner|] == banner;
  }

  method LearnLine(known: RouterInfo, line: string) returns (info: RouterInfo)
    ensures info == Learn(known, line)
  {
    info := known;
    var comment := Comment(line);
    if comment == "" {
      return;
    }
    var at := IndexOf(comment, SEPARATOR);
    if at.Some? {
      info := info.(version := NonEmpty(comment[at.value + |SEPARATOR|..]));
      return;
    }
    var equals := IndexOf(comment, "=");
    if equals.Some? {
      info := LearnField(info, Trim(comment[..equals.value]), NonEmpty(comment[equals.value + 1..]));
    }
  }

  method LearnField(known: RouterInfo, key: string, value: Option<string>) returns (info: RouterInfo)
    ensures info == LearnPair(known, key, value)
  {
    info := known;
    if key == "model" {
      info := info.(model := value);
    } else if key == "serial number" {
      info := info.(serial := value);
    } else if key == "software id" {
      info := info.(softwareId := value);
    }
  }

  // --------------------------------------------------------------------------
  // Splitting and rendering
  // --------------------------------------------------------------------------

  function FirstBanner(ls: seq<string>): (k: nat)
    ensures k <= |ls|
    ensures forall j | 0 <= j < k :: !IsExportBanner(ls[j])
    ensures k < |ls| ==> IsExportBanner(ls[k])
  {
    if ls == [] || IsExportBanner(ls[0]) then 0 else 1 + FirstBanner(ls[1..])
  }

  // Everything before the first banner line, and everything from it on.
  function Split(raw: string): (string, string) {
    var normalized := NormalizeNewlines(raw);
    var ls := Pieces(normalized, '\n');
    var k := FirstBanner(ls);
    if k == |ls| then ("", normalized) else (Unlines(ls[..k]), Joined(ls[k..]))
  }

  method SplitAtExportBanner(raw: string) returns (prefix: string, exportPart: string)
    ensures (prefix, exportPart) == Split(raw)
  {
    var normalized := NormalizeNewlines(raw);
    var ls := Pieces(normalized, '\n');
    JoinedPieces(normalized);
    var offset := 0;
    for k := 0 to |ls|
      invariant FirstBanner(ls) >= k
      invariant offset == |Unlines(ls[..k])|
    {
      var line := ls[k];
      if IsExportBanner(line) {
        assert FirstBanner(ls) == k;
        CutBefore(ls, k);
        return normalized[..offset], normalized[offset..];
      }
      LineEnds(ls, k);
      offset := offset + |line| + 1;
    }
    return "", normalized;
  }

  lemma CutBefore(ls: seq<string>, k: nat)
    requires k < |ls|
    ensures Joined(ls) == Unlines(ls[..k]) + Joined(ls[k..])
  {
    UnlinesThenJoined(ls[..k], ls[k..]);
    assert ls[..k] + ls[k..] == ls;
  }

  lemma LineEnds(ls: seq<string>, k: nat)
    requires k < |ls|
    ensures |Unlines(ls[..k + 1])| == |Unlines(ls[..k])| + |ls[k]| + 1
  {
    assert ls[..k + 1] == ls[..k] + [ls[k]];
    UnlinesConcat(ls[..k], [ls[k]]);
    assert Unlines([ls[k]]) == ls[k] + "\n" + Unlines([]);
  }

  // Blank lines pass through, everything else becomes a comment.
  function RemLine(line: string): string {
    if Trim(line) == "" then "" else "# REM " + line
  }

  function RemLines(ls: seq<string>): seq<string> {
    seq(|ls|, i requires 0 <= i < |ls| => RemLine(ls[i]))
  }

  function CommentAsRem(block: string): string {
    Unlines(RemLines(LinesOf(block)))
  }

  function StripBanner(raw: string): string {
    Joined(DropBanner(LinesOf(NormalizeNewlines(raw))))
  }

  // The text a field shows: trimmed, with blank the same as absent.
  function Shown(value: Option<string>): string {
    if value.None? then "" else Trim(value.value)
  }

  function Field(key: string, value: Option<string>): string {
    if Shown(value) == "" then "" else "# " + key + " = " + Shown(value) + "\n"
  }

  function Concat(texts: seq<string>): string {
    if texts == [] then "" else texts[0] + Concat(texts[1..])
  }

  datatype Fact = Fact(key: string, value: Option<string>)

  // The facts of a file, in the order they are written.
  function Facts(info: RouterInfo): seq<Fact> {
    [Fact("identity", info.identity), Fact("model", info.model), Fact("serial number", info.serial),
     Fact("software id", info.softwareId), Fact("architecture", info.architecture), Fact("routeros", info.version)]
  }

  function Fields(facts: seq<Fact>): seq<string> {
    seq(|facts|, i requires 0 <= i < |facts| => Field(facts[i].key, facts[i].value))
  }

  function Header(name: string, command: string, info: RouterInfo): string {
    TITLE + "\n" + Field("device", Some(name)) + Concat(Fields(Facts(info))) + Field("command", Some(command)) + "#\n"
  }

  function Rendered(raw: string, prefix: string, exportPart: string, command: string, name: string,
                    info: RouterInfo, options: Options): string {
    if !options.normalizeHeader then EnsureTrailingNewline(NormalizeNewlines(raw))
    else
      EnsureTrailingNewline(
        Header(name, command, info) +
        CommentAsRem(EnsureTrailingNewline(NormalizeNewlines(prefix))) +
        StripBanner(exportPart))
  }

  method Render(raw: string, prefix: string, exportPart: string, command: string, name: string,
                info: RouterInfo, options: Options) returns (contents: string)
    ensures contents == Rendered(raw, prefix, exportPart, command, name, info, options)
  {
    if !options.normalizeHeader {
      return EnsureTrailingNewline(NormalizeNewlines(raw));
    }
    var user := EnsureTrailingNewline(NormalizeNewlines(prefix));
    user := CommentAsRem(user);
    var body := StripBanner(exportPart);
    var out := TITLE + "\n";
    out := PushField(out, "device", Some(name));
    out := PushFacts(out, info);
    out := PushField(out, "command", Some(command));
    out := out + "#\n";
    assert out == Header(name, command, info);
    out := out + user;
    out := out + body;
    contents := EnsureTrailingNewline(out);
  }

  method PushField(buffer: string, key: string, value: Option<string>) returns (out: string)
    ensures out == buffer + Field(key, value)
  {
    out := buffer;
    if value.Some? {
      var shown := Trim(value.value);
      if shown != "" {
        out := out + ("# " + key + " = " + shown + "\n");
      }
    }
  }

  method PushFacts(buffer: string, info: RouterInfo) returns (out: string)
    ensures out == buffer + Concat(Fields(Facts(info)))
  {
    out := PushField(buffer, "identity", info.identity);
    out := PushField(out, "model", info.model);
    out := PushField(out, "serial number", info.serial);
    out := PushField(out, "software id", info.softwareId);
    out := PushField(out, "architecture", info.architecture);
    out := PushField(out, "routeros", info.version);
    SixFields(buffer, info);
  }

  lemma SixFields(buffer: string, info: RouterInfo)
    ensures buffer + Concat(Fields(Facts(info))) ==
            buffer + Field("identity", info.identity) + Field("model", info.model) + Field("serial number", info.serial) +
            Field("software id", info.softwareId) + Field("architecture", info.architecture) + Field("routeros", info.version)
  {
    SixFacts(buffer, Facts(info));
  }

  lemma SixFacts(buffer: string, f: seq<Fact>)
    requires |f| == 6
    ensures buffer + Concat(Fields(f)) ==
            buffer + Field(f[0].key, f[0].value) + Field(f[1].key, f[1].value) + Field(f[2].key, f[2].value) +
            Field(f[3].key, f[3].value) + Field(f[4].key, f[4].value) + Field(f[5].key, f[5].value)
  {
    var fs := Fields(f);
    SixTexts(fs);
    PrefixedSix(buffer, fs[0], fs[1], fs[2], fs[3], fs[4], fs[5]);
  }

  lemma SixTexts(fs: seq<string>)
    requires |fs| == 6
    ensures Concat(fs) == fs[0] + (fs[1] + (fs[2] + (fs[3] + (fs[4] + fs[5]))))
  {
    assert fs == [fs[0], fs[1], fs[2], fs[3], fs[4], fs[5]];
    ConcatOfSix(fs[0], fs[1], fs[2], fs[3], fs[4], fs[5]);
  }

  lemma ConcatOfSix(a: string, b: string, c: string, d: string, e: string, f: string)
    ensures Concat([a, b, c, d, e, f]) == a + (b + (c + (d + (e + f))))
  {
    OneMoreText(a, [b, c, d, e, f]);
    OneMoreText(b, [c, d, e, f]);
    OneMoreText(c, [d, e, f]);
    OneMoreText(d, [e, f]);
    OneMoreText(e, [f]);
    OneMoreText(f, []);
    assert [a, b, c, d, e, f] == [a] + [b, c, d, e, f] && [b, c, d, e, f] == [b] + [c, d, e, f];
    assert [c, d, e, f] == [c] + [d, e, f] && [d, e, f] == [d] + [e, f] && [e, f] == [e] + [f] && [f] == [f] + [];
    assert f + "" == f;
  }

  lemma OneMoreText(a: string, texts: seq<string>)
    ensures Concat([a] + texts) == a + Concat(texts)
  {
    assert ([a] + texts)[1..] == texts;
  }

  lemma PrefixedSix(s: string, a: string, b: string, c: string, d: string, e: string, f: string)
    ensures s + (a + (b + (c + (d + (e + f))))) == s + a + b + c + d + e + f
  {
  }

  datatype ExportedConfig = ExportedConfig(contents: string, info: RouterInfo, command: string)

  function Normalized(raw: string, command: string, name: string, options: Options): ExportedConfig {
    var (prefix, exportPart) := Split(raw);
    var info := FromBanner(exportPart);
    ExportedConfig(Rendered(raw, prefix, exportPart, command, name, info, options), info, command)
  }

  method Normalize(raw: string, command: string, name: string, options: Options) returns (r: ExportedConfig)
    ensures r == Normalized(raw, command, name, options)
  {
    var prefix, exportPart := SplitAtExportBanner(raw);
    var info := FromExportBanner(exportPart);
    var contents := Render(raw, prefix, exportPart, command, name, info, options);
    r := ExportedConfig(contents, info, command);
  }
}
