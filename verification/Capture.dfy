// A whole capture: the facts of the router's prints, the facts of the export
// banner, and the file rendered from both. src/routeros/mod.rs.
module Capture {
  import opened Base
  import opened Text
  import opened Lines
  import opened Export
  import opened ExportTheorems
  import opened ExportClock

  // --------------------------------------------------------------------------
  // The prints
  // --------------------------------------------------------------------------

  predicate PlainKey(key: string) {
    key != "" && forall c | c in key :: 'a' <= c <= 'z' || 'A' <= c <= 'Z' || '0' <= c <= '9' || c == '-'
  }

  function LowerKey(key: string): string {
    seq(|key|, i requires 0 <= i < |key| => AsciiLower(key[i]))
  }

  // One "key: value" line; anything else is ignored, later keys win.
  function WithLine(fields: map<string, string>, line: string): map<string, string> {
    var at := IndexOf(line, ":");
    if at.None? then fields
    else
      var key := Trim(line[..at.value]);
      if !PlainKey(key) then fields else fields[LowerKey(key) := Trim(line[at.value + 1..])]
  }

  function WithLines(ls: seq<string>): map<string, string> {
    if ls == [] then map[] else WithLine(WithLines(ls[..|ls| - 1]), ls[|ls| - 1])
  }

  function Printed(raw: string): map<string, string> {
    WithLines(LinesOf(NormalizeNewlines(raw)))
  }

  method ParsePrint(raw: string) returns (fields: map<string, string>)
    ensures fields == Printed(raw)
  {
    fields := map[];
    var ls := LinesOf(NormalizeNewlines(raw));
    for i := 0 to |ls|
      invariant fields == WithLines(ls[..i])
    {
      assert ls[..i + 1][..i] == ls[..i];
      var at := IndexOf(ls[i], ":");
      if at.None? {
        continue;
      }
      var key := Trim(ls[i][..at.value]);
      if !PlainKey(key) {
        continue;
      }
      fields := fields[LowerKey(key) := Trim(ls[i][at.value + 1..])];
    }
    assert ls[..|ls|] == ls;
  }

  function FieldOf(fields: map<string, string>, key: string): Option<string> {
    if key in fields then NonEmpty(fields[key]) else None
  }

  function FromResource(raw: string): RouterInfo {
    var fields := Printed(raw);
    UNKNOWN.(version := FieldOf(fields, "version"), model := FieldOf(fields, "board-name"),
             architecture := FieldOf(fields, "architecture-name"))
  }

  function FromIdentity(raw: string): RouterInfo {
    UNKNOWN.(identity := FieldOf(Printed(raw), "name"))
  }

  function FromRouterboard(raw: string): RouterInfo {
    var fields := Printed(raw);
    UNKNOWN.(serial := FieldOf(fields, "serial-number"), model := FieldOf(fields, "model"))
  }

  // What the three prints put out; none for a command that failed.
  datatype Prints = Prints(resource: Option<string>, identity: Option<string>, routerboard: Option<string>)

  function MergePrint(info: RouterInfo, parse: string -> RouterInfo, output: Option<string>): RouterInfo {
    if output.None? then info else MergeFrom(info, parse(output.value))
  }

  function Collected(p: Prints): RouterInfo {
    MergePrint(MergePrint(MergePrint(UNKNOWN, FromResource, p.resource), FromIdentity, p.identity), FromRouterboard, p.routerboard)
  }

  // --------------------------------------------------------------------------
  // The stored file
  // --------------------------------------------------------------------------

  // Banner values only fill gaps the prints left behind.
  function KnownFacts(raw: string, p: Prints): RouterInfo {
    MergeFrom(Collected(p), FromBanner(Split(raw).1))
  }

  function Stored(raw: string, p: Prints, command: string, name: string, options: Options): string {
    Rendered(raw, Split(raw).0, Split(raw).1, command, name, KnownFacts(raw, p), options)
  }

  method CaptureFile(raw: string, p: Prints, command: string, name: string, options: Options) returns (contents: string)
    ensures contents == Stored(raw, p, command, name, options)
  {
    var info := Collected(p);
    var prefix, exportPart := SplitAtExportBanner(raw);
    var banner := FromExportBanner(exportPart);
    info := MergeFrom(info, banner);
    contents := Render(raw, prefix, exportPart, command, name, info, options);
  }

  ghost predicate OneLineFields(fields: map<string, string>) {
    forall k | k in fields :: '\n' !in fields[k]
  }

  lemma LineKeepsOneLine(fields: map<string, string>, line: string)
    requires OneLineFields(fields) && '\n' !in line
    ensures OneLineFields(WithLine(fields, line))
  {
    var at := IndexOf(line, ":");
    if at.Some? {
      TrimKeeps(line[at.value + 1..], '\n');
    }
  }

  lemma {:induction false} LinesKeepOneLine(ls: seq<string>)
    requires AllWhole(ls)
    ensures OneLineFields(WithLines(ls))
  {
    if ls != [] {
      var n := |ls| - 1;
      assert forall l | l in ls[..n] :: l in ls;
      assert ls[n] in ls;
      LinesKeepOneLine(ls[..n]);
      LineKeepsOneLine(WithLines(ls[..n]), ls[n]);
    }
  }

  lemma FieldIsOneLine(raw: string, key: string)
    ensures '\n' !in Shown(FieldOf(Printed(raw), key))
  {
    LinesAreWhole(NormalizeNewlines(raw));
    LinesKeepOneLine(LinesOf(NormalizeNewlines(raw)));
    if key in Printed(raw) {
      NonEmptyIsOneLine(Printed(raw)[key]);
    }
  }

  lemma PrintIsOneLine(raw: string)
    ensures OneLineInfo(FromResource(raw)) && OneLineInfo(FromIdentity(raw)) && OneLineInfo(FromRouterboard(raw))
  {
    FieldIsOneLine(raw, "version");
    FieldIsOneLine(raw, "board-name");
    FieldIsOneLine(raw, "architecture-name");
    FieldIsOneLine(raw, "name");
    FieldIsOneLine(raw, "serial-number");
    FieldIsOneLine(raw, "model");
  }

  // No fact of a capture spans lines, whatever the router printed.
  lemma FactsAreOneLine(raw: string, p: Prints)
    ensures OneLineInfo(KnownFacts(raw, p))
  {
    BannerFactsAreOneLine(Split(raw).1);
    MergedIsOneLine(UNKNOWN, FromResource, p.resource);
    var one := MergePrint(UNKNOWN, FromResource, p.resource);
    MergedIsOneLine(one, FromIdentity, p.identity);
    MergedIsOneLine(MergePrint(one, FromIdentity, p.identity), FromRouterboard, p.routerboard);
    MergePrefersKnown(Collected(p), FromBanner(Split(raw).1));
  }

  lemma MergedIsOneLine(info: RouterInfo, parse: string -> RouterInfo, output: Option<string>)
    requires OneLineInfo(info) && (parse == FromResource || parse == FromIdentity || parse == FromRouterboard)
    ensures OneLineInfo(MergePrint(info, parse, output))
  {
    if output.Some? {
      PrintIsOneLine(output.value);
      MergePrefersKnown(info, parse(output.value));
    }
  }

  // Change detection as it is used: two captures of one device under one
  // command are stored as the same bytes exactly when their facts, taken from
  // prints and banner together, their user state and their configuration are
  // the same.
  lemma CaptureDetectsExactlyTheChanges(raw1: string, p1: Prints, raw2: string, p2: Prints, command: string, name: string)
    ensures Stored(raw1, p1, command, name, Options(true)) == Stored(raw2, p2, command, name, Options(true)) <==>
            && SameFacts(KnownFacts(raw1, p1), KnownFacts(raw2, p2))
            && SameConfiguration(Split(raw1).1, Split(raw2).1)
            && SameUserState(Split(raw1).0, Split(raw2).0, StripBanner(Split(raw1).1) != "")
  {
    FactsAreOneLine(raw1, p1);
    FactsAreOneLine(raw2, p2);
    RenderDetectsExactlyTheChanges(raw1, Split(raw1).0, Split(raw1).1, KnownFacts(raw1, p1),
                                   raw2, Split(raw2).0, Split(raw2).1, KnownFacts(raw2, p2), command, name);
  }

  // And the clock leaves no trace in it.
  lemma CaptureIgnoresTheClock(before: string, lead1: string, lead2: string, tail: string, after: string, p: Prints,
                               command: string, name: string)
    requires EndsAtLineBreak(before) && NoBannerIn(before) && BeginsAtLineBreak(after)
    requires Dated(lead1) && Dated(lead2) && Versioned(tail)
    ensures var raw1, raw2 := before + (lead1 + SEPARATOR + tail) + after, before + (lead2 + SEPARATOR + tail) + after;
            && KnownFacts(raw1, p) == KnownFacts(raw2, p)
            && Stored(raw1, p, command, name, Options(true)) == Stored(raw2, p, command, name, Options(true))
  {
    DatedCapture(before, lead1, tail, after);
    DatedCapture(before, lead2, tail, after);
    var raw1, raw2 := before + (lead1 + SEPARATOR + tail) + after, before + (lead2 + SEPARATOR + tail) + after;
    SameStored(raw1, raw2, p, command, name);
  }

  lemma SameStored(raw1: string, raw2: string, p: Prints, command: string, name: string)
    requires Split(raw1).0 == Split(raw2).0 && FromBanner(Split(raw1).1) == FromBanner(Split(raw2).1)
    requires StripBanner(Split(raw1).1) == StripBanner(Split(raw2).1)
    ensures KnownFacts(raw1, p) == KnownFacts(raw2, p)
    ensures Stored(raw1, p, command, name, Options(true)) == Stored(raw2, p, command, name, Options(true))
  {
  }
}
