// Templates as operators write them, segment by segment, and exactly which of
// them keep every fleet's files apart.
module TemplateShapes {
  import opened Base
  import opened Text
  import opened Paths
  import opened Templates

  // --------------------------------------------------------------------------
  // Segments of plain text and placeholders
  // --------------------------------------------------------------------------

  datatype Kind = ForTenant | ForDevice | ForHost

  datatype Part = Lit(s: string) | Slot(kind: Kind)

  type Segment = seq<Part>

  datatype Values = Values(tenant: string, device: string, host: string)

  const TOKENS := Values(TENANT, DEVICE, HOST)

  function Value(v: Values, k: Kind): string {
    match k
    case ForTenant => v.tenant
    case ForDevice => v.device
    case ForHost => v.host
  }

  function With(v: Values, k: Kind, s: string): Values {
    match k
    case ForTenant => v.(tenant := s)
    case ForDevice => v.(device := s)
    case ForHost => v.(host := s)
  }

  function Filled(seg: Segment, v: Values): string {
    if seg == [] then ""
    else (if seg[0].Lit? then seg[0].s else Value(v, seg[0].kind)) + Filled(seg[1..], v)
  }

  // The segment as it stands in the template.
  function Spelled(seg: Segment): string {
    Filled(seg, TOKENS)
  }

  function SlugsOf(d: Device): Values {
    Values(Slug(d.tenant), Slug(d.name), Slug(d.host))
  }

  // No brace but those of placeholders.
  ghost predicate Braceless(seg: Segment) {
    forall p | p in seg && p.Lit? :: '{' !in p.s
  }

  lemma OneCharacterOn(x: string, rest: string, token: string, text: string)
    requires token != "" && x != "" && x[0] != token[0]
    ensures ReplaceAll(x + rest, token, text) == [x[0]] + ReplaceAll(x[1..] + rest, token, text)
  {
    assert (x + rest)[0] == x[0] && (x + rest)[1..] == x[1..] + rest;
  }

  lemma FirstBack(x: string, y: string)
    requires x != ""
    ensures [x[0]] + (x[1..] + y) == x + y
  {
  }

  lemma {:induction false} SkipBraceless(x: string, rest: string, token: string, text: string)
    requires token != "" && token[0] == '{' && '{' !in x
    ensures ReplaceAll(x + rest, token, text) == x + ReplaceAll(rest, token, text)
  {
    if x == "" {
      assert x + rest == rest;
    } else {
      assert x[0] in x && (x + rest)[0] == x[0];
      OneCharacterOn(x, rest, token, text);
      SkipBraceless(x[1..], rest, token, text);
      FirstBack(x, ReplaceAll(rest, token, text));
    }
  }

  lemma TokensDiffer()
    ensures TENANT[0] == '{' && DEVICE[0] == '{' && HOST[0] == '{'
    ensures TENANT[1] == 't' && DEVICE[1] == 'd' && HOST[1] == 'h'
    ensures '{' !in TENANT[1..] && '{' !in DEVICE[1..] && '{' !in HOST[1..]
  {
  }

  lemma TakeToken(token: string, rest: string, text: string)
    requires token != ""
    ensures ReplaceAll(token + rest, token, text) == text + ReplaceAll(rest, token, text)
  {
    assert (token + rest)[|token|..] == rest;
  }

  lemma SkipToken(other: string, rest: string, token: string, text: string)
    requires |token| > 1 && |other| > 1 && token[0] == other[0] == '{' && token[1] != other[1] && '{' !in other[1..]
    ensures ReplaceAll(other + rest, token, text) == other + ReplaceAll(rest, token, text)
  {
    assert (other + rest)[1] == other[1];
    assert (other + rest)[1..] == other[1..] + rest;
    SkipBraceless(other[1..], rest, token, text);
    assert [other[0]] + (other[1..] + ReplaceAll(rest, token, text)) == other + ReplaceAll(rest, token, text);
  }

  // Replacing one token fills one kind of placeholder, as long as the others
  // still stand or were filled without braces.
  lemma {:induction false} ReplaceFills(seg: Segment, v: Values, k: Kind, text: string)
    requires Braceless(seg) && Value(v, k) == Value(TOKENS, k)
    requires forall o: Kind | o != k :: Value(v, o) == Value(TOKENS, o) || '{' !in Value(v, o)
    ensures ReplaceAll(Filled(seg, v), Value(TOKENS, k), text) == Filled(seg, With(v, k, text))
  {
    TokensDiffer();
    if seg != [] {
      var rest := Filled(seg[1..], v);
      assert seg[0] in seg;
      assert forall p | p in seg[1..] :: p in seg;
      ReplaceFills(seg[1..], v, k, text);
      if seg[0].Lit? {
        SkipBraceless(seg[0].s, rest, Value(TOKENS, k), text);
      } else if seg[0].kind == k {
        TakeToken(Value(TOKENS, k), rest, text);
      } else if Value(v, seg[0].kind) == Value(TOKENS, seg[0].kind) {
        SkipToken(Value(v, seg[0].kind), rest, Value(TOKENS, k), text);
      } else {
        SkipBraceless(Value(v, seg[0].kind), rest, Value(TOKENS, k), text);
      }
    }
  }

  lemma SlugHasNoBrace(s: string)
    ensures '{' !in Slug(s)
  {
    SlugIsSlug(s);
  }

  // Rendering fills every placeholder with the device's slug.
  lemma RenderingFills(seg: Segment, d: Device)
    requires Braceless(seg)
    ensures PieceOf(Spelled(seg), d.tenant, d.name, d.host) == Filled(seg, SlugsOf(d))
  {
    SlugHasNoBrace(d.tenant);
    SlugHasNoBrace(d.name);
    SlugHasNoBrace(d.host);
    ReplaceFills(seg, TOKENS, ForTenant, Slug(d.tenant));
    var one := With(TOKENS, ForTenant, Slug(d.tenant));
    ReplaceFills(seg, one, ForDevice, Slug(d.name));
    ReplaceFills(seg, With(one, ForDevice, Slug(d.name)), ForHost, Slug(d.host));
  }

  // --------------------------------------------------------------------------
  // What a filled segment tells about its values
  // --------------------------------------------------------------------------

  ghost predicate Mentions(seg: Segment, k: Kind) {
    Slot(k) in seg
  }

  // At most one kind of placeholder, as often as it likes.
  ghost predicate SingleKind(seg: Segment) {
    forall j, k: Kind | Mentions(seg, j) && Mentions(seg, k) :: j == k
  }

  // Every kind at most once.
  ghost predicate OnceEach(seg: Segment) {
    forall i, j | 0 <= i < j < |seg| && seg[i].Slot? :: seg[i] != seg[j]
  }

  lemma {:induction false} FilledConcat(a: Segment, b: Segment, v: Values)
    ensures Filled(a + b, v) == Filled(a, v) + Filled(b, v)
  {
    if a == [] {
      assert a + b == b;
    } else {
      assert (a + b)[1..] == a[1..] + b;
      FilledConcat(a[1..], b, v);
    }
  }

  lemma {:induction false} SameValuesFillSame(seg: Segment, v: Values, w: Values)
    requires forall k: Kind | Mentions(seg, k) :: Value(v, k) == Value(w, k)
    ensures Filled(seg, v) == Filled(seg, w)
  {
    if seg != [] {
      assert forall k: Kind | Mentions(seg[1..], k) :: Mentions(seg, k);
      assert seg[0] in seg;
      assert seg[0].Slot? ==> Mentions(seg, seg[0].kind);
      SameValuesFillSame(seg[1..], v, w);
    }
  }

  lemma {:induction false} LongerValuesFillLonger(seg: Segment, k: Kind, v: Values, w: Values)
    requires forall j: Kind | Mentions(seg, j) :: j == k
    requires |Value(v, k)| < |Value(w, k)|
    ensures |Filled(seg, v)| <= |Filled(seg, w)| && (Mentions(seg, k) ==> |Filled(seg, v)| < |Filled(seg, w)|)
  {
    if seg != [] {
      assert forall j: Kind | Mentions(seg[1..], j) :: Mentions(seg, j);
      assert seg[0] in seg && seg == [seg[0]] + seg[1..];
      assert seg[0].Slot? ==> Mentions(seg, seg[0].kind);
      LongerValuesFillLonger(seg[1..], k, v, w);
    }
  }

  lemma {:induction false} FirstSlotTells(seg: Segment, k: Kind, v: Values, w: Values)
    requires Mentions(seg, k) && forall j: Kind | Mentions(seg, j) :: j == k
    requires |Value(v, k)| == |Value(w, k)| && Filled(seg, v) == Filled(seg, w)
    ensures Value(v, k) == Value(w, k)
  {
    var a, b := Filled(seg, v), Filled(seg, w);
    assert seg == [seg[0]] + seg[1..];
    if seg[0].Lit? {
      var n := |seg[0].s|;
      assert a[n..] == Filled(seg[1..], v) && b[n..] == Filled(seg[1..], w);
      assert forall j: Kind | Mentions(seg[1..], j) :: Mentions(seg, j);
      FirstSlotTells(seg[1..], k, v, w);
    } else {
      assert Mentions(seg, seg[0].kind);
      var n := |Value(v, k)|;
      assert a[..n] == Value(v, k) && b[..n] == Value(w, k);
    }
  }

  // A segment with one kind of placeholder determines its value.
  lemma SegmentPins(seg: Segment, k: Kind, v: Values, w: Values)
    requires SingleKind(seg) && Mentions(seg, k) && Filled(seg, v) == Filled(seg, w)
    ensures Value(v, k) == Value(w, k)
  {
    if |Value(v, k)| < |Value(w, k)| {
      LongerValuesFillLonger(seg, k, v, w);
    } else if |Value(w, k)| < |Value(v, k)| {
      LongerValuesFillLonger(seg, k, w, v);
    } else {
      FirstSlotTells(seg, k, v, w);
    }
  }

  // --------------------------------------------------------------------------
  // File names that must not occur
  // --------------------------------------------------------------------------

  ghost predicate Valid(v: Values) {
    IsSlug(v.tenant) && IsSlug(v.device) && IsSlug(v.host)
  }

  predicate HasSlot(seg: Segment) {
    exists p | p in seg :: p.Slot?
  }

  function LastSlot(seg: Segment): (i: nat)
    requires HasSlot(seg)
    ensures i < |seg| && seg[i].Slot? && forall j | i < j < |seg| :: seg[j].Lit?
  {
    var n := |seg| - 1;
    if seg[n].Slot? then n
    else
      assert seg == seg[..n] + [seg[n]];
      LastSlot(seg[..n])
  }

  // The text behind the last placeholder.
  function Tail(seg: Segment): string
    requires HasSlot(seg)
  {
    Spelled(seg[LastSlot(seg) + 1..])
  }

  // Some device's text file is called .backup already.
  predicate BackupProne(seg: Segment) {
    if !HasSlot(seg) then BackupName(Spelled(seg))
    else
      var u := Tail(seg);
      if '.' in u then u[LastDot(u)..] == ".backup" else |u| < 6 && u == "backup"[6 - |u|..]
  }

  lemma FilledUpToTail(seg: Segment, v: Values)
    requires HasSlot(seg)
    ensures var i := LastSlot(seg); Filled(seg, v) == Filled(seg[..i], v) + Value(v, seg[i].kind) + Tail(seg)
  {
    var i := LastSlot(seg);
    var rest := seg[i + 1..];
    FilledAt(seg, i, v);
    assert forall j | 0 <= j < |rest| :: rest[j] == seg[i + 1 + j] && rest[j].Lit?;
    NoSlotStays(rest, v);
  }

  lemma FilledAt(seg: Segment, i: nat, v: Values)
    requires i < |seg| && seg[i].Slot?
    ensures Filled(seg, v) == Filled(seg[..i], v) + Value(v, seg[i].kind) + Filled(seg[i + 1..], v)
  {
    var rest := seg[i + 1..];
    assert seg == seg[..i] + ([seg[i]] + rest);
    FilledConcat(seg[..i], [seg[i]] + rest, v);
    SlotThen(seg[i].kind, rest, v);
    Grouped(Filled(seg[..i], v), Value(v, seg[i].kind), Filled(rest, v));
  }

  lemma SlotThen(k: Kind, rest: Segment, v: Values)
    ensures Filled([Slot(k)] + rest, v) == Value(v, k) + Filled(rest, v)
  {
    assert ([Slot(k)] + rest)[1..] == rest;
  }

  lemma Grouped(a: string, b: string, c: string)
    ensures a + (b + c) == a + b + c
  {
  }

  lemma NoSlotStays(seg: Segment, v: Values)
    requires !HasSlot(seg)
    ensures Filled(seg, v) == Spelled(seg)
  {
    forall k: Kind | Mentions(seg, k) ensures Value(v, k) == Value(TOKENS, k) {
      assert Slot(k).Slot?;
    }
    SameValuesFillSame(seg, v, TOKENS);
  }

  lemma SlugIsLong(v: Values, k: Kind)
    requires Valid(v)
    ensures var s := Value(v, k); s != "" && s[0] != '.' && s[|s| - 1] != '.'
  {
  }

  lemma LastDotBehind(head: string, u: string)
    requires '.' in u
    ensures LastDot(head + u) == |head| + LastDot(u) && LastDot(u) < |u|
    ensures (head + u)[LastDot(head + u)..] == u[LastDot(u)..]
  {
    var name, k := head + u, |head| + LastDot(u);
    assert name[k] == '.' && name[k + 1..] == u[LastDot(u) + 1..];
    LastDotIs(name, k);
  }

  lemma ExtensionFromDot(name: string)
    ensures BackupName(name) <==> HasExtension(name) && name[LastDot(name)..] == ".backup"
  {
    if HasExtension(name) {
      var k := LastDot(name);
      assert name[k..] == "." + name[k + 1..];
      BackupHasNoDot();
      if name[k..] == ".backup" {
        assert name[k + 1..] == name[k..][1..];
        assert ".backup"[1..] == "backup";
      }
    }
  }

  // Text without a dot, behind a slug, ends in .backup only as the end of it.
  lemma ShortTail(front: string, u: string)
    requires front != "" && front[|front| - 1] != '.' && '.' !in u
    requires LastDot(front + u) < |front + u| && (front + u)[LastDot(front + u)..] == ".backup"
    ensures |u| < 6 && u == "backup"[6 - |u|..]
  {
    var name := front + u;
    var k := LastDot(name);
    assert k == |name| - 7;
    assert forall i | |front| <= i < |name| :: name[i] == u[i - |front|] && u[i - |front|] in u;
    assert k < |front| - 1;
    forall i | 0 <= i < |u| ensures u[i] == "backup"[6 - |u| + i] {
      assert u[i] == name[|front| + i] == name[k..][|front| + i - k];
    }
  }

  // Unless the template is prone to it, no text file is called .backup.
  lemma NeverBackupName(seg: Segment, v: Values)
    requires Valid(v) && !BackupProne(seg)
    ensures !BackupName(Filled(seg, v))
  {
    if !HasSlot(seg) {
      NoSlotStays(seg, v);
    } else {
      var i := LastSlot(seg);
      FilledUpToTail(seg, v);
      SlugIsLong(v, seg[i].kind);
      NotBehindSlug(Filled(seg[..i], v) + Value(v, seg[i].kind), Tail(seg));
    }
  }

  lemma NotBehindSlug(front: string, u: string)
    requires front != "" && front[|front| - 1] != '.'
    requires if '.' in u then u[LastDot(u)..] != ".backup" else !(|u| < 6 && u == "backup"[6 - |u|..])
    ensures !BackupName(front + u)
  {
    ExtensionFromDot(front + u);
    if '.' in u {
      LastDotBehind(front, u);
    } else if BackupName(front + u) {
      ShortTail(front, u);
    }
  }

  // A slug that makes a prone template produce one.
  function BackupSlug(seg: Segment): string {
    if HasSlot(seg) && '.' !in Tail(seg) && |Tail(seg)| < 6 then "r.backup"[..8 - |Tail(seg)|] else "r"
  }

  lemma BackupSlugIsSlug(seg: Segment)
    ensures IsSlug(BackupSlug(seg))
  {
    SafeEverywhere("r.backup");
    var s := BackupSlug(seg);
    assert forall c | c in s :: c in "r.backup" || c == 'r';
  }

  lemma BackupNameOccurs(seg: Segment)
    requires BackupProne(seg)
    ensures var s := BackupSlug(seg); BackupName(Filled(seg, Values(s, s, s)))
  {
    var s := BackupSlug(seg);
    var v := Values(s, s, s);
    if !HasSlot(seg) {
      NoSlotStays(seg, v);
    } else {
      var i := LastSlot(seg);
      FilledUpToTail(seg, v);
      BackupSlugIsSlug(seg);
      BehindBackupSlug(Filled(seg[..i], v), s, Tail(seg));
    }
  }

  lemma AfterR(front: string)
    ensures BackupName(front + "r.backup")
  {
    var stem := front + "r";
    BackupHasNoDot();
    assert front + "r.backup" == stem + "." + "backup" by {
      assert "r.backup" == "r" + "." + "backup";
    }
    DotBefore(stem, "backup");
    StemBefore(stem, "backup");
    assert |stem + "." + "backup"| > 2;
  }

  lemma BehindBackupSlug(front: string, s: string, u: string)
    requires s != "" && if '.' in u then u[LastDot(u)..] == ".backup" else |u| < 6 && s + u == "r.backup"
    ensures BackupName(front + s + u)
  {
    if '.' in u {
      LastDotBehind(front + s, u);
      ExtensionFromDot(front + s + u);
      assert |u| >= 7;
    } else {
      Grouped(front, s, u);
      AfterR(front);
    }
  }

  // --------------------------------------------------------------------------
  // Stems that must not be shared
  // --------------------------------------------------------------------------

  // The directories decide the value of this kind of placeholder.
  ghost predicate Pinned(dirs: seq<Segment>, k: Kind) {
    exists i | 0 <= i < |dirs| :: Mentions(dirs[i], k)
  }

  // Behind every placeholder of the file name that the directories do not
  // decide, the template itself puts a dot.
  ghost predicate Guarded(dirs: seq<Segment>, last: Segment) {
    forall i | 0 <= i < |last| && last[i].Slot? && !Pinned(dirs, last[i].kind) :: DotAfter(last, i)
  }

  ghost predicate DotAfter(last: Segment, i: nat) {
    exists j | i < j < |last| :: last[j].Lit? && '.' in last[j].s
  }

  ghost predicate AgreeOnPinned(dirs: seq<Segment>, v: Values, w: Values) {
    forall k: Kind | Pinned(dirs, k) :: Value(v, k) == Value(w, k)
  }

  // The position of the last placeholder that is not pinned, plus one.
  ghost function FreeUpTo(dirs: seq<Segment>, last: Segment): (n: nat)
    ensures n <= |last|
    ensures n > 0 ==> last[n - 1].Slot? && !Pinned(dirs, last[n - 1].kind)
    ensures forall j | n <= j < |last| && last[j].Slot? :: Pinned(dirs, last[j].kind)
  {
    if last == [] then 0
    else
      var m := |last| - 1;
      if last[m].Slot? && !Pinned(dirs, last[m].kind) then |last|
      else
        assert last == last[..m] + [last[m]];
        FreeUpTo(dirs, last[..m])
  }

  lemma PinnedRest(dirs: seq<Segment>, rest: Segment, v: Values, w: Values)
    requires AgreeOnPinned(dirs, v, w) && forall j | 0 <= j < |rest| && rest[j].Slot? :: Pinned(dirs, rest[j].kind)
    ensures Filled(rest, v) == Filled(rest, w)
  {
    forall k: Kind | Mentions(rest, k) ensures Value(v, k) == Value(w, k) {
      var j :| 0 <= j < |rest| && rest[j] == Slot(k);
      assert Pinned(dirs, rest[j].kind);
    }
    SameValuesFillSame(rest, v, w);
  }

  lemma {:induction false} DotShows(rest: Segment, j: nat, v: Values)
    requires j < |rest| && rest[j].Lit? && '.' in rest[j].s
    ensures '.' in Filled(rest, v)
  {
    if j > 0 {
      DotShows(rest[1..], j - 1, v);
    }
  }

  lemma {:induction false} SlotShows(seg: Segment, v: Values)
    requires Valid(v) && seg != [] && seg[|seg| - 1].Slot?
    ensures var s := Filled(seg, v); s != "" && s[|s| - 1] != '.'
  {
    var n := |seg| - 1;
    assert seg == seg[..n] + [seg[n]] && [seg[n]][1..] == [];
    FilledConcat(seg[..n], [seg[n]], v);
    SlugIsLong(v, seg[n].kind);
    assert Filled([seg[n]], v) == Value(v, seg[n].kind) + "";
  }

  // The stem of a name whose second half has the last dot.
  lemma StemAcross(front: string, rest: string)
    requires front != "" && front[|front| - 1] != '.' && '.' in rest
    ensures Stem(front + rest) == front + rest[..LastDot(rest)]
  {
    LastDotBehind(front, rest);
    assert (front + rest)[|front| - 1] != '.';
    assert front + rest != "..";
    assert (front + rest)[..|front| + LastDot(rest)] == front + rest[..LastDot(rest)];
  }

  // With such dots, two files of one directory differ at most in a part that
  // is followed by a dot they share.
  lemma SplitAtFree(dirs: seq<Segment>, last: Segment, v: Values, w: Values) returns (a: string, b: string, rest: string)
    requires Valid(v) && Valid(w) && Guarded(dirs, last) && AgreeOnPinned(dirs, v, w)
    ensures Filled(last, v) == a + rest && Filled(last, w) == b + rest
    ensures a == b || (a != "" && a[|a| - 1] != '.' && b != "" && b[|b| - 1] != '.' && '.' in rest)
  {
    var n := FreeUpTo(dirs, last);
    var front, back := last[..n], last[n..];
    TwoParts(last, n, v);
    TwoParts(last, n, w);
    PinnedRest(dirs, back, v, w);
    a, b, rest := Filled(front, v), Filled(front, w), Filled(back, v);
    if n == 0 {
      assert front == [];
    } else {
      DotInRest(dirs, last, n, v);
      SlotShows(front, v);
      SlotShows(front, w);
    }
  }

  lemma TwoParts(last: Segment, n: nat, v: Values)
    requires n <= |last|
    ensures Filled(last, v) == Filled(last[..n], v) + Filled(last[n..], v)
  {
    assert last == last[..n] + last[n..];
    FilledConcat(last[..n], last[n..], v);
  }

  lemma StemsTellFilesApart(dirs: seq<Segment>, last: Segment, v: Values, w: Values)
    requires Valid(v) && Valid(w) && Guarded(dirs, last) && AgreeOnPinned(dirs, v, w)
    requires Stem(Filled(last, v)) == Stem(Filled(last, w))
    ensures Filled(last, v) == Filled(last, w)
  {
    var a, b, rest := SplitAtFree(dirs, last, v, w);
    if a != b {
      StemFixesFront(a, b, rest);
    }
  }

  lemma DotInRest(dirs: seq<Segment>, last: Segment, n: nat, v: Values)
    requires 0 < n <= |last| && Guarded(dirs, last) && last[n - 1].Slot? && !Pinned(dirs, last[n - 1].kind)
    ensures '.' in Filled(last[n..], v)
  {
    assert DotAfter(last, n - 1);
    var j :| n - 1 < j < |last| && last[j].Lit? && '.' in last[j].s;
    assert last[n..][j - n] == last[j];
    DotShows(last[n..], j - n, v);
  }

  lemma StemFixesFront(a: string, b: string, rest: string)
    requires a != "" && a[|a| - 1] != '.' && b != "" && b[|b| - 1] != '.' && '.' in rest
    requires Stem(a + rest) == Stem(b + rest)
    ensures a == b
  {
    StemAcross(a, rest);
    StemAcross(b, rest);
    SuffixCancels(a, b, rest[..LastDot(rest)]);
  }

  const PLAIN := Values("q", "q", "q")

  lemma SampleSlugs()
    ensures IsSlug("q") && IsSlug("r.a") && IsSlug("r.b") && Valid(PLAIN)
  {
    SafeEverywhere("q");
    SafeEverywhere("r.a");
    SafeEverywhere("r.b");
  }

  lemma {:induction false} NoDotShows(rest: Segment, v: Values)
    requires forall j | 0 <= j < |rest| :: if rest[j].Lit? then '.' !in rest[j].s else '.' !in Value(v, rest[j].kind)
    ensures '.' !in Filled(rest, v)
  {
    if rest != [] {
      NoDotShows(rest[1..], v);
    }
  }

  // Without one of those dots, two values of that placeholder share a stem.
  lemma StemsCollide(last: Segment, i: nat)
    requires OnceEach(last) && i < |last| && last[i].Slot? && !DotAfter(last, i)
    ensures var k := last[i].kind;
            var f, g := Filled(last, With(PLAIN, k, "r.a")), Filled(last, With(PLAIN, k, "r.b"));
            f != g && Stem(f) == Stem(g)
  {
    var k := last[i].kind;
    OneSlotFilled(last, i, "r.a");
    OneSlotFilled(last, i, "r.b");
    var front, rest := Filled(last[..i], PLAIN), Filled(last[i + 1..], PLAIN);
    NoDotBehind(last, i);
    DottedStem(front, "a", rest);
    DottedStem(front, "b", rest);
    LettersDiffer(front, rest);
  }

  lemma LettersDiffer(front: string, rest: string)
    ensures front + "r.a" + rest != front + "r.b" + rest
    ensures "r.a" == "r." + "a" && "r.b" == "r." + "b"
  {
    var f, g := front + "r.a" + rest, front + "r.b" + rest;
    assert f[|front| + 2] == 'a' && g[|front| + 2] == 'b';
  }

  lemma NoDotBehind(last: Segment, i: nat)
    requires i < |last| && !DotAfter(last, i)
    ensures '.' !in Filled(last[i + 1..], PLAIN)
  {
    var rest := last[i + 1..];
    forall j | 0 <= j < |rest| ensures if rest[j].Lit? then '.' !in rest[j].s else '.' !in Value(PLAIN, rest[j].kind) {
      assert rest[j] == last[i + 1 + j];
    }
    NoDotShows(rest, PLAIN);
  }

  lemma OneSlotFilled(last: Segment, i: nat, s: string)
    requires OnceEach(last) && i < |last| && last[i].Slot?
    ensures Filled(last, With(PLAIN, last[i].kind, s)) == Filled(last[..i], PLAIN) + s + Filled(last[i + 1..], PLAIN)
  {
    var k := last[i].kind;
    var v := With(PLAIN, k, s);
    FilledAt(last, i, v);
    Elsewhere(last, i, s);
  }

  lemma Elsewhere(last: Segment, i: nat, s: string)
    requires OnceEach(last) && i < |last| && last[i].Slot?
    ensures var v := With(PLAIN, last[i].kind, s);
            Filled(last[..i], v) == Filled(last[..i], PLAIN) && Filled(last[i + 1..], v) == Filled(last[i + 1..], PLAIN)
  {
    var v := With(PLAIN, last[i].kind, s);
    var front, rest := last[..i], last[i + 1..];
    assert forall j | 0 <= j < |rest| :: rest[j] == last[i + 1 + j];
    assert !Mentions(front, last[i].kind) && !Mentions(rest, last[i].kind);
    SameValuesFillSame(front, v, PLAIN);
    SameValuesFillSame(rest, v, PLAIN);
  }

  lemma DottedStem(front: string, x: string, rest: string)
    requires '.' !in x && '.' !in rest && x != ""
    ensures Stem(front + ("r." + x) + rest) == front + "r"
  {
    var name := (front + "r") + "." + (x + rest);
    assert front + ("r." + x) + rest == name;
    DotBefore(front + "r", x + rest);
    StemBefore(front + "r", x + rest);
    assert |name| >= 3;
  }

  // --------------------------------------------------------------------------
  // Exactly the templates that keep every fleet apart
  // --------------------------------------------------------------------------

  // The template consists of these directory segments, the segment of the file
  // name, and segments that vanish. Its only braces are those of placeholders,
  // a directory has one kind of them at most, and the name no kind twice.
  ghost predicate Consists(template: string, dirs: seq<Segment>, last: Segment, rest: seq<string>) {
    && Pieces(template, '/') == SpelledAll(dirs) + [Spelled(last)] + rest
    && !Vanishes(Spelled(last)) && (forall s | s in rest :: Vanishes(s))
    && (forall d | d in dirs :: Braceless(d) && SingleKind(d))
    && Braceless(last) && OnceEach(last)
  }

  function SpelledAll(segs: seq<Segment>): seq<string> {
    FilledAll(segs, TOKENS)
  }

  function FilledAll(segs: seq<Segment>, v: Values): seq<string> {
    seq(|segs|, i requires 0 <= i < |segs| => Filled(segs[i], v))
  }

  // Lower-casing leaves names made of slug characters alone.
  ghost predicate LeavesSlugs(lower: string -> string) {
    forall s | (forall c | c in s :: SlugSafe(c)) :: lower(s) == s
  }

  lemma NamePosition(template: string, dirs: seq<Segment>, last: Segment, rest: seq<string>)
    requires Consists(template, dirs, last, rest)
    ensures var ps := Pieces(template, '/');
            && |dirs| < |ps| && !Vanishes(ps[|dirs|]) && (forall j | |dirs| < j < |ps| :: Vanishes(ps[j]))
            && ps[..|dirs|] == SpelledAll(dirs) && ps[|dirs|] == Spelled(last) && LastAt(ps) == |dirs|
  {
    var ps := Pieces(template, '/');
    assert forall j | |dirs| < j < |ps| :: ps[j] == rest[j - |dirs| - 1] && rest[j - |dirs| - 1] in rest;
  }

  // Where such a template puts a device's file.
  lemma PathFills(template: string, dirs: seq<Segment>, last: Segment, rest: seq<string>, d: Device)
    requires Consists(template, dirs, last, rest)
    ensures BackupPath(template, d) == Components(FilledAll(dirs, SlugsOf(d))) + [Filled(last, SlugsOf(d))]
  {
    NamePosition(template, dirs, last, rest);
    PathShape(template, d, |dirs|);
    RenderingFills(last, d);
    DirectoriesFill(dirs, d);
  }

  lemma DirectoriesFill(dirs: seq<Segment>, d: Device)
    requires forall s | s in dirs :: Braceless(s)
    ensures RenderedPieces(SpelledAll(dirs), d) == FilledAll(dirs, SlugsOf(d))
  {
    forall i | 0 <= i < |dirs| ensures RenderedPieces(SpelledAll(dirs), d)[i] == Filled(dirs[i], SlugsOf(d)) {
      RenderingFills(dirs[i], d);
    }
  }

  // One directory means the same values wherever the directories decide.
  lemma SameDirectory(template: string, dirs: seq<Segment>, last: Segment, rest: seq<string>, d: Device, e: Device)
    requires Consists(template, dirs, last, rest)
    ensures Components(FilledAll(dirs, SlugsOf(d))) == Components(FilledAll(dirs, SlugsOf(e))) <==> AgreeOnPinned(dirs, SlugsOf(d), SlugsOf(e))
  {
    DirectoriesFill(dirs, d);
    DirectoriesFill(dirs, e);
    DirectoriesAlike(SpelledAll(dirs), d, e);
    DirectoriesPin(dirs, SlugsOf(d), SlugsOf(e));
  }

  lemma DirectoriesPin(dirs: seq<Segment>, v: Values, w: Values)
    requires forall s | s in dirs :: SingleKind(s)
    ensures FilledAll(dirs, v) == FilledAll(dirs, w) <==> AgreeOnPinned(dirs, v, w)
  {
    if FilledAll(dirs, v) == FilledAll(dirs, w) {
      forall k: Kind | Pinned(dirs, k) ensures Value(v, k) == Value(w, k) {
        var i :| 0 <= i < |dirs| && Mentions(dirs[i], k);
        assert FilledAll(dirs, v)[i] == FilledAll(dirs, w)[i];
        SegmentPins(dirs[i], k, v, w);
      }
    }
    if AgreeOnPinned(dirs, v, w) {
      forall i | 0 <= i < |dirs| ensures FilledAll(dirs, v)[i] == FilledAll(dirs, w)[i] {
        assert forall k: Kind | Mentions(dirs[i], k) :: Pinned(dirs, k);
        SameValuesFillSame(dirs[i], v, w);
      }
    }
  }

  lemma SlugsAreValid(d: Device)
    ensures Valid(SlugsOf(d))
  {
    SlugIsSlug(d.tenant);
    SlugIsSlug(d.name);
    SlugIsSlug(d.host);
  }

  ghost predicate Separates(dirs: seq<Segment>, last: Segment) {
    Guarded(dirs, last) && !BackupProne(last)
  }

  lemma SeparatesPair(template: string, dirs: seq<Segment>, last: Segment, rest: seq<string>, d: Device, e: Device)
    requires Consists(template, dirs, last, rest) && Separates(dirs, last)
    ensures KeepsApart(PathOf(template), d, e)
  {
    var v, w := SlugsOf(d), SlugsOf(e);
    var p, q := BackupPath(template, d), BackupPath(template, e);
    SlugsAreValid(d);
    SlugsAreValid(e);
    PathFills(template, dirs, last, rest, d);
    PathFills(template, dirs, last, rest, e);
    NeverBackupName(last, v);
    SameDirectory(template, dirs, last, rest, d, e);
    assert p[..|p| - 1] == Components(FilledAll(dirs, v)) && q[..|q| - 1] == Components(FilledAll(dirs, w));
    if SameStem(p, q) {
      StemsTellFilesApart(dirs, last, v, w);
    }
  }

  // Accepted fleets under such a template never have two files coincide.
  lemma SeparatingTemplateWorks(c: Config, lower: string -> string, dirs: seq<Segment>, last: Segment, rest: seq<string>)
    requires Acceptable(c, lower) && Consists(c.template, dirs, last, rest) && Separates(dirs, last)
    ensures FilesApart(c.devices, PathFor(c))
  {
    AcceptedHasName(c.template);
    AcceptedPathsDiffer(c, lower);
    AllAlike(c.template, c.devices);
    forall i, j | 0 <= i < |c.devices| && 0 <= j < |c.devices| ensures KeepsApart(PathFor(c), c.devices[i], c.devices[j]) {
      SeparatesPair(c.template, dirs, last, rest, c.devices[i], c.devices[j]);
    }
    KeptApart(c.devices, PathFor(c));
  }

  // --------------------------------------------------------------------------
  // Accepted fleets that show the rest
  // --------------------------------------------------------------------------

  function Named(name: string, v: Values): Device {
    Device(name, v.tenant, v.host, "u", [], true)
  }

  lemma NamedHas(name: string, v: Values)
    requires Valid(v) && Slug(name) == v.device && name != "" && !IsWhitespace(name[0])
    ensures SlugsOf(Named(name, v)) == v && DeviceFilled(Named(name, v))
  {
    SlugFixesSlugs(v.tenant);
    SlugFixesSlugs(v.host);
    NotBlank(name);
    assert SlugSafe(v.host[0]) by {
      assert v.host[0] in v.host;
    }
    NotBlank(v.host);
    NotBlank("u");
  }

  lemma NotBlank(s: string)
    requires s != "" && !IsWhitespace(s[0])
    ensures Trim(s) != ""
  {
    StripRightSplits(s, IsWhitespace);
    assert s[0] in s[0..];
  }

  lemma DashedName(s: string)
    requires IsSlug(s)
    ensures Slug("-" + s) == s && "-" + s != s && forall c | c in "-" + s :: SlugSafe(c)
  {
    var t := "-" + s;
    assert SlugChars(t) == t;
    assert t[1..] == s;
    assert StripLeft(t, Edge) == s;
    assert s[0] in s;
  }

  function OneDevice(template: string, d: Device): Config {
    Config(1, "r", template, [d])
  }

  function TwoDevices(template: string, d: Device, e: Device): Config {
    Config(1, "r", template, [d, e])
  }

  // A prone template overwrites: an accepted fleet of one device whose binary
  // is its own text file.
  lemma ProneTemplateOverwrites(template: string, lower: string -> string, dirs: seq<Segment>, last: Segment, rest: seq<string>)
    returns (c: Config)
    requires Contains(template, DEVICE) && !(['/'] <= template)
    requires Consists(template, dirs, last, rest) && BackupProne(last)
    ensures c.template == template && Acceptable(c, lower) && |c.devices| == 1 && !FilesApart(c.devices, PathFor(c))
  {
    var s := BackupSlug(last);
    var v := Values(s, s, s);
    var d := Named(s, v);
    BackupSlugIsSlug(last);
    SlugFixesSlugs(s);
    assert s[0] in s;
    NamedHas(s, v);
    c := OneDevice(template, d);
    BackupNameOccurs(last);
    PathFills(template, dirs, last, rest, d);
    AcceptedFilesApartExactly(c, lower);
    HasNameIfExtension(Filled(last, v));
    assert c.devices[0] == d;
    assert !NoBackupNames(c.devices, PathFor(c));
  }

  lemma HasNameIfExtension(name: string)
    requires BackupName(name)
    ensures name !in {"..", ".", "/"}
  {
    assert |name| > 2;
  }

  // A template that leaves a placeholder unguarded lets two devices of one
  // accepted fleet share a binary.
  lemma UnguardedTemplateCollides(template: string, lower: string -> string, dirs: seq<Segment>, last: Segment, rest: seq<string>, i: nat)
    returns (c: Config)
    requires Contains(template, DEVICE) && !(['/'] <= template) && LeavesSlugs(lower)
    requires Consists(template, dirs, last, rest)
    requires i < |last| && last[i].Slot? && !Pinned(dirs, last[i].kind) && !DotAfter(last, i)
    ensures c.template == template && Acceptable(c, lower) && |c.devices| == 2 && !FilesApart(c.devices, PathFor(c))
  {
    var k := last[i].kind;
    var d, e := TwoNamed(lower, k, With(PLAIN, k, "r.a"), With(PLAIN, k, "r.b"));
    c := TwoDevices(template, d, e);
    CollidingPaths(template, dirs, last, rest, i, d, e);
    SharedStem(c, lower, d, e);
  }

  lemma CollidingPaths(template: string, dirs: seq<Segment>, last: Segment, rest: seq<string>, i: nat, d: Device, e: Device)
    requires Consists(template, dirs, last, rest)
    requires i < |last| && last[i].Slot? && !Pinned(dirs, last[i].kind) && !DotAfter(last, i)
    requires SlugsOf(d) == With(PLAIN, last[i].kind, "r.a") && SlugsOf(e) == With(PLAIN, last[i].kind, "r.b")
    ensures BackupPath(template, d) != BackupPath(template, e) && SameStem(BackupPath(template, d), BackupPath(template, e))
  {
    var p, q := BackupPath(template, d), BackupPath(template, e);
    StemsCollide(last, i);
    PathFills(template, dirs, last, rest, d);
    PathFills(template, dirs, last, rest, e);
    OnlyFreeDiffers(dirs, last[i].kind);
    SameDirectory(template, dirs, last, rest, d, e);
    LastOf(Components(FilledAll(dirs, SlugsOf(d))), Filled(last, SlugsOf(d)));
    LastOf(Components(FilledAll(dirs, SlugsOf(e))), Filled(last, SlugsOf(e)));
  }

  lemma OnlyFreeDiffers(dirs: seq<Segment>, k: Kind)
    requires !Pinned(dirs, k)
    ensures AgreeOnPinned(dirs, With(PLAIN, k, "r.a"), With(PLAIN, k, "r.b"))
  {
  }

  lemma LastOf(dir: Path, name: string)
    ensures var p := dir + [name]; p != [] && p[|p| - 1] == name && p[..|p| - 1] == dir
  {
  }

  lemma SharedStem(c: Config, lower: string -> string, d: Device, e: Device)
    requires c == TwoDevices(c.template, d, e) && TemplateAccepted(c)
    requires DeviceFilled(d) && DeviceFilled(e) && lower(d.name) != lower(e.name)
    requires BackupPath(c.template, d) != BackupPath(c.template, e) && SameStem(BackupPath(c.template, d), BackupPath(c.template, e))
    ensures Acceptable(c, lower) && !FilesApart(c.devices, PathFor(c))
  {
    TwoAcceptable(c, lower, d, e);
    AcceptedFilesApartExactly(c, lower);
    assert SameStem(PathFor(c)(c.devices[0]), PathFor(c)(c.devices[1]));
  }

  lemma TwoAcceptable(c: Config, lower: string -> string, d: Device, e: Device)
    requires c == TwoDevices(c.template, d, e) && TemplateAccepted(c)
    requires DeviceFilled(d) && DeviceFilled(e) && lower(d.name) != lower(e.name) && BackupPath(c.template, d) != BackupPath(c.template, e)
    ensures Acceptable(c, lower)
  {
    var path := PathFor(c);
    assert c.devices[0] == d && c.devices[1] == e;
    assert FreshAt(c.devices, lower, path, 0) && FreshAt(c.devices, lower, path, 1);
  }

  // Two devices that differ in one slug, under two names.
  lemma TwoNamed(lower: string -> string, k: Kind, v: Values, w: Values) returns (d: Device, e: Device)
    requires LeavesSlugs(lower) && v == With(PLAIN, k, "r.a") && w == With(PLAIN, k, "r.b")
    ensures DeviceFilled(d) && DeviceFilled(e) && SlugsOf(d) == v && SlugsOf(e) == w && lower(d.name) != lower(e.name)
  {
    var other := if k.ForDevice? then w.device else "-" + w.device;
    d, e := Named(v.device, v), Named(other, w);
    SampleSlugs();
    NameFits(v.device, v, v.device);
    NameFits(other, w, w.device);
    SamplesDiffer();
    assert lower(d.name) == d.name && lower(e.name) == e.name;
  }

  lemma SamplesDiffer()
    ensures "r.a" != "r.b" && "-" + "q" != "q"
  {
    assert "r.a"[2] == 'a' && "r.b"[2] == 'b';
  }

  lemma NameFits(name: string, v: Values, slug: string)
    requires Valid(v) && v.device == slug && (name == slug || name == "-" + slug)
    ensures SlugsOf(Named(name, v)) == v && DeviceFilled(Named(name, v)) && forall c | c in name :: SlugSafe(c)
  {
    SlugFixesSlugs(slug);
    DashedName(slug);
    assert slug[0] in slug;
    NamedHas(name, v);
  }

  // Exactly these templates: for a template of plain text and placeholders,
  // every accepted fleet has all its text and binary files distinct if and only
  // if no name can come out with the binaries' extension, and every placeholder
  // of the name is decided by the directories or has a dot behind it.
  lemma TemplatesThatKeepFilesApart(template: string, lower: string -> string, dirs: seq<Segment>, last: Segment, rest: seq<string>)
    requires Contains(template, DEVICE) && !(['/'] <= template) && LeavesSlugs(lower)
    requires Consists(template, dirs, last, rest)
    ensures (forall c: Config | c.template == template && Acceptable(c, lower) :: FilesApart(c.devices, PathFor(c))) <==>
            Separates(dirs, last)
  {
    if Separates(dirs, last) {
      forall c: Config | c.template == template && Acceptable(c, lower) ensures FilesApart(c.devices, PathFor(c)) {
        SeparatingTemplateWorks(c, lower, dirs, last, rest);
      }
    } else if BackupProne(last) {
      var c := ProneTemplateOverwrites(template, lower, dirs, last, rest);
      assert !FilesApart(c.devices, PathFor(c));
    } else {
      var i :| 0 <= i < |last| && last[i].Slot? && !Pinned(dirs, last[i].kind) && !DotAfter(last, i);
      var c := UnguardedTemplateCollides(template, lower, dirs, last, rest, i);
      assert !FilesApart(c.devices, PathFor(c));
    }
  }

  // --------------------------------------------------------------------------
  // Three templates
  // --------------------------------------------------------------------------

  lemma OneSegment(s: string)
    requires '/' !in s
    ensures Pieces(s, '/') == [s]
  {
    PiecesPrefix(s, "", '/');
    assert s + "" == s;
  }

  lemma ContainsAtStart(part: string, rest: string)
    ensures Contains(part + rest, part)
  {
    assert part <= part + rest;
  }

  lemma DeviceConsists()
    ensures Consists(DEVICE, [], [Slot(ForDevice)], []) && Contains(DEVICE, DEVICE) && !(['/'] <= DEVICE)
  {
    OneSlotConsists(DEVICE);
    assert '/' !in DEVICE && DEVICE[0] == '{' && |DEVICE| > 1;
    ContainsAtStart(DEVICE, "");
    assert DEVICE + "" == DEVICE;
  }

  lemma OneSlotConsists(device: string)
    requires device == TOKENS.device && '/' !in device && |device| > 1
    ensures Consists(device, [], [Slot(ForDevice)], [])
  {
    var last: Segment := [Slot(ForDevice)];
    assert last[1..] == [] && device + "" == device;
    assert Spelled(last) == device;
    OneSegment(device);
    assert SpelledAll([]) == [];
    assert SpelledAll([]) + [Spelled(last)] + [] == [device];
  }

  // Under the template `{device}` a name brings its own extension, and two
  // devices whose names differ in it alone share a binary in an accepted fleet.
  lemma NamesWithExtensionsCollide(lower: string -> string, a: string, b: string) returns (c: Config)
    requires LeavesSlugs(lower) && IsSlug(a) && IsSlug(b) && a != b && Stem(a) == Stem(b)
    ensures c.template == DEVICE && |c.devices| == 2 && c.devices[0].name == a && c.devices[1].name == b
    ensures Acceptable(c, lower) && !FilesApart(c.devices, PathFor(c))
    ensures BinarySibling(BackupPath(DEVICE, c.devices[0])) == BinarySibling(BackupPath(DEVICE, c.devices[1]))
  {
    var v, w := With(PLAIN, ForDevice, a), With(PLAIN, ForDevice, b);
    SampleSlugs();
    NamedSlug(a, v);
    NamedSlug(b, w);
    c := TwoDevices(DEVICE, Named(a, v), Named(b, w));
    FileIsName(Named(a, v), v);
    FileIsName(Named(b, w), w);
    FilesShareStem(c, lower, Named(a, v), Named(b, w));
  }

  lemma FilesShareStem(c: Config, lower: string -> string, d: Device, e: Device)
    requires LeavesSlugs(lower) && IsSlug(d.name) && IsSlug(e.name) && d.name != e.name && Stem(d.name) == Stem(e.name)
    requires c == TwoDevices(DEVICE, d, e) && DeviceFilled(d) && DeviceFilled(e)
    requires BackupPath(DEVICE, d) == [d.name] && BackupPath(DEVICE, e) == [e.name]
    ensures Acceptable(c, lower) && !FilesApart(c.devices, PathFor(c))
    ensures BinarySibling(BackupPath(DEVICE, d)) == BinarySibling(BackupPath(DEVICE, e))
  {
    DeviceConsists();
    OneComponent(d.name, e.name);
    assert lower(d.name) == d.name && lower(e.name) == e.name;
    SharedStem(c, lower, d, e);
    AcceptedHasName(DEVICE);
    ShareSibling(d, e);
  }

  lemma ShareSibling(d: Device, e: Device)
    requires LastAt(Pieces(DEVICE, '/')) < |Pieces(DEVICE, '/')| && SameStem(BackupPath(DEVICE, d), BackupPath(DEVICE, e))
    ensures BinarySibling(BackupPath(DEVICE, d)) == BinarySibling(BackupPath(DEVICE, e))
  {
    PathsAlike(DEVICE, d, e);
    SiblingsOf(BackupPath(DEVICE, d), BackupPath(DEVICE, e));
  }

  lemma OneComponent(a: string, b: string)
    requires Stem(a) == Stem(b)
    ensures SameStem([a], [b]) && (a != b ==> [a] != [b])
  {
    var p, q: Path := [a], [b];
    assert p[..0] == q[..0] == [] && p[0] == a && q[0] == b;
  }

  lemma NamedSlug(a: string, v: Values)
    requires Valid(v) && v.device == a
    ensures SlugsOf(Named(a, v)) == v && DeviceFilled(Named(a, v))
  {
    SlugFixesSlugs(a);
    assert a[0] in a;
    NamedHas(a, v);
  }

  lemma FileIsName(d: Device, v: Values)
    requires SlugsOf(d) == v
    ensures BackupPath(DEVICE, d) == [v.device] && LastAt(Pieces(DEVICE, '/')) < |Pieces(DEVICE, '/')|
  {
    var last: Segment := [Slot(ForDevice)];
    DeviceConsists();
    PathFills(DEVICE, [], last, [], d);
    NamePosition(DEVICE, [], last, []);
    assert last[1..] == [] && Filled(last, v) == v.device + "" == v.device;
    assert FilledAll([], v) == [] && Components([]) == [];
  }

  lemma SuchNames()
    ensures IsSlug("r1.rsc") && IsSlug("r1.cfg") && "r1.rsc" != "r1.cfg" && Stem("r1.rsc") == Stem("r1.cfg")
  {
    SafeEverywhere("r1.rsc");
    SafeEverywhere("r1.cfg");
    assert "r1.rsc" == "r1" + "." + "rsc" && "r1.cfg" == "r1" + "." + "cfg";
    NameOfParts("r1", "rsc");
    NameOfParts("r1", "cfg");
    assert "r1.rsc"[3] == 'r' && "r1.cfg"[3] == 'c';
  }

  lemma NameOfParts(stem: string, e: string)
    requires stem != "" && '.' !in e && e != ""
    ensures Stem(stem + "." + e) == stem
  {
    assert |stem + "." + e| > 2;
    StemBefore(stem, e);
  }

  // Under `{device}.backup` every device's binary is its own text file, and
  // any one device makes an accepted fleet.
  lemma BackupTemplateLosesCaptures(d: Device, lower: string -> string)
    requires DeviceFilled(d)
    ensures var c := OneDevice(DEVICE + "." + "backup", d);
            && Acceptable(c, lower) && !FilesApart(c.devices, PathFor(c))
            && BackupPath(c.template, d) == BinarySibling(BackupPath(c.template, d))
  {
    var template := DEVICE + "." + "backup";
    var c := OneDevice(template, d);
    assert '/' !in DEVICE && '/' !in "backup";
    OneSegment(template);
    assert |template| > 1 && template[0] == '{';
    ContainsAtStart(DEVICE, "." + "backup");
    assert DEVICE + ("." + "backup") == template;
    BackupTemplateOverwrites(template, DEVICE, d);
    assert c.devices[0] == d && PathFor(c)(d) == BackupPath(template, d);
  }

  // A fixed extension is not needed: under `{device}/{device}x` no accepted
  // fleet has files that coincide, because the directory decides the name.
  lemma RepeatedPlaceholderIsSafe(c: Config, lower: string -> string)
    requires Acceptable(c, lower) && c.template == DEVICE + ("/" + (DEVICE + "x"))
    ensures FilesApart(c.devices, PathFor(c))
  {
    var dir: Segment := [Slot(ForDevice)];
    var last: Segment := [Slot(ForDevice), Lit("x")];
    assert dir[1..] == [] && last[1..] == [Lit("x")] && [Lit("x")][1..] == [];
    assert Spelled(dir) == DEVICE + "" == DEVICE;
    assert Spelled([Lit("x")]) == "x" + "" == "x" && Spelled(last) == DEVICE + "x";
    TwoSegments(DEVICE, DEVICE + "x");
    assert SpelledAll([dir]) == [DEVICE];
    assert [DEVICE] + [DEVICE + "x"] + [] == [DEVICE, DEVICE + "x"];
    assert |DEVICE + "x"| > 1;
    assert Consists(c.template, [dir], last, []);
    assert Mentions([dir][0], ForDevice);
    assert LastSlot(last) == 0 && last[1..] == [Lit("x")] && Tail(last) == "x";
    assert "backup"[5..] == "p" && "x"[0] == 'x' && "p"[0] == 'p';
    SeparatingTemplateWorks(c, lower, [dir], last, []);
  }

  lemma TwoSegments(a: string, b: string)
    requires '/' !in a && '/' !in b
    ensures Pieces(a + ("/" + b), '/') == [a, b]
  {
    OneSegment(b);
    PiecesOfSeparator(b, '/');
    assert "/" + b == ['/'] + b;
    PiecesPrefix(a, "/" + b, '/');
    assert a + "" == a;
  }
}
