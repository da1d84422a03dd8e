// Where captures live: slugs, the path template, and the checks of src/config.rs
// that keep two devices from sharing a file.
module Paths {
  import opened Base
  import opened Text

  type Path = seq<string>

  datatype Device = Device(name: string, tenant: string, host: string, username: string, tags: seq<string>, enabled: bool)

  datatype Config = Config(concurrency: nat, repoPath: string, template: string, devices: seq<Device>)

  // --------------------------------------------------------------------------
  // Slugs
  // --------------------------------------------------------------------------

  predicate SlugSafe(c: char) {
    'a' <= c <= 'z' || '0' <= c <= '9' || c in {'-', '_', '.'}
  }

  function SlugChar(c: char): (r: char)
    ensures SlugSafe(r)
    ensures SlugSafe(c) ==> r == c
  {
    if SlugSafe(c) then c
    else if 'A' <= c <= 'Z' then c - 'A' + 'a'
    else '-'
  }

  function SlugChars(s: string): (r: string)
    ensures |r| == |s| && forall i | 0 <= i < |s| :: r[i] == SlugChar(s[i])
  {
    seq(|s|, i requires 0 <= i < |s| => SlugChar(s[i]))
  }

  predicate Edge(c: char) {
    c == '.' || c == '-'
  }

  function SlugOf(mapped: string): string {
    var trimmed := StripRight(StripLeft(mapped, Edge), Edge);
    if trimmed == "" || forall c | c in trimmed :: c == '.' then "unnamed" else trimmed
  }

  function Slug(s: string): string {
    SlugOf(SlugChars(s))
  }

  method Slugify(input: string) returns (slug: string)
    ensures slug == Slug(input)
  {
    var out := "";
    for i := 0 to |input|
      invariant out == SlugChars(input)[..i]
    {
      var ch := input[i];
      if SlugSafe(ch) {
        out := out + [ch];
      } else if 'A' <= ch <= 'Z' {
        out := out + [ch - 'A' + 'a'];
      } else {
        out := out + ['-'];
      }
    }
    assert out == SlugChars(input);
    slug := SlugOf(out);
  }

  // A usable path component on its own.
  ghost predicate IsSlug(s: string) {
    s != "" && (forall c | c in s :: SlugSafe(c)) && !Edge(s[0]) && !Edge(s[|s| - 1])
  }

  lemma SlugIsSlug(s: string)
    ensures IsSlug(Slug(s))
  {
    TrimmedIsSlug(SlugChars(s));
  }

  lemma TrimmedIsSlug(mapped: string)
    requires forall i | 0 <= i < |mapped| :: SlugSafe(mapped[i])
    ensures IsSlug(SlugOf(mapped))
  {
    var skip := WhatTrimmingKeeps(mapped);
    SafeInside(mapped, skip, StripRight(StripLeft(mapped, Edge), Edge));
    UnnamedIsSlug();
  }

  lemma WhatTrimmingKeeps(mapped: string) returns (skip: nat)
    ensures var kept := StripRight(StripLeft(mapped, Edge), Edge);
            && skip + |kept| <= |mapped| && kept == mapped[skip..skip + |kept|]
            && (kept != "" ==> !Edge(kept[0]) && !Edge(kept[|kept| - 1]))
  {
    var left := StripLeft(mapped, Edge);
    var kept := StripRight(left, Edge);
    StripLeftSplits(mapped, Edge);
    StripRightSplits(left, Edge);
    skip := |mapped| - |left|;
    assert left == mapped[skip..];
    assert kept == left[..|kept|];
  }

  lemma SafeInside(s: string, skip: nat, inner: string)
    requires forall i | 0 <= i < |s| :: SlugSafe(s[i])
    requires skip + |inner| <= |s| && inner == s[skip..skip + |inner|]
    ensures forall c | c in inner :: SlugSafe(c)
  {
    assert forall i | 0 <= i < |inner| :: inner[i] == s[skip + i];
    SafeEverywhere(inner);
  }

  lemma SafeEverywhere(s: string)
    requires forall i | 0 <= i < |s| :: SlugSafe(s[i])
    ensures forall c | c in s :: SlugSafe(c)
  {
  }

  lemma UnnamedIsSlug()
    ensures IsSlug("unnamed")
  {
    SafeEverywhere("unnamed");
  }

  lemma SlugFixesSlugs(s: string)
    requires IsSlug(s)
    ensures Slug(s) == s
  {
    assert SlugChars(s) == s;
    assert s[0] in s;
  }

  lemma SlugIsIdempotent(s: string)
    ensures Slug(Slug(s)) == Slug(s)
  {
    SlugIsSlug(s);
    SlugFixesSlugs(Slug(s));
  }

  predicate Alphanumeric(c: char) {
    'a' <= c <= 'z' || 'A' <= c <= 'Z' || '0' <= c <= '9'
  }

  // Names that differ only in case share a slug.
  lemma SlugIgnoresCase(a: string, b: string)
    requires |a| == |b| && forall i | 0 <= i < |a| :: AsciiLower(a[i]) == AsciiLower(b[i])
    ensures Slug(a) == Slug(b)
  {
    forall i | 0 <= i < |a| ensures SlugChar(a[i]) == SlugChar(b[i]) {
      SlugOfLower(a[i]);
      SlugOfLower(b[i]);
    }
    assert SlugChars(a) == SlugChars(b);
  }

  lemma SlugOfLower(c: char)
    ensures SlugChar(AsciiLower(c)) == SlugChar(c)
    ensures Alphanumeric(c) ==> SlugChar(c) == AsciiLower(c)
  {
  }

  // A name that begins and ends with a letter or digit keeps every one of its
  // characters in place: letters and digits in lower case, dots, underscores
  // and dashes as they are, and a dash for anything else.
  lemma SlugKeepsNames(s: string)
    requires s != "" && Alphanumeric(s[0]) && Alphanumeric(s[|s| - 1])
    ensures |Slug(s)| == |s|
    ensures forall i | 0 <= i < |s| ::
              Slug(s)[i] == if Alphanumeric(s[i]) then AsciiLower(s[i]) else if s[i] in {'.', '_', '-'} then s[i] else '-'
  {
    var mapped := SlugChars(s);
    SlugOfLower(s[0]);
    SlugOfLower(s[|s| - 1]);
    assert StripLeft(mapped, Edge) == mapped;
    assert StripRight(mapped, Edge) == mapped;
    assert mapped[0] in mapped && mapped[0] != '.';
  }

  // --------------------------------------------------------------------------
  // The template
  // --------------------------------------------------------------------------

  const TENANT := "{tenant}"
  const DEVICE := "{device}"
  const HOST := "{host}"

  function Rendered(template: string, tenant: string, device: string, host: string): string {
    ReplaceAll(ReplaceAll(ReplaceAll(template, TENANT, Slug(tenant)), DEVICE, Slug(device)), HOST, Slug(host))
  }

  // Collecting into a PathBuf: empty pieces vanish, and so does every "." but a leading one.
  function Components(pieces: seq<string>): Path {
    if pieces == [] then []
    else
      var before := Components(pieces[..|pieces| - 1]);
      var last := pieces[|pieces| - 1];
      if last == "" || (last == "." && before != []) then before else before + [last]
  }

  function BackupPath(template: string, d: Device): Path {
    Components(Pieces(Rendered(template, d.tenant, d.name, d.host), '/'))
  }

  // Text made of dots only; the one shape of component that can climb.
  ghost predicate OnlyDots(s: string) {
    forall c | c in s :: c == '.'
  }

  // Inserting a slug cannot produce dots out of anything else.
  lemma {:induction false} ReplaceCannotMakeDots(s: string, token: string, slug: string)
    requires token != "" && !OnlyDots(token) && IsSlug(slug)
    ensures OnlyDots(ReplaceAll(s, token, slug)) <==> OnlyDots(s)
    ensures OnlyDots(s) ==> ReplaceAll(s, token, slug) == s
    decreases |s|
  {
    if s == "" {
    } else if token <= s {
      assert ReplaceAll(s, token, slug)[0] == slug[0];
      var c :| c in token && c != '.';
      assert s == token + s[|token|..];
      assert c in s;
      assert slug[0] in ReplaceAll(s, token, slug);
    } else {
      ReplaceCannotMakeDots(s[1..], token, slug);
      var rest := ReplaceAll(s[1..], token, slug);
      assert forall c :: c in [s[0]] + rest <==> c == s[0] || c in rest;
      assert s == [s[0]] + s[1..];
      assert forall c :: c in s <==> c == s[0] || c in s[1..];
    }
  }

  lemma TokensAreNotDots()
    ensures !OnlyDots(TENANT) && !OnlyDots(DEVICE) && !OnlyDots(HOST)
    ensures '/' !in TENANT && '/' !in DEVICE && '/' !in HOST
  {
    assert '{' in TENANT && '{' in DEVICE && '{' in HOST;
  }

  function PieceOf(piece: string, tenant: string, device: string, host: string): string {
    ReplaceAll(ReplaceAll(ReplaceAll(piece, TENANT, Slug(tenant)), DEVICE, Slug(device)), HOST, Slug(host))
  }

  // Rendering works segment by segment: no name can add or remove a separator.
  lemma RenderActsOnSegments(template: string, tenant: string, device: string, host: string)
    ensures var out := Pieces(Rendered(template, tenant, device, host), '/');
            var ps := Pieces(template, '/');
            |out| == |ps| && forall i | 0 <= i < |ps| :: out[i] == PieceOf(ps[i], tenant, device, host)
  {
    TokensAreNotDots();
    SlugIsSlug(tenant);
    SlugIsSlug(device);
    SlugIsSlug(host);
    var one := ReplaceAll(template, TENANT, Slug(tenant));
    var two := ReplaceAll(one, DEVICE, Slug(device));
    ReplaceActsOnPieces(template, TENANT, Slug(tenant), '/');
    ReplaceActsOnPieces(one, DEVICE, Slug(device), '/');
    ReplaceActsOnPieces(two, HOST, Slug(host), '/');
  }

  lemma DotsSurviveRendering(piece: string, tenant: string, device: string, host: string)
    ensures var out := PieceOf(piece, tenant, device, host);
            (OnlyDots(out) <==> OnlyDots(piece)) && (OnlyDots(piece) ==> out == piece)
  {
    TokensAreNotDots();
    SlugIsSlug(tenant);
    SlugIsSlug(device);
    SlugIsSlug(host);
    var one := ReplaceAll(piece, TENANT, Slug(tenant));
    var two := ReplaceAll(one, DEVICE, Slug(device));
    ReplaceCannotMakeDots(piece, TENANT, Slug(tenant));
    ReplaceCannotMakeDots(one, DEVICE, Slug(device));
    ReplaceCannotMakeDots(two, HOST, Slug(host));
  }

  lemma {:induction false} ComponentsMembers(pieces: seq<string>, c: string)
    requires c != "" && c != "."
    ensures c in Components(pieces) <==> c in pieces
  {
    if pieces != [] {
      ComponentsMembers(pieces[..|pieces| - 1], c);
      assert pieces == pieces[..|pieces| - 1] + [pieces[|pieces| - 1]];
    }
  }

  // A path climbs exactly when the operator's template climbs; device,
  // tenant and host names have no say in it.
  lemma PathClimbsOnlyWithTemplate(template: string, d: Device)
    ensures ".." in BackupPath(template, d) <==> ".." in Pieces(template, '/')
  {
    var ps := Pieces(template, '/');
    var out := Pieces(Rendered(template, d.tenant, d.name, d.host), '/');
    RenderActsOnSegments(template, d.tenant, d.name, d.host);
    ComponentsMembers(out, "..");
    forall i | 0 <= i < |ps|
      ensures out[i] == ".." <==> ps[i] == ".."
    {
      DotsSurviveRendering(ps[i], d.tenant, d.name, d.host);
      assert OnlyDots("..");
    }
    if ".." in out {
      var i :| 0 <= i < |out| && out[i] == "..";
      assert ps[i] in ps;
    }
    if ".." in ps {
      var i :| 0 <= i < |ps| && ps[i] == "..";
      assert out[i] in out;
    }
  }

  // --------------------------------------------------------------------------
  // The binary sibling
  // --------------------------------------------------------------------------

  // Index of the last dot, or |name| when there is none.
  function LastDot(name: string): (k: nat)
    ensures k <= |name|
    ensures k < |name| ==> name[k] == '.' && '.' !in name[k + 1..]
    ensures k == |name| ==> '.' !in name
  {
    if name == "" then 0
    else if name[|name| - 1] == '.' then |name| - 1
    else
      var k := LastDot(name[..|name| - 1]);
      assert name == name[..|name| - 1] + [name[|name| - 1]];
      if k == |name| - 1 then |name|
      else
        assert name[k + 1..] == name[..|name| - 1][k + 1..] + [name[|name| - 1]];
        k
  }

  predicate HasExtension(name: string) {
    name != ".." && 0 < LastDot(name) < |name|
  }

  function Stem(name: string): string {
    if HasExtension(name) then name[..LastDot(name)] else name
  }

  predicate HasFileName(p: Path) {
    p != [] && p[|p| - 1] !in {"..", ".", "/"}
  }

  function BinarySibling(p: Path): Path {
    if HasFileName(p) then p[..|p| - 1] + [Stem(p[|p| - 1]) + ".backup"]
    else p + [".backup"]
  }

  // --------------------------------------------------------------------------
  // Validation
  // --------------------------------------------------------------------------

  datatype ConfigError =
    | NoConcurrency | NoRepository | NoDevicePlaceholder | AbsoluteTemplate
    | NamelessDevice(at: nat) | DuplicateName(at: nat) | NoHost(at: nat) | NoUsername(at: nat)
    | PathCollision(at: nat)

  predicate DeviceFilled(d: Device) {
    Trim(d.name) != "" && Trim(d.host) != "" && Trim(d.username) != ""
  }

  predicate TemplateAccepted(c: Config) {
    c.concurrency != 0 && c.repoPath != "" && Contains(c.template, DEVICE) && !(['/'] <= c.template)
  }

  // Device `i` clashes with no earlier device, in name or in file.
  ghost predicate FreshAt(devices: seq<Device>, lower: string -> string, path: Device -> Path, i: nat)
    requires i < |devices|
  {
    forall j | 0 <= j < i ::
      lower(devices[j].name) != lower(devices[i].name) && path(devices[j]) != path(devices[i])
  }

  ghost predicate DevicesAcceptable(devices: seq<Device>, lower: string -> string, path: Device -> Path) {
    forall i | 0 <= i < |devices| :: DeviceFilled(devices[i]) && FreshAt(devices, lower, path, i)
  }

  function PathFor(c: Config): Device -> Path {
    d => BackupPath(c.template, d)
  }

  // `lower` is the full Unicode lower-casing the names are compared under.
  ghost predicate Acceptable(c: Config, lower: string -> string) {
    TemplateAccepted(c) && DevicesAcceptable(c.devices, lower, PathFor(c))
  }

  ghost function Images<T>(ds: seq<Device>, f: Device -> T): set<T> {
    set d | d in ds :: f(d)
  }

  lemma ImagesExtend<T>(ds: seq<Device>, f: Device -> T, i: nat)
    requires i < |ds|
    ensures Images(ds[..i + 1], f) == Images(ds[..i], f) + {f(ds[i])}
    ensures f(ds[i]) in Images(ds[..i], f) <==> exists j | 0 <= j < i :: f(ds[j]) == f(ds[i])
  {
    assert ds[..i + 1] == ds[..i] + [ds[i]];
    if f(ds[i]) in Images(ds[..i], f) {
      var d :| d in ds[..i] && f(d) == f(ds[i]);
    }
    if j :| 0 <= j < i && f(ds[j]) == f(ds[i]) {
      assert ds[j] in ds[..i];
    }
  }

  predicate Taken<T(==)>(devices: seq<Device>, f: Device -> T, i: nat)
    requires i < |devices|
  {
    exists j | 0 <= j < i :: f(devices[j]) == f(devices[i])
  }

  // The first fault of a device, by whether its name and its file are taken.
  function Fault(d: Device, i: nat, named: bool, filed: bool): Option<ConfigError> {
    if Trim(d.name) == "" then Some(NamelessDevice(i))
    else if named then Some(DuplicateName(i))
    else if Trim(d.host) == "" then Some(NoHost(i))
    else if Trim(d.username) == "" then Some(NoUsername(i))
    else if filed then Some(PathCollision(i))
    else None
  }

  // What is wrong with device `i`, given the devices before it.
  function Problem(devices: seq<Device>, lower: string -> string, path: Device -> Path, i: nat): Option<ConfigError>
    requires i < |devices|
  {
    Fault(devices[i], i, Taken(devices, (e: Device) => lower(e.name), i), Taken(devices, path, i))
  }

  // The error names the first device with a problem, and its first problem.
  ghost predicate FirstProblem(devices: seq<Device>, lower: string -> string, path: Device -> Path, e: ConfigError) {
    exists i | 0 <= i < |devices| ::
      Problem(devices, lower, path, i) == Some(e) && forall j | 0 <= j < i :: Problem(devices, lower, path, j).None?
  }

  method CheckDevices(devices: seq<Device>, lower: string -> string, path: Device -> Path)
    returns (r: Result<(), ConfigError>)
    ensures r.Ok? <==> DevicesAcceptable(devices, lower, path)
    ensures r.Err? ==> FirstProblem(devices, lower, path, r.error)
  {
    var names: set<string>, paths: set<Path> := {}, {};
    ghost var name := (d: Device) => lower(d.name);
    for i := 0 to |devices|
      invariant names == Images(devices[..i], name)
      invariant paths == Images(devices[..i], path)
      invariant forall j | 0 <= j < i :: Problem(devices, lower, path, j).None?
    {
      var d := devices[i];
      ImagesExtend(devices, name, i);
      ImagesExtend(devices, path, i);
      var problem := Fault(d, i, lower(d.name) in names, path(d) in paths);
      SameProblem(devices, lower, path, i, lower(d.name) in names, path(d) in paths);
      if problem.Some? {
        NotAcceptable(devices, lower, path, i);
        return Err(problem.value);
      }
      names := names + {lower(d.name)};
      paths := paths + {path(d)};
    }
    NoProblems(devices, lower, path);
    r := Ok(());
  }

  lemma SameProblem(devices: seq<Device>, lower: string -> string, path: Device -> Path, i: nat, named: bool, filed: bool)
    requires i < |devices|
    requires named <==> exists j | 0 <= j < i :: lower(devices[j].name) == lower(devices[i].name)
    requires filed <==> exists j | 0 <= j < i :: path(devices[j]) == path(devices[i])
    ensures Problem(devices, lower, path, i) == Fault(devices[i], i, named, filed)
  {
    var name := (e: Device) => lower(e.name);
    assert named <==> Taken(devices, name, i) by {
      assert forall j | 0 <= j < i :: name(devices[j]) == lower(devices[j].name);
    }
  }

  // A device without a problem is filled in and clashes with none before it.
  lemma NoProblemIsFresh(devices: seq<Device>, lower: string -> string, path: Device -> Path, i: nat)
    requires i < |devices|
    ensures Problem(devices, lower, path, i).None? <==> DeviceFilled(devices[i]) && FreshAt(devices, lower, path, i)
  {
    var name := (e: Device) => lower(e.name);
    assert forall j | 0 <= j < |devices| :: name(devices[j]) == lower(devices[j].name);
  }

  lemma NotAcceptable(devices: seq<Device>, lower: string -> string, path: Device -> Path, i: nat)
    requires i < |devices| && Problem(devices, lower, path, i).Some?
    ensures !DevicesAcceptable(devices, lower, path)
  {
    NoProblemIsFresh(devices, lower, path, i);
  }

  lemma NoProblems(devices: seq<Device>, lower: string -> string, path: Device -> Path)
    requires forall i | 0 <= i < |devices| :: Problem(devices, lower, path, i).None?
    ensures DevicesAcceptable(devices, lower, path)
  {
    forall i | 0 <= i < |devices| ensures DeviceFilled(devices[i]) && FreshAt(devices, lower, path, i) {
      NoProblemIsFresh(devices, lower, path, i);
    }
  }

  // The fault an error blames device `i` for, and those it is free of.
  ghost predicate Blames(devices: seq<Device>, lower: string -> string, path: Device -> Path, i: nat, e: ConfigError)
    requires i < |devices|
  {
    var d := devices[i];
    var named := exists j | 0 <= j < i :: lower(devices[j].name) == lower(d.name);
    var filed := exists j | 0 <= j < i :: path(devices[j]) == path(d);
    match e
    case NamelessDevice(at) => at == i && Trim(d.name) == ""
    case DuplicateName(at) => at == i && Trim(d.name) != "" && named
    case NoHost(at) => at == i && Trim(d.name) != "" && !named && Trim(d.host) == ""
    case NoUsername(at) => at == i && Trim(d.name) != "" && !named && Trim(d.host) != "" && Trim(d.username) == ""
    case PathCollision(at) => at == i && DeviceFilled(d) && !named && filed
    case _ => false
  }

  // An error tells the truth about a device, and that all before it are in order.
  lemma ErrorsTellTheTruth(devices: seq<Device>, lower: string -> string, path: Device -> Path, e: ConfigError)
    requires FirstProblem(devices, lower, path, e)
    ensures exists i | 0 <= i < |devices| :: Blames(devices, lower, path, i, e) && DevicesAcceptable(devices[..i], lower, path)
  {
    var i :| 0 <= i < |devices| && Problem(devices, lower, path, i) == Some(e) &&
             forall j | 0 <= j < i :: Problem(devices, lower, path, j).None?;
    ProblemBlames(devices, lower, path, i, e);
    EarlierAcceptable(devices, lower, path, i);
  }

  lemma ProblemBlames(devices: seq<Device>, lower: string -> string, path: Device -> Path, i: nat, e: ConfigError)
    requires i < |devices| && Problem(devices, lower, path, i) == Some(e)
    ensures Blames(devices, lower, path, i, e)
  {
    SameProblem(devices, lower, path, i, exists j | 0 <= j < i :: lower(devices[j].name) == lower(devices[i].name),
                exists j | 0 <= j < i :: path(devices[j]) == path(devices[i]));
  }

  lemma EarlierAcceptable(devices: seq<Device>, lower: string -> string, path: Device -> Path, i: nat)
    requires i <= |devices| && forall j | 0 <= j < i :: Problem(devices, lower, path, j).None?
    ensures DevicesAcceptable(devices[..i], lower, path)
  {
    forall j | 0 <= j < i ensures DeviceFilled(devices[..i][j]) && FreshAt(devices[..i], lower, path, j) {
      NoProblemIsFresh(devices, lower, path, j);
    }
  }

  // Nothing accepted lacks a name, a host or a username.
  lemma AcceptedIsFilled(c: Config, lower: string -> string, d: Device)
    requires Acceptable(c, lower) && d in c.devices
    ensures Trim(d.name) != "" && Trim(d.host) != "" && Trim(d.username) != ""
  {
  }

  // Accepted are exactly: a usable template, and no two devices sharing a
  // name or a file. A refusal names the first thing that is wrong.
  method Validate(c: Config, lower: string -> string) returns (r: Result<(), ConfigError>)
    ensures r.Ok? <==> Acceptable(c, lower)
    ensures r == Err(NoConcurrency) <==> c.concurrency == 0
    ensures r == Err(NoRepository) <==> c.concurrency != 0 && c.repoPath == ""
    ensures r == Err(NoDevicePlaceholder) <==> c.concurrency != 0 && c.repoPath != "" && !Contains(c.template, DEVICE)
    ensures r == Err(AbsoluteTemplate) <==>
            c.concurrency != 0 && c.repoPath != "" && Contains(c.template, DEVICE) && ['/'] <= c.template
    ensures r.Err? && TemplateAccepted(c) ==> FirstProblem(c.devices, lower, PathFor(c), r.error)
  {
    if c.concurrency == 0 { return Err(NoConcurrency); }
    if c.repoPath == "" { return Err(NoRepository); }
    if !Contains(c.template, DEVICE) { return Err(NoDevicePlaceholder); }
    if ['/'] <= c.template { return Err(AbsoluteTemplate); }
    r := CheckDevices(c.devices, lower, PathFor(c));
  }

  const DEVICE_RSC := "{device}.rsc"

  ghost predicate EndsWithDeviceFile(template: string) {
    var ps := Pieces(template, '/'); ps[|ps| - 1] == DEVICE_RSC
  }

  lemma DeviceFileRenders(tenant: string, device: string, host: string)
    ensures PieceOf(DEVICE_RSC, tenant, device, host) == Slug(device) + ".rsc"
  {
    SlugIsSlug(device);
    var slug := Slug(device);
    NoBraceNoReplace(".rsc", DEVICE, slug);
    NoBraceNoReplace(slug + ".rsc", HOST, Slug(host));
    assert DEVICE_RSC[8..] == ".rsc";
    TenantNotInDeviceFile(Slug(tenant));
  }

  lemma {:induction false} NoBraceNoReplace(s: string, token: string, text: string)
    requires token != "" && token[0] !in s
    ensures ReplaceAll(s, token, text) == s
  {
    if s != "" {
      NoBraceNoReplace(s[1..], token, text);
    }
  }

  lemma TenantNotInDeviceFile(text: string)
    ensures ReplaceAll(DEVICE_RSC, TENANT, text) == DEVICE_RSC
  {
    assert DEVICE_RSC[1] != TENANT[1];
    NoBraceNoReplace(DEVICE_RSC[1..], TENANT, text);
  }

  // The file name of a device under such a template, with its directory.
  lemma DeviceFilePath(template: string, d: Device)
    requires EndsWithDeviceFile(template)
    ensures var p := BackupPath(template, d);
            && p != [] && p[|p| - 1] == Slug(d.name) + ".rsc"
            && HasFileName(p)
            && BinarySibling(p) == p[..|p| - 1] + [Slug(d.name) + ".backup"]
  {
    var ps := Pieces(template, '/');
    RenderActsOnSegments(template, d.tenant, d.name, d.host);
    DeviceFileRenders(d.tenant, d.name, d.host);
    SlugIsSlug(d.name);
    LastComponent(Pieces(Rendered(template, d.tenant, d.name, d.host), '/'), Slug(d.name));
    DeviceSibling(BackupPath(template, d), Slug(d.name));
  }

  lemma LastComponent(pieces: seq<string>, slug: string)
    requires pieces != [] && pieces[|pieces| - 1] == slug + ".rsc"
    ensures var p := Components(pieces); p != [] && p[|p| - 1] == slug + ".rsc"
  {
    assert |slug + ".rsc"| >= 4;
  }

  lemma DeviceSibling(p: Path, slug: string)
    requires slug != "" && p != [] && p[|p| - 1] == slug + ".rsc"
    ensures HasFileName(p) && BinarySibling(p) == p[..|p| - 1] + [slug + ".backup"]
  {
    assert |slug + ".rsc"| > 4;
    StemOf(slug);
  }

  lemma {:induction false} LastDotIs(name: string, k: nat)
    requires k < |name| && name[k] == '.' && '.' !in name[k + 1..]
    ensures LastDot(name) == k
  {
    if k < |name| - 1 {
      var shorter := name[..|name| - 1];
      assert name[k + 1..] == shorter[k + 1..] + [name[|name| - 1]];
      assert name[|name| - 1] in name[k + 1..];
      LastDotIs(shorter, k);
    }
  }

  lemma StemOf(slug: string)
    requires slug != ""
    ensures HasExtension(slug + ".rsc") && Stem(slug + ".rsc") == slug
  {
    var name := slug + ".rsc";
    assert forall i | |slug| < i < |name| :: name[i] == ".rsc"[i - |slug|];
    LastDotIs(name, |slug|);
    assert name[..|slug|] == slug;
  }
}
