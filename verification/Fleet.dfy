// Which devices a run covers, and why an accepted configuration gives the
// pipeline the distinct files its guarantees start from.
module Fleet {
  import opened Base
  import opened Text
  import opened Paths
  import opened Templates
  import Git
  import Pipeline
  import PipelineProofs

  // Empty lists ask for nothing in particular.
  datatype Filter = Filter(names: seq<string>, tags: seq<string>, tenants: seq<string>, includeDisabled: bool)

  // str::eq_ignore_ascii_case
  predicate SameIgnoringCase(a: string, b: string) {
    |a| == |b| && forall i | 0 <= i < |a| :: AsciiLower(a[i]) == AsciiLower(b[i])
  }

  predicate Among(s: string, options: seq<string>) {
    exists o | o in options :: SameIgnoringCase(s, o)
  }

  predicate Matches(f: Filter, d: Device) {
    var named := Among(d.name, f.names);
    && (f.names == [] || named)
    && (d.enabled || f.includeDisabled || named)
    && (f.tags == [] || exists t | t in f.tags :: Among(t, d.tags))
    && (f.tenants == [] || Among(d.tenant, f.tenants))
  }

  function Matching(f: Filter): Device -> bool {
    d => Matches(f, d)
  }

  // The devices that meet `p`, in configuration order.
  function Kept(devices: seq<Device>, p: Device -> bool): seq<Device> {
    if devices == [] then []
    else (if p(devices[0]) then [devices[0]] else []) + Kept(devices[1..], p)
  }

  predicate HasDevice(devices: seq<Device>, name: string) {
    exists d | d in devices :: SameIgnoringCase(d.name, name)
  }

  // The first explicit name that selects nothing.
  function Unmatched(selected: seq<Device>, names: seq<string>): (r: Option<string>)
    ensures r.None? <==> forall n | n in names :: HasDevice(selected, n)
    ensures r.Some? ==> exists k | 0 <= k < |names| ::
              names[k] == r.value && !HasDevice(selected, names[k]) && forall j | 0 <= j < k :: HasDevice(selected, names[j])
  {
    if names == [] then None
    else if !HasDevice(selected, names[0]) then Some(names[0])
    else
      var r := Unmatched(selected, names[1..]);
      assert r.Some? ==> exists k | 0 <= k < |names| - 1 ::
        names[1..][k] == r.value && !HasDevice(selected, names[1..][k]) && forall j | 0 <= j < k :: HasDevice(selected, names[1..][j]);
      r
  }

  function Select(devices: seq<Device>, f: Filter): Result<seq<Device>, string> {
    var selected := Kept(devices, Matching(f));
    match Unmatched(selected, f.names)
    case Some(name) => Err(name)
    case None => Ok(selected)
  }

  // --------------------------------------------------------------------------
  // What is selected
  // --------------------------------------------------------------------------

  ghost predicate Increasing(positions: seq<nat>, n: nat) {
    && (forall k | 0 <= k < |positions| :: positions[k] < n)
    && (forall j, k | 0 <= j < k < |positions| :: positions[j] < positions[k])
  }

  // The selection is the subsequence of matching devices: every one of them,
  // once, in configuration order.
  ghost predicate Picks(positions: seq<nat>, devices: seq<Device>, p: Device -> bool, kept: seq<Device>) {
    && Increasing(positions, |devices|)
    && |kept| == |positions|
    && (forall k | 0 <= k < |positions| :: kept[k] == devices[positions[k]])
    && (forall i | 0 <= i < |devices| :: i in positions <==> p(devices[i]))
  }

  lemma {:induction false} KeptIsSubsequence(devices: seq<Device>, p: Device -> bool) returns (positions: seq<nat>)
    ensures Picks(positions, devices, p, Kept(devices, p))
  {
    positions := [];
    if devices != [] {
      var later := KeptIsSubsequence(devices[1..], p);
      PicksBehind(later, devices[1..], p, Kept(devices[1..], p), devices[0]);
      assert devices == [devices[0]] + devices[1..];
      positions := (if p(devices[0]) then [0] else []) + Shifted(later);
    }
  }

  // One device in front of a selection.
  lemma PicksBehind(later: seq<nat>, rest: seq<Device>, p: Device -> bool, kept: seq<Device>, d: Device)
    requires Picks(later, rest, p, kept)
    ensures Picks((if p(d) then [0] else []) + Shifted(later), [d] + rest, p, (if p(d) then [d] else []) + kept)
  {
    var all, shifted := [d] + rest, Shifted(later);
    var positions := (if p(d) then [0] else []) + shifted;
    forall i | 0 <= i < |all| ensures i in positions <==> p(all[i]) {
      ShiftedMember(later, i);
      assert i in positions <==> (p(d) && i == 0) || i in shifted;
      assert i > 0 ==> all[i] == rest[i - 1];
    }
    PicksInOrder(later, rest, p, kept, d);
  }

  lemma PicksInOrder(later: seq<nat>, rest: seq<Device>, p: Device -> bool, kept: seq<Device>, d: Device)
    requires Increasing(later, |rest|) && |kept| == |later| && forall k | 0 <= k < |later| :: kept[k] == rest[later[k]]
    ensures var positions := (if p(d) then [0] else []) + Shifted(later);
            var all := (if p(d) then [d] else []) + kept;
            && Increasing(positions, |rest| + 1) && |all| == |positions|
            && forall k | 0 <= k < |positions| :: all[k] == ([d] + rest)[positions[k]]
  {
  }

  function Shifted(later: seq<nat>): seq<nat> {
    seq(|later|, k requires 0 <= k < |later| => later[k] + 1)
  }

  lemma ShiftedMember(later: seq<nat>, i: nat)
    ensures i in Shifted(later) <==> i > 0 && i - 1 in later
  {
    if i > 0 && i - 1 in later {
      var k :| 0 <= k < |later| && later[k] == i - 1;
      assert Shifted(later)[k] == i;
    }
  }

  // Lower-casing, as used to compare names on validation, ignores ASCII case.
  ghost predicate IgnoresCase(lower: string -> string) {
    forall a, b | SameIgnoringCase(a, b) :: lower(a) == lower(b)
  }

  lemma SameIgnoringCaseJoins(a: string, b: string, name: string)
    requires SameIgnoringCase(a, name) && SameIgnoringCase(b, name)
    ensures SameIgnoringCase(a, b)
  {
    forall i | 0 <= i < |a| ensures AsciiLower(a[i]) == AsciiLower(b[i]) {
      assert AsciiLower(a[i]) == AsciiLower(name[i]) == AsciiLower(b[i]);
    }
  }

  lemma OneDeviceOfAName(devices: seq<Device>, lower: string -> string, path: Device -> Path, i: nat, j: nat, name: string)
    requires DevicesAcceptable(devices, lower, path) && IgnoresCase(lower)
    requires i < |devices| && j < |devices|
    requires SameIgnoringCase(devices[i].name, name) && SameIgnoringCase(devices[j].name, name)
    ensures i == j
  {
    SameIgnoringCaseJoins(devices[i].name, devices[j].name, name);
    assert FreshAt(devices, lower, path, i) && FreshAt(devices, lower, path, j);
  }

  // Naming one device selects that device and no other, switched off or not;
  // a name nobody has is an error rather than an empty run.
  lemma NamingSelectsExactlyOne(devices: seq<Device>, lower: string -> string, path: Device -> Path, name: string)
    requires DevicesAcceptable(devices, lower, path) && IgnoresCase(lower)
    ensures var r := Select(devices, Filter([name], [], [], false));
            && (r.Ok? <==> HasDevice(devices, name))
            && (r.Err? ==> r.error == name)
            && (r.Ok? ==> |r.value| == 1 && r.value[0] in devices && SameIgnoringCase(r.value[0].name, name))
  {
    var p := Matching(Filter([name], [], [], false));
    NamingMatchesTheName(name);
    NamedIsAlone(devices, lower, path, p, name);
    UnmatchedName(Kept(devices, p), name);
  }

  lemma UnmatchedName(kept: seq<Device>, name: string)
    ensures Unmatched(kept, [name]) == if HasDevice(kept, name) then None else Some(name)
  {
  }

  lemma NamedIsAlone(devices: seq<Device>, lower: string -> string, path: Device -> Path, p: Device -> bool, name: string)
    requires DevicesAcceptable(devices, lower, path) && IgnoresCase(lower)
    requires forall d :: p(d) <==> SameIgnoringCase(d.name, name)
    ensures var kept := Kept(devices, p);
            && (HasDevice(kept, name) <==> HasDevice(devices, name))
            && (HasDevice(kept, name) ==> |kept| == 1 && kept[0] in devices && SameIgnoringCase(kept[0].name, name))
  {
    var kept := Kept(devices, p);
    var positions := KeptIsSubsequence(devices, p);
    forall d | d in kept ensures d in devices {
      var k :| 0 <= k < |kept| && kept[k] == d;
      assert positions[k] in positions;
    }
    if HasDevice(devices, name) {
      var d :| d in devices && SameIgnoringCase(d.name, name);
      var i :| 0 <= i < |devices| && devices[i] == d;
      forall k | k in positions ensures SameIgnoringCase(devices[k].name, name) {
        assert p(devices[k]);
      }
      OnlyPosition(devices, lower, path, positions, i, name);
      assert kept[0] == d && kept[0] in kept;
    }
  }

  lemma OnlyPosition(devices: seq<Device>, lower: string -> string, path: Device -> Path, positions: seq<nat>, i: nat, name: string)
    requires DevicesAcceptable(devices, lower, path) && IgnoresCase(lower)
    requires Increasing(positions, |devices|) && i in positions
    requires forall k | k in positions :: SameIgnoringCase(devices[k].name, name)
    ensures positions == [i]
  {
    assert |positions| > 1 ==> positions[0] < positions[1];
    forall m | 0 <= m < |positions| ensures positions[m] == i {
      assert positions[m] in positions;
      OneDeviceOfAName(devices, lower, path, positions[m], i, name);
    }
  }

  lemma NamingMatchesTheName(name: string)
    ensures forall d :: Matching(Filter([name], [], [], false))(d) <==> SameIgnoringCase(d.name, name)
  {
    forall d ensures Matches(Filter([name], [], [], false), d) <==> SameIgnoringCase(d.name, name) {
      assert name in [name];
    }
  }

  // What each part of a filter does to the selection: without any, exactly the
  // devices that are switched on; tags and tenants only narrow it, to devices
  // that carry one of them; and a device that is switched off takes part only
  // by name or on request.
  lemma FiltersNarrow(f: Filter, d: Device)
    ensures Matches(Filter([], [], [], false), d) <==> d.enabled
    ensures Matches(f, d) ==> Matches(f.(tags := [], tenants := []), d)
    ensures Matches(f, d) && f.tags != [] ==> exists t, own | t in f.tags && own in d.tags :: SameIgnoringCase(t, own)
    ensures Matches(f, d) && f.tenants != [] ==> exists t | t in f.tenants :: SameIgnoringCase(d.tenant, t)
    ensures Matches(f, d) && !d.enabled ==> f.includeDisabled || exists n | n in f.names :: SameIgnoringCase(d.name, n)
    ensures Matches(f, d) && f.names != [] ==> exists n | n in f.names :: SameIgnoringCase(d.name, n)
  {
    if Matches(f, d) && f.tags != [] {
      var t :| t in f.tags && Among(t, d.tags);
      var own :| own in d.tags && SameIgnoringCase(t, own);
    }
  }

  // A filter is the conjunction of its parts: names, tags and tenants.
  lemma FilterPartsJoin(f: Filter, d: Device)
    ensures Matches(f, d) <==>
            && Matches(Filter(f.names, [], [], f.includeDisabled), d)
            && Matches(Filter([], f.tags, [], true), d)
            && Matches(Filter([], [], f.tenants, true), d)
  {
  }

  // Within a part any one entry will do.
  lemma AnyEntryWillDo(f: Filter, more: seq<string>, d: Device)
    requires more != []
    ensures f.tags != [] ==> (Matches(f.(tags := f.tags + more), d) <==> Matches(f, d) || Matches(f.(tags := more), d))
    ensures f.tenants != [] ==> (Matches(f.(tenants := f.tenants + more), d) <==> Matches(f, d) || Matches(f.(tenants := more), d))
    ensures f.names != [] ==> (Matches(f.(names := f.names + more), d) <==> Matches(f, d) || Matches(f.(names := more), d))
  {
    AmongEither(d.name, f.names, more);
    AmongEither(d.tenant, f.tenants, more);
    assert forall t :: t in f.tags + more <==> t in f.tags || t in more;
  }

  lemma AmongEither(s: string, a: seq<string>, b: seq<string>)
    ensures Among(s, a + b) <==> Among(s, a) || Among(s, b)
  {
    assert forall o :: o in a + b <==> o in a || o in b;
  }

  function Lowered(s: string): string {
    seq(|s|, i requires 0 <= i < |s| => AsciiLower(s[i]))
  }

  lemma CaseIsIgnored(a: string, b: string)
    ensures SameIgnoringCase(a, b) <==> Lowered(a) == Lowered(b)
  {
    if Lowered(a) == Lowered(b) {
      assert |a| == |Lowered(a)| == |b|;
      forall i | 0 <= i < |a| ensures AsciiLower(a[i]) == AsciiLower(b[i]) {
        assert Lowered(a)[i] == Lowered(b)[i];
      }
    }
  }

  // What one entry asks for, whichever case it is written in.
  lemma OneEntryAsks(entry: string, d: Device)
    ensures Matches(Filter([], [entry], [], true), d) <==> exists own | own in d.tags :: Lowered(entry) == Lowered(own)
    ensures Matches(Filter([], [], [entry], true), d) <==> Lowered(entry) == Lowered(d.tenant)
    ensures Matches(Filter([entry], [], [], false), d) <==> Lowered(entry) == Lowered(d.name)
  {
    assert forall o | o in [entry] :: o == entry;
    assert entry in [entry];
    CaseIsIgnored(d.tenant, entry);
    CaseIsIgnored(d.name, entry);
    forall own | own in d.tags ensures SameIgnoringCase(entry, own) <==> Lowered(entry) == Lowered(own) {
      CaseIsIgnored(entry, own);
    }
  }

  // A device that is switched off is treated as one that is switched on, if
  // switched-off ones are asked for or it is named; otherwise it takes no part.
  lemma SwitchedOff(f: Filter, d: Device)
    requires !d.enabled
    ensures Matches(f.(includeDisabled := true), d) <==> Matches(f, d.(enabled := true))
    ensures f.names != [] ==> (Matches(f, d) <==> Matches(f, d.(enabled := true)))
    ensures f.names == [] && !f.includeDisabled ==> !Matches(f, d)
  {
  }

  // --------------------------------------------------------------------------
  // From configuration to pipeline
  // --------------------------------------------------------------------------

  function PipelineDevices(devices: seq<Device>, template: string): (r: seq<Pipeline.Device>)
    ensures |r| == |devices|
    ensures forall i | 0 <= i < |r| :: r[i] == Pipeline.Device(devices[i].name, BackupPath(template, devices[i]))
  {
    seq(|devices|, i requires 0 <= i < |devices| => Pipeline.Device(devices[i].name, BackupPath(template, devices[i])))
  }

  lemma {:induction false} NoSlashInComponents(pieces: seq<string>)
    requires forall p | p in pieces :: '/' !in p
    ensures forall c | c in Components(pieces) :: '/' !in c
  {
    if pieces != [] {
      var n := |pieces| - 1;
      assert forall p | p in pieces[..n] :: p in pieces;
      NoSlashInComponents(pieces[..n]);
      assert pieces[n] in pieces;
    }
  }

  lemma BackupPathResolves(template: string, d: Device)
    requires ".." !in Pieces(template, '/')
    ensures Git.Resolves(BackupPath(template, d))
  {
    PathClimbsOnlyWithTemplate(template, d);
    NoSlashInComponents(Pieces(Paths.Rendered(template, d.tenant, d.name, d.host), '/'));
    var p := BackupPath(template, d);
    assert '/' in "/";
    if p != [] {
      assert p[0] in p;
    }
  }

  // Whatever is selected from an accepted configuration, under a template of a
  // fixed file type that does not climb, the run's files are pairwise distinct
  // and inside the repository.
  lemma SelectionIsReady(c: Config, lower: string -> string, f: Filter)
    requires Acceptable(c, lower) && FilesApart(c.devices, PathFor(c)) && ".." !in Pieces(c.template, '/')
    requires Select(c.devices, f).Ok?
    ensures var devices := PipelineDevices(Select(c.devices, f).value, c.template);
            && PipelineProofs.FilesDistinct(devices)
            && (forall i, j | 0 <= i < j < |devices| :: devices[i].name != devices[j].name)
            && (forall i | 0 <= i < |devices| :: Git.Resolves(devices[i].path))
  {
    var positions := KeptIsSubsequence(c.devices, Matching(f));
    var selected := Kept(c.devices, Matching(f));
    var devices := PipelineDevices(selected, c.template);
    forall i, j | 0 <= i < |devices| && 0 <= j < |devices|
      ensures devices[i].path != BinarySibling(devices[j].path)
      ensures i < j ==> devices[i].path != devices[j].path
      ensures i < j ==> BinarySibling(devices[i].path) != BinarySibling(devices[j].path)
      ensures i < j ==> devices[i].name != devices[j].name
    {
      var a, b := positions[i], positions[j];
      assert devices[i].path == PathFor(c)(c.devices[a]) && devices[j].path == PathFor(c)(c.devices[b]);
      if i < j {
        assert FreshAt(c.devices, lower, PathFor(c), b);
      }
    }
    forall i | 0 <= i < |devices| ensures Git.Resolves(devices[i].path) {
      BackupPathResolves(c.template, selected[i]);
    }
  }
}
