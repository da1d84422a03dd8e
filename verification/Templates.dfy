// Which path templates keep the files of a fleet apart: the text captures of
// src/config.rs and the binary siblings of src/backup.rs together.
module Templates {
  import opened Text
  import opened Paths

  // --------------------------------------------------------------------------
  // When files of one fleet coincide
  // --------------------------------------------------------------------------

  function PathOf(template: string): Device -> Path {
    d => BackupPath(template, d)
  }

  // All text and binary files of a fleet are different files, a device's own
  // two included.
  ghost predicate FilesApart(devices: seq<Device>, path: Device -> Path) {
    forall i, j | 0 <= i < |devices| && 0 <= j < |devices| ::
      var p, q := path(devices[i]), path(devices[j]);
      && (p == q <==> i == j)
      && (BinarySibling(p) == BinarySibling(q) <==> i == j)
      && p != BinarySibling(q)
  }

  // A name whose extension is already the one binaries get.
  predicate BackupName(name: string) {
    HasExtension(name) && name[LastDot(name) + 1..] == "backup"
  }

  lemma BackupHasNoDot()
    ensures '.' !in "backup" && ".backup" == "." + "backup"
  {
  }

  lemma DotBefore(stem: string, e: string)
    requires '.' !in e
    ensures LastDot(stem + "." + e) == |stem| && (stem + "." + e)[|stem| + 1..] == e && (stem + "." + e)[..|stem|] == stem
  {
    var name := stem + "." + e;
    assert name[|stem| + 1..] == e;
    LastDotIs(name, |stem|);
  }

  lemma StemIsNotEmpty(name: string)
    requires name != ""
    ensures Stem(name) != ""
  {
  }

  // The name of a binary has the extension, and the same stem.
  lemma SiblingName(name: string)
    requires name != ""
    ensures BackupName(Stem(name) + ".backup") && Stem(Stem(name) + ".backup") == Stem(name)
  {
    StemIsNotEmpty(name);
    BackupHasNoDot();
    var sibling := Stem(name) + "." + "backup";
    assert sibling == Stem(name) + ".backup";
    DotBefore(Stem(name), "backup");
    assert |sibling| > 2;
  }

  // A name is its own binary's name exactly if it has that extension.
  lemma OwnSibling(name: string)
    requires name != ""
    ensures Stem(name) + ".backup" == name <==> BackupName(name)
  {
    if BackupName(name) {
      BackupHasNoDot();
      assert name == name[..LastDot(name)] + "." + name[LastDot(name) + 1..];
    } else {
      SiblingName(name);
    }
  }

  ghost predicate SameStem(p: Path, q: Path) {
    p != [] && q != [] && p[..|p| - 1] == q[..|q| - 1] && Stem(p[|p| - 1]) == Stem(q[|q| - 1])
  }

  // Files as they come from one template: of one depth, and either all or none
  // with a last component that is no name.
  ghost predicate Alike(p: Path, q: Path) {
    p != [] && q != [] && |p| == |q| && p[|p| - 1] != "" && q[|q| - 1] != "" && (HasFileName(p) <==> HasFileName(q))
    && (!HasFileName(p) ==> p[|p| - 1] == q[|q| - 1])
  }

  lemma SiblingsOf(p: Path, q: Path)
    requires Alike(p, q)
    ensures BinarySibling(p) == BinarySibling(q) <==> SameStem(p, q)
    ensures p == BinarySibling(q) ==> HasFileName(p) && BackupName(p[|p| - 1])
    ensures HasFileName(p) && BackupName(p[|p| - 1]) ==> p == BinarySibling(p)
  {
    var f, g := p[|p| - 1], q[|q| - 1];
    var bp, bq := BinarySibling(p), BinarySibling(q);
    assert p == p[..|p| - 1] + [f] && q == q[..|q| - 1] + [g];
    if HasFileName(p) {
      var sf, sg := Stem(f) + ".backup", Stem(g) + ".backup";
      assert bp == p[..|p| - 1] + [sf] && bq == q[..|q| - 1] + [sg];
      assert bp[..|bp| - 1] == p[..|p| - 1] && bq[..|bq| - 1] == q[..|q| - 1];
      if bp == bq {
        assert sf == bp[|bp| - 1] == bq[|bq| - 1] == sg;
        SuffixCancels(Stem(f), Stem(g), ".backup");
      }
      SiblingName(g);
      OwnSibling(f);
    } else {
      assert bp == p + [".backup"] && bq == q + [".backup"];
      assert bp[..|bp| - 1] == p && bq[..|bq| - 1] == q;
    }
  }

  lemma SuffixCancels(a: string, b: string, suffix: string)
    requires a + suffix == b + suffix
    ensures a == b
  {
    assert |a| == |b|;
    assert a == (a + suffix)[..|a|] && b == (b + suffix)[..|b|];
  }

  ghost predicate NoBackupNames(devices: seq<Device>, path: Device -> Path) {
    forall i | 0 <= i < |devices| :: var p := path(devices[i]); p != [] && HasFileName(p) ==> !BackupName(p[|p| - 1])
  }

  ghost predicate NoSharedStems(devices: seq<Device>, path: Device -> Path) {
    forall i, j | 0 <= i < j < |devices| :: !SameStem(path(devices[i]), path(devices[j]))
  }

  // For any fleet with distinct text files from one template: everything is
  // distinct exactly when no text file is already called .backup and no two
  // in one directory share a stem.
  lemma FilesApartExactly(devices: seq<Device>, path: Device -> Path)
    requires forall i, j | 0 <= i < |devices| && 0 <= j < |devices| :: Alike(path(devices[i]), path(devices[j]))
    requires forall i, j | 0 <= i < j < |devices| :: path(devices[i]) != path(devices[j])
    ensures FilesApart(devices, path) <==> NoBackupNames(devices, path) && NoSharedStems(devices, path)
  {
    forall i, j | 0 <= i < |devices| && 0 <= j < |devices|
      ensures var p, q := path(devices[i]), path(devices[j]);
              && (BinarySibling(p) == BinarySibling(q) <==> SameStem(p, q))
              && (p == BinarySibling(q) ==> HasFileName(p) && BackupName(p[|p| - 1]))
              && (HasFileName(p) && BackupName(p[|p| - 1]) ==> p == BinarySibling(p))
    {
      SiblingsOf(path(devices[i]), path(devices[j]));
    }
    if FilesApart(devices, path) {
      forall i | 0 <= i < |devices| ensures var p := path(devices[i]); p != [] && HasFileName(p) ==> !BackupName(p[|p| - 1]) {
        assert path(devices[i]) != BinarySibling(path(devices[i]));
      }
    }
  }

  // --------------------------------------------------------------------------
  // The shape of a rendered path
  // --------------------------------------------------------------------------

  // Segments that leave no component behind another one.
  predicate Vanishes(piece: string) {
    piece == "" || piece == "."
  }

  // The last segment that becomes a component, or past the end.
  function LastAt(ps: seq<string>): (k: nat)
    ensures k <= |ps|
    ensures k < |ps| ==> !Vanishes(ps[k])
    ensures forall j | k < j < |ps| :: Vanishes(ps[j])
    ensures k == |ps| ==> forall j | 0 <= j < |ps| :: Vanishes(ps[j])
  {
    if ps == [] then 0
    else
      var n := |ps| - 1;
      if !Vanishes(ps[n]) then n
      else
        var k := LastAt(ps[..n]);
        if k == n then |ps| else k
  }

  function RenderedPieces(ps: seq<string>, d: Device): seq<string> {
    seq(|ps|, i requires 0 <= i < |ps| => PieceOf(ps[i], d.tenant, d.name, d.host))
  }

  lemma RenderedAre(template: string, d: Device)
    ensures Pieces(Paths.Rendered(template, d.tenant, d.name, d.host), '/') == RenderedPieces(Pieces(template, '/'), d)
  {
    RenderActsOnSegments(template, d.tenant, d.name, d.host);
  }

  // Whether a segment vanishes, or climbs, is up to the template.
  lemma VanishingStays(piece: string, d: Device)
    ensures var out := PieceOf(piece, d.tenant, d.name, d.host);
            && (out == "" <==> piece == "") && (out == "." <==> piece == ".") && (out == ".." <==> piece == "..")
  {
    DotsSurviveRendering(piece, d.tenant, d.name, d.host);
    assert OnlyDots("") && OnlyDots(".") && OnlyDots("..");
  }

  lemma {:induction false} ComponentsSplit(ps: seq<string>, k: nat)
    requires k < |ps| && !Vanishes(ps[k]) && forall j | k < j < |ps| :: Vanishes(ps[j])
    ensures Components(ps) == Components(ps[..k]) + [ps[k]]
    decreases |ps|
  {
    var n := |ps| - 1;
    if k < n {
      ComponentsSplit(ps[..n], k);
      assert ps[..n][..k] == ps[..k];
    }
  }

  // A path is the components of its directory segments and one file name.
  lemma PathShape(template: string, d: Device, k: nat)
    requires var ps := Pieces(template, '/');
             k < |ps| && !Vanishes(ps[k]) && forall j | k < j < |ps| :: Vanishes(ps[j])
    ensures var ps := Pieces(template, '/');
            BackupPath(template, d) == Components(RenderedPieces(ps[..k], d)) + [PieceOf(ps[k], d.tenant, d.name, d.host)]
  {
    var ps := Pieces(template, '/');
    var out := RenderedPieces(ps, d);
    RenderedAre(template, d);
    forall j | k <= j < |ps| ensures Vanishes(out[j]) <==> Vanishes(ps[j]) {
      VanishingStays(ps[j], d);
    }
    ComponentsSplit(out, k);
    assert out[..k] == RenderedPieces(ps[..k], d);
  }

  // Segment lists that vanish alike have equal components only if equal.
  lemma {:induction false} ComponentsInjective(a: seq<string>, b: seq<string>)
    requires |a| == |b| && forall i | 0 <= i < |a| :: (a[i] == "" <==> b[i] == "") && (a[i] == "." <==> b[i] == ".")
    ensures |Components(a)| == |Components(b)|
    ensures Components(a) == Components(b) <==> a == b
  {
    if a != [] {
      var n := |a| - 1;
      ComponentsInjective(a[..n], b[..n]);
      assert a == a[..n] + [a[n]] && b == b[..n] + [b[n]];
      var ca, cb := Components(a[..n]), Components(b[..n]);
      if Components(a) == Components(b) && !(a[n] == "" || (a[n] == "." && ca != [])) {
        assert (ca + [a[n]])[..|ca|] == ca && (cb + [b[n]])[..|cb|] == cb;
        assert (ca + [a[n]])[|ca|] == a[n] && (cb + [b[n]])[|cb|] == b[n];
      }
    }
  }

  lemma DirectoriesAlike(ps: seq<string>, d: Device, e: Device)
    ensures |Components(RenderedPieces(ps, d))| == |Components(RenderedPieces(ps, e))|
    ensures Components(RenderedPieces(ps, d)) == Components(RenderedPieces(ps, e)) <==> RenderedPieces(ps, d) == RenderedPieces(ps, e)
  {
    var a, b := RenderedPieces(ps, d), RenderedPieces(ps, e);
    forall i | 0 <= i < |ps| ensures (a[i] == "" <==> b[i] == "") && (a[i] == "." <==> b[i] == ".") {
      VanishingStays(ps[i], d);
      VanishingStays(ps[i], e);
    }
    ComponentsInjective(a, b);
  }

  lemma PathsAlike(template: string, d: Device, e: Device)
    requires LastAt(Pieces(template, '/')) < |Pieces(template, '/')|
    ensures Alike(BackupPath(template, d), BackupPath(template, e))
  {
    var ps := Pieces(template, '/');
    var k := LastAt(ps);
    PathShape(template, d, k);
    PathShape(template, e, k);
    DirectoriesAlike(ps[..k], d, e);
    VanishingStays(ps[k], d);
    VanishingStays(ps[k], e);
    NoSlashInName(template, d, k);
    NoSlashInName(template, e, k);
  }

  lemma NoSlashInName(template: string, d: Device, k: nat)
    requires k < |Pieces(template, '/')|
    ensures PieceOf(Pieces(template, '/')[k], d.tenant, d.name, d.host) != "/"
  {
    RenderedAre(template, d);
    var out := Pieces(Paths.Rendered(template, d.tenant, d.name, d.host), '/');
    assert out[k] in out && '/' in "/";
  }

  // --------------------------------------------------------------------------
  // A fixed extension is enough, for any template at all
  // --------------------------------------------------------------------------

  // No placeholder at all.
  predicate Tokenless(s: string) {
    !Contains(s, TENANT) && !Contains(s, DEVICE) && !Contains(s, HOST)
  }

  // The file name ends in an extension that the template alone decides, or is
  // the template's altogether, and that extension is not the binaries'.
  ghost predicate FixedExtension(name: string) {
    if Tokenless(name) then !BackupName(name)
    else exists x, e :: name == x + "." + e && '.' !in e && Tokenless(e) && e != "backup"
  }

  ghost predicate FixedFileType(template: string) {
    var ps := Pieces(template, '/');
    LastAt(ps) < |ps| && FixedExtension(ps[LastAt(ps)])
  }

  lemma {:induction false} AbsentStays(s: string, token: string, text: string)
    requires token != "" && !Contains(s, token)
    ensures ReplaceAll(s, token, text) == s
  {
    if s != "" {
      AbsentStays(s[1..], token, text);
    }
  }

  lemma {:induction false} ReplaceBeforeDot(s: string, e: string, token: string, text: string)
    requires token != "" && '.' !in token && !Contains(e, token)
    ensures ReplaceAll(s + ("." + e), token, text) == ReplaceAll(s, token, text) + ("." + e)
    decreases |s|
  {
    var rest := "." + e;
    if s == "" {
      assert s + rest == rest && rest[1..] == e && rest[0] == '.';
      assert token[0] in token;
      AbsentStays(e, token, text);
    } else if token <= s {
      assert (s + rest)[|token|..] == s[|token|..] + rest;
      ReplaceBeforeDot(s[|token|..], e, token, text);
    } else {
      NotAcrossDot(s, e, token);
      assert (s + rest)[1..] == s[1..] + rest;
      ReplaceBeforeDot(s[1..], e, token, text);
    }
  }

  lemma NotAcrossDot(s: string, e: string, token: string)
    requires '.' !in token && !(token <= s)
    ensures !(token <= s + ("." + e))
  {
    assert (s + ("." + e))[|s|] == '.';
    assert forall k | 0 <= k < |token| :: token[k] in token;
  }

  lemma TokensHaveNoDot()
    ensures '.' !in TENANT && '.' !in DEVICE && '.' !in HOST
  {
  }

  lemma ExtensionSurvives(x: string, e: string, d: Device)
    requires Tokenless(e)
    ensures PieceOf(x + "." + e, d.tenant, d.name, d.host) == PieceOf(x, d.tenant, d.name, d.host) + "." + e
  {
    TokensHaveNoDot();
    assert x + "." + e == x + ("." + e);
    ReplaceBeforeDot(x, e, TENANT, Slug(d.tenant));
    var one := ReplaceAll(x, TENANT, Slug(d.tenant));
    ReplaceBeforeDot(one, e, DEVICE, Slug(d.name));
    ReplaceBeforeDot(ReplaceAll(one, DEVICE, Slug(d.name)), e, HOST, Slug(d.host));
  }

  lemma TokenlessStays(name: string, d: Device)
    requires Tokenless(name)
    ensures PieceOf(name, d.tenant, d.name, d.host) == name
  {
    AbsentStays(name, TENANT, Slug(d.tenant));
    AbsentStays(name, DEVICE, Slug(d.name));
    AbsentStays(name, HOST, Slug(d.host));
  }

  // With a fixed extension the name is never a binary's, and the stem decides it.
  lemma FixedNames(name: string, d: Device, e: Device)
    requires FixedExtension(name)
    ensures var f, g := PieceOf(name, d.tenant, d.name, d.host), PieceOf(name, e.tenant, e.name, e.host);
            !BackupName(f) && (Stem(f) == Stem(g) ==> f == g)
  {
    if Tokenless(name) {
      TokenlessStays(name, d);
      TokenlessStays(name, e);
    } else {
      var x, ext :| name == x + "." + ext && '.' !in ext && Tokenless(ext) && ext != "backup";
      ExtensionSurvives(x, ext, d);
      ExtensionSurvives(x, ext, e);
      var a, b := PieceOf(x, d.tenant, d.name, d.host), PieceOf(x, e.tenant, e.name, e.host);
      DotBefore(a, ext);
      DotBefore(b, ext);
      StemBefore(a, ext);
      StemBefore(b, ext);
      VanishingStays(x, d);
      VanishingStays(x, e);
      VanishingStays(name, d);
      VanishingStays(name, e);
    }
  }

  lemma StemBefore(a: string, ext: string)
    requires '.' !in ext
    ensures a != "" && a + "." + ext != ".." ==> HasExtension(a + "." + ext) && Stem(a + "." + ext) == a
    ensures a == "" ==> !HasExtension(a + "." + ext)
  {
    DotBefore(a, ext);
  }

  lemma LastNameOf(template: string, d: Device)
    requires LastAt(Pieces(template, '/')) < |Pieces(template, '/')|
    ensures var ps := Pieces(template, '/');
            var p := BackupPath(template, d);
            && p != []
            && p[|p| - 1] == PieceOf(ps[LastAt(ps)], d.tenant, d.name, d.host)
            && p[..|p| - 1] == Components(RenderedPieces(ps[..LastAt(ps)], d))
  {
    PathShape(template, d, LastAt(Pieces(template, '/')));
  }

  // Accepted text files of a fixed file type: nothing in the fleet coincides,
  // whatever else the template contains.
  lemma FleetFilesAreDistinct(c: Config, lower: string -> string)
    requires Acceptable(c, lower) && FixedFileType(c.template)
    ensures FilesApart(c.devices, PathFor(c))
  {
    AcceptedPathsDiffer(c, lower);
    AllAlike(c.template, c.devices);
    forall i, j | 0 <= i < |c.devices| && 0 <= j < |c.devices| ensures KeepsApart(PathFor(c), c.devices[i], c.devices[j]) {
      FixedPaths(c.template, c.devices[i], c.devices[j]);
    }
    KeptApart(c.devices, PathFor(c));
  }

  ghost predicate KeepsApart(path: Device -> Path, d: Device, e: Device) {
    path(d) != [] && !BackupName(path(d)[|path(d)| - 1]) && (SameStem(path(d), path(e)) ==> path(d) == path(e))
  }

  lemma KeptApart(devices: seq<Device>, path: Device -> Path)
    requires forall i, j | 0 <= i < |devices| && 0 <= j < |devices| :: Alike(path(devices[i]), path(devices[j]))
    requires forall i, j | 0 <= i < j < |devices| :: path(devices[i]) != path(devices[j])
    requires forall i, j | 0 <= i < |devices| && 0 <= j < |devices| :: KeepsApart(path, devices[i], devices[j])
    ensures FilesApart(devices, path)
  {
    assert forall i | 0 <= i < |devices| :: KeepsApart(path, devices[i], devices[i]);
    FilesApartExactly(devices, path);
  }

  lemma FixedPaths(template: string, d: Device, e: Device)
    requires FixedFileType(template)
    ensures KeepsApart(PathOf(template), d, e)
  {
    var name := Pieces(template, '/')[LastAt(Pieces(template, '/'))];
    LastNameOf(template, d);
    LastNameOf(template, e);
    FixedNames(name, d, e);
    NamesKeepApart(PathOf(template), d, e, PieceOf(name, d.tenant, d.name, d.host), PieceOf(name, e.tenant, e.name, e.host));
  }

  lemma NamesKeepApart(path: Device -> Path, d: Device, e: Device, f: string, g: string)
    requires path(d) != [] && path(d)[|path(d)| - 1] == f && path(e) != [] && path(e)[|path(e)| - 1] == g
    requires !BackupName(f) && (Stem(f) == Stem(g) ==> f == g)
    ensures KeepsApart(path, d, e)
  {
    StemDecides(path(d), path(e));
  }

  lemma StemDecides(p: Path, q: Path)
    requires p != [] && q != [] && (Stem(p[|p| - 1]) == Stem(q[|q| - 1]) ==> p[|p| - 1] == q[|q| - 1])
    ensures SameStem(p, q) ==> p == q
  {
    assert p == p[..|p| - 1] + [p[|p| - 1]] && q == q[..|q| - 1] + [q[|q| - 1]];
  }

  lemma AcceptedPathsDiffer(c: Config, lower: string -> string)
    requires Acceptable(c, lower)
    ensures forall i, j | 0 <= i < j < |c.devices| :: PathFor(c)(c.devices[i]) != PathFor(c)(c.devices[j])
  {
    forall i, j | 0 <= i < j < |c.devices| ensures PathFor(c)(c.devices[i]) != PathFor(c)(c.devices[j]) {
      assert FreshAt(c.devices, lower, PathFor(c), j);
    }
  }

  lemma AllAlike(template: string, devices: seq<Device>)
    requires LastAt(Pieces(template, '/')) < |Pieces(template, '/')|
    ensures forall i, j | 0 <= i < |devices| && 0 <= j < |devices| ::
              Alike(BackupPath(template, devices[i]), BackupPath(template, devices[j]))
  {
    forall i, j | 0 <= i < |devices| && 0 <= j < |devices|
      ensures Alike(BackupPath(template, devices[i]), BackupPath(template, devices[j]))
    {
      PathsAlike(template, devices[i], devices[j]);
    }
  }

  // The same question for any accepted fleet, whatever its template: validation
  // compares text files only, so this is what it leaves unchecked.
  lemma AcceptedFilesApartExactly(c: Config, lower: string -> string)
    requires Acceptable(c, lower)
    ensures FilesApart(c.devices, PathFor(c)) <==> NoBackupNames(c.devices, PathFor(c)) && NoSharedStems(c.devices, PathFor(c))
  {
    AcceptedHasName(c.template);
    AcceptedPathsDiffer(c, lower);
    AllAlike(c.template, c.devices);
    FilesApartExactly(c.devices, PathFor(c));
  }

  lemma {:induction false} SomePieceHas(s: string, sep: char, c: char)
    requires c in s && c != sep
    ensures exists p | p in Pieces(s, sep) :: c in p
  {
    if s[0] == c {
      assert c in Pieces(s, sep)[0];
    } else {
      assert c in s[1..];
      SomePieceHas(s[1..], sep, c);
      var i :| 0 <= i < |Pieces(s[1..], sep)| && c in Pieces(s[1..], sep)[i];
      var rest := Pieces(s[1..], sep);
      if s[0] == sep {
        assert ([""] + rest)[i + 1] == rest[i];
      } else if i == 0 {
        assert c in [s[0]] + rest[0];
      } else {
        assert ([[s[0]] + rest[0]] + rest[1..])[i] == rest[i];
      }
    }
  }

  // A template that names the device leaves a file name.
  lemma AcceptedHasName(template: string)
    requires Contains(template, DEVICE)
    ensures LastAt(Pieces(template, '/')) < |Pieces(template, '/')|
  {
    var ps := Pieces(template, '/');
    var k := IndexOf(template, DEVICE).value;
    assert template[k..][0] == DEVICE[0] == '{';
    assert template[k] in template;
    SomePieceHas(template, '/', '{');
    var i :| 0 <= i < |ps| && '{' in ps[i];
    assert !Vanishes(ps[i]);
  }

  // Templates that end in a file named after the device, as the default does.
  lemma DeviceFileIsFixed(template: string)
    requires EndsWithDeviceFile(template)
    ensures FixedFileType(template)
  {
    var ps := Pieces(template, '/');
    assert ps[|ps| - 1] == "{device}" + "." + "rsc";
    assert DEVICE <= DEVICE_RSC;
    assert '.' !in "rsc" && Tokenless("rsc") && "rsc" != "backup";
  }

  // An extension fixed to the binaries' own: every device's text capture and
  // its binary are one file, in every fleet.
  lemma BackupTemplateOverwrites(template: string, x: string, d: Device)
    requires var ps := Pieces(template, '/');
             LastAt(ps) < |ps| && ps[LastAt(ps)] == x + "." + "backup" && x != ""
    ensures BackupPath(template, d) == BinarySibling(BackupPath(template, d))
  {
    var p := BackupPath(template, d);
    BackupHasNoDot();
    assert HOST[0] == '{' && "backup"[0] == 'b';
    assert Tokenless("backup");
    LastNameOf(template, d);
    ExtensionSurvives(x, "backup", d);
    VanishingStays(x, d);
    var stem := PieceOf(x, d.tenant, d.name, d.host);
    DotBefore(stem, "backup");
    StemBefore(stem, "backup");
    assert |stem + "." + "backup"| > 2;
    PathsAlike(template, d, d);
    SiblingsOf(p, p);
  }
}
