// The framing of a deployment backup: src/backup_archive.rs. Encryption is a
// pair of functions that undo each other; JSON is a test a manifest passes.
module Archive {
  import opened Base

  type Bytes = seq<Byte>

  datatype Entry = Entry(name: Bytes, data: Bytes)

  datatype Corrupt =
    | NameTooLong | EntryTooLarge | ManifestTooLarge
    | Truncated | TruncatedName | TruncatedData | TruncatedManifest | BadManifest
    | TooShort | BadMagic | UnknownFormat(format: nat) | CannotOpen

  const U32: nat := 0x1_0000_0000
  const U64: nat := 0x1_0000_0000_0000_0000

  // --------------------------------------------------------------------------
  // Big-endian numbers
  // --------------------------------------------------------------------------

  // The last `width` base-256 digits of `n`, most significant first.
  function BigEndian(n: nat, width: nat): (s: Bytes)
    ensures |s| == width
  {
    if width == 0 then [] else BigEndian(n / 256, width - 1) + [(n % 256) as Byte]
  }

  function Value(s: Bytes): nat {
    if s == [] then 0 else 256 * Value(s[..|s| - 1]) + s[|s| - 1] as nat
  }

  function Limit(width: nat): nat {
    if width == 0 then 1 else 256 * Limit(width - 1)
  }

  lemma {:induction false} ValueOfBigEndian(n: nat, width: nat)
    requires n < Limit(width)
    ensures Value(BigEndian(n, width)) == n
  {
    if width > 0 {
      ValueOfBigEndian(n / 256, width - 1);
      assert BigEndian(n, width)[..width - 1] == BigEndian(n / 256, width - 1);
    }
  }

  lemma {:induction false} BigEndianOfValue(s: Bytes)
    ensures BigEndian(Value(s), |s|) == s && Value(s) < Limit(|s|)
  {
    if s != [] {
      BigEndianOfValue(s[..|s| - 1]);
      assert Value(s) / 256 == Value(s[..|s| - 1]) && Value(s) % 256 == s[|s| - 1] as nat;
    }
  }

  // Numbers of one width compare like their bytes, the first difference decides.
  lemma {:induction false} HigherBytesFirst(s: Bytes, t: Bytes)
    requires |s| == |t|
    ensures Value(s) < Value(t) <==> exists k :: DecidesAt(s, t, k)
    decreases |s|
  {
    if s != [] {
      var n := |s| - 1;
      HigherBytesFirst(s[..n], t[..n]);
      HigherBytesFirst(t[..n], s[..n]);
      if k :| DecidesAt(s[..n], t[..n], k) {
        assert DecidesAt(s, t, k);
      } else if k :| DecidesAt(t[..n], s[..n], k) {
        assert DecidesAt(t, s, k);
      } else {
        BigEndianOfValue(s[..n]);
        BigEndianOfValue(t[..n]);
        assert s[..n] == t[..n];
        assert forall i | 0 <= i < n :: s[i] == s[..n][i] && t[i] == t[..n][i];
        assert s[n] < t[n] <==> DecidesAt(s, t, n);
      }
    }
  }

  ghost predicate DecidesAt(s: Bytes, t: Bytes, k: int)
    requires |s| == |t|
  {
    0 <= k < |s| && s[k] < t[k] && forall i | 0 <= i < k :: s[i] == t[i]
  }

  lemma Limits()
    ensures Limit(4) == U32 && Limit(8) == U64
  {
    assert Limit(1) == 256 && Limit(2) == 65536 && Limit(3) == 16777216;
    assert Limit(5) == 256 * U32 && Limit(6) == 65536 * U32 && Limit(7) == 16777216 * U32;
  }

  // --------------------------------------------------------------------------
  // Entries
  // --------------------------------------------------------------------------

  predicate Fits(e: Entry) {
    |e.name| < U32 && |e.data| < U64
  }

  ghost predicate AllFit(es: seq<Entry>) {
    forall e | e in es :: Fits(e)
  }

  function Framed(e: Entry): Bytes {
    BigEndian(|e.name|, 4) + e.name + BigEndian(|e.data|, 8) + e.data
  }

  function Framing(es: seq<Entry>): Bytes {
    if es == [] then [] else Framed(es[0]) + Framing(es[1..])
  }

  function ReadNumber(buf: Bytes, width: nat): Result<(nat, Bytes), Corrupt> {
    if |buf| < width then Err(Truncated) else Ok((Value(buf[..width]), buf[width..]))
  }

  function ReadBlock(buf: Bytes, length: nat, short: Corrupt): Result<(Bytes, Bytes), Corrupt> {
    if |buf| < length then Err(short) else Ok((buf[..length], buf[length..]))
  }

  // A length and that many bytes.
  function ReadSized(buf: Bytes, width: nat, short: Corrupt): Result<(Bytes, Bytes), Corrupt> {
    match ReadNumber(buf, width)
    case Err(e) => Err(e)
    case Ok((length, rest)) => ReadBlock(rest, length, short)
  }

  // The first entry, and what follows it.
  function ReadEntry(buf: Bytes): (r: Result<(Entry, Bytes), Corrupt>) {
    match ReadSized(buf, 4, TruncatedName)
    case Err(e) => Err(e)
    case Ok((name, rest)) =>
      match ReadSized(rest, 8, TruncatedData)
      case Err(e) => Err(e)
      case Ok((data, after)) => Ok((Entry(name, data), after))
  }

  lemma SizedReadsBack(width: nat, block: Bytes, rest: Bytes, short: Corrupt)
    requires |block| < Limit(width)
    ensures ReadSized(BigEndian(|block|, width) + block + rest, width, short) == Ok((block, rest))
  {
    ValueOfBigEndian(|block|, width);
    HeadAndTail(BigEndian(|block|, width), block, rest);
  }

  lemma HeadAndTail(head: Bytes, block: Bytes, rest: Bytes)
    ensures (head + block + rest)[..|head|] == head && (head + block + rest)[|head|..] == block + rest
    ensures (block + rest)[..|block|] == block && (block + rest)[|block|..] == rest
  {
  }

  lemma Regrouped(a: Bytes, b: Bytes, c: Bytes)
    ensures a + (b + c) == a + b + c
  {
  }

  lemma SizedIsExact(buf: Bytes, width: nat, short: Corrupt)
    ensures var r := ReadSized(buf, width, short);
            r.Ok? ==>
              && |r.value.0| < Limit(width)
              && buf == BigEndian(|r.value.0|, width) + r.value.0 + r.value.1
  {
    var r := ReadSized(buf, width, short);
    if r.Ok? {
      var head, rest := buf[..width], buf[width..];
      BigEndianOfValue(head);
      assert buf == head + rest && rest == r.value.0 + r.value.1;
      Regrouped(head, r.value.0, r.value.1);
    }
  }

  lemma FramedParts(e: Entry, rest: Bytes)
    ensures Framed(e) + rest == BigEndian(|e.name|, 4) + e.name + (BigEndian(|e.data|, 8) + e.data + rest)
  {
  }

  lemma FramedReadsBack(e: Entry, rest: Bytes)
    requires Fits(e)
    ensures ReadEntry(Framed(e) + rest) == Ok((e, rest))
  {
    Limits();
    FramedParts(e, rest);
    SizedReadsBack(4, e.name, BigEndian(|e.data|, 8) + e.data + rest, TruncatedName);
    SizedReadsBack(8, e.data, rest, TruncatedData);
  }

  lemma ReadIsFramed(buf: Bytes, e: Entry, rest: Bytes)
    requires ReadEntry(buf) == Ok((e, rest))
    ensures Fits(e) && buf == Framed(e) + rest
  {
    Limits();
    SizedIsExact(buf, 4, TruncatedName);
    SizedIsExact(ReadSized(buf, 4, TruncatedName).value.1, 8, TruncatedData);
    FramedParts(e, rest);
  }

  // Reading an entry and framing it undo each other, in both directions.
  lemma EntryIsFramed(buf: Bytes, e: Entry, rest: Bytes)
    ensures ReadEntry(buf) == Ok((e, rest)) <==> Fits(e) && buf == Framed(e) + rest
  {
    if Fits(e) && buf == Framed(e) + rest {
      FramedReadsBack(e, rest);
    }
    if ReadEntry(buf) == Ok((e, rest)) {
      ReadIsFramed(buf, e, rest);
    }
  }

  lemma ReadEntryShrinks(buf: Bytes)
    ensures ReadEntry(buf).Ok? ==> |ReadEntry(buf).value.1| + 12 <= |buf|
  {
    if ReadEntry(buf).Ok? {
      EntryIsFramed(buf, ReadEntry(buf).value.0, ReadEntry(buf).value.1);
    }
  }

  // What the reader says of an entry that is cut short, by where the cut falls.
  lemma CutEntrySays(e: Entry, k: nat)
    requires Fits(e) && k < |Framed(e)|
    ensures ReadEntry(Framed(e)[..k]) ==
            Err(if k < 4 then Truncated
                else if k < 4 + |e.name| then TruncatedName
                else if k < 4 + |e.name| + 8 then Truncated
                else TruncatedData)
  {
    Limits();
    var bytes, size := Framed(e), BigEndian(|e.data|, 8);
    var buf := bytes[..k];
    FramedParts(e, []);
    assert bytes + [] == bytes && size + e.data + [] == size + e.data;
    if k >= 4 {
      assert buf[..4] == BigEndian(|e.name|, 4);
      ValueOfBigEndian(|e.name|, 4);
      if k >= 4 + |e.name| {
        var rest := buf[4..][|e.name|..];
        assert buf[4..][..|e.name|] == e.name;
        assert rest == (size + e.data)[..k - 4 - |e.name|];
        if |rest| >= 8 {
          assert rest[..8] == size;
          ValueOfBigEndian(|e.data|, 8);
        }
      }
    }
  }

  function Prepend(e: Entry, r: Result<seq<Entry>, Corrupt>): Result<seq<Entry>, Corrupt> {
    if r.Ok? then Ok([e] + r.value) else r
  }

  function ReadEntries(buf: Bytes): Result<seq<Entry>, Corrupt>
    decreases |buf|
  {
    if buf == [] then Ok([])
    else
      ReadEntryShrinks(buf);
      match ReadEntry(buf)
      case Err(e) => Err(e)
      case Ok((entry, rest)) => Prepend(entry, ReadEntries(rest))
  }

  // Framing is a bijection between lists of entries and accepted streams.
  lemma {:induction false} FramingIsExact(buf: Bytes, es: seq<Entry>)
    ensures ReadEntries(buf) == Ok(es) <==> AllFit(es) && buf == Framing(es)
    decreases |buf|, 1
  {
    if buf == [] {
      assert es != [] ==> |Framing(es)| >= 12;
    } else {
      ReadEntryShrinks(buf);
      if es != [] {
        FramedApart(buf, es);
      } else {
        assert ReadEntries(buf) != Ok([]);
      }
    }
  }

  lemma FramedApart(buf: Bytes, es: seq<Entry>)
    requires buf != [] && es != []
    requires ReadEntry(buf).Ok? ==> |ReadEntry(buf).value.1| < |buf|
    ensures ReadEntries(buf) == Ok(es) <==> AllFit(es) && buf == Framing(es)
    decreases |buf|, 0
  {
    assert es == [es[0]] + es[1..];
    if ReadEntry(buf).Ok? {
      var (e, rest) := ReadEntry(buf).value;
      EntryIsFramed(buf, e, rest);
      FramingIsExact(rest, es[1..]);
      if AllFit(es) && buf == Framing(es) {
        EntryIsFramed(buf, es[0], Framing(es[1..]));
      }
      if ReadEntries(buf) == Ok(es) {
        assert es[0] == e && ReadEntries(rest) == Ok(es[1..]);
      }
    } else if AllFit(es) && buf == Framing(es) {
      EntryIsFramed(buf, es[0], Framing(es[1..]));
    }
  }

  // --------------------------------------------------------------------------
  // Cuts
  // --------------------------------------------------------------------------

  lemma {:induction false} FramingConcat(a: seq<Entry>, b: seq<Entry>)
    ensures Framing(a + b) == Framing(a) + Framing(b)
  {
    if a == [] {
      assert a + b == b;
    } else {
      assert (a + b)[0] == a[0] && (a + b)[1..] == a[1..] + b;
      FramingConcat(a[1..], b);
    }
  }

  lemma FirstEntryIsFixed(e: Entry, x: Bytes, f: Entry, y: Bytes)
    requires Fits(e) && Fits(f) && Framed(e) + x == Framed(f) + y
    ensures e == f && x == y
  {
    FramedReadsBack(e, x);
    FramedReadsBack(f, y);
  }

  lemma FirstFramed(fs: seq<Entry>, cut: Bytes)
    requires fs != []
    ensures Framing(fs) + cut == Framed(fs[0]) + (Framing(fs[1..]) + cut)
  {
  }

  // Whatever a cut-off stream still reads as is a prefix of what was written.
  lemma {:induction false} CutReadsAsPrefix(es: seq<Entry>, fs: seq<Entry>, cut: Bytes)
    requires AllFit(es) && AllFit(fs) && Framing(es) == Framing(fs) + cut
    ensures fs <= es && cut == Framing(es[|fs|..])
  {
    if fs == [] {
      assert Framing(fs) + cut == cut && es[0..] == es;
    } else {
      FirstFramed(fs, cut);
      assert es != [] by {
        assert |Framed(fs[0])| >= 12;
      }
      FirstEntryIsFixed(es[0], Framing(es[1..]), fs[0], Framing(fs[1..]) + cut);
      assert forall e | e in es[1..] :: e in es;
      assert forall e | e in fs[1..] :: e in fs;
      CutReadsAsPrefix(es[1..], fs[1..], cut);
      SamePrefix(es, fs);
    }
  }

  lemma SamePrefix(es: seq<Entry>, fs: seq<Entry>)
    requires es != [] && fs != [] && es[0] == fs[0] && fs[1..] <= es[1..]
    ensures fs <= es && es[|fs|..] == es[1..][|fs| - 1..]
  {
    assert es == [es[0]] + es[1..] && fs == [fs[0]] + fs[1..];
  }

  // A stream cut at any point is accepted exactly when the cut falls between
  // two entries, and then reads as the entries before it.
  lemma CutIsRejectedInsideEntries(es: seq<Entry>, k: nat)
    requires AllFit(es) && k <= |Framing(es)|
    ensures ReadEntries(Framing(es)[..k]).Ok? <==> exists j | 0 <= j <= |es| :: k == |Framing(es[..j])|
    ensures forall j | 0 <= j <= |es| && k == |Framing(es[..j])| :: ReadEntries(Framing(es)[..k]) == Ok(es[..j])
  {
    var buf := Framing(es)[..k];
    forall j | 0 <= j <= |es| && k == |Framing(es[..j])| ensures ReadEntries(buf) == Ok(es[..j]) {
      CutBetween(es, j);
    }
    if ReadEntries(buf).Ok? {
      var fs := ReadEntries(buf).value;
      FramingIsExact(buf, fs);
      assert Framing(es) == Framing(fs) + Framing(es)[k..];
      CutReadsAsPrefix(es, fs, Framing(es)[k..]);
      assert es[..|fs|] == fs;
    }
  }

  lemma CutBetween(es: seq<Entry>, j: nat)
    requires AllFit(es) && j <= |es|
    ensures |Framing(es[..j])| <= |Framing(es)|
    ensures ReadEntries(Framing(es)[..|Framing(es[..j])|]) == Ok(es[..j])
  {
    assert es == es[..j] + es[j..];
    FramingConcat(es[..j], es[j..]);
    assert forall e | e in es[..j] :: e in es;
    assert Framing(es)[..|Framing(es[..j])|] == Framing(es[..j]);
    FramingIsExact(Framing(es[..j]), es[..j]);
  }

  // --------------------------------------------------------------------------
  // Buffers and cursors
  // --------------------------------------------------------------------------

  class Buffer {
    var bytes: Bytes

    constructor ()
      ensures bytes == []
    {
      bytes := [];
    }

    method Extend(more: Bytes)
      modifies this
      ensures bytes == old(bytes) + more
    {
      bytes := bytes + more;
    }

    // A name that is too long leaves the buffer alone; data that is too large
    // leaves the name behind.
    method WriteEntry(name: Bytes, data: Bytes) returns (r: Result<(), Corrupt>)
      modifies this
      ensures r.Ok? <==> Fits(Entry(name, data))
      ensures r.Ok? ==> bytes == old(bytes) + Framed(Entry(name, data))
      ensures |name| >= U32 ==> r == Err(NameTooLong) && bytes == old(bytes)
      ensures |name| < U32 && |data| >= U64 ==> r == Err(EntryTooLarge) && bytes == old(bytes) + (BigEndian(|name|, 4) + name)
    {
      if |name| >= U32 {
        return Err(NameTooLong);
      }
      Extend(BigEndian(|name|, 4));
      Extend(name);
      if |data| >= U64 {
        return Err(EntryTooLarge);
      }
      Extend(BigEndian(|data|, 8));
      Extend(data);
      r := Ok(());
    }
  }

  class Cursor {
    var rest: Bytes

    constructor (bytes: Bytes)
      ensures rest == bytes
    {
      rest := bytes;
    }

    method ReadU(width: nat) returns (r: Result<nat, Corrupt>)
      modifies this
      ensures var n := ReadNumber(old(rest), width);
              if n.Ok? then r == Ok(n.value.0) && rest == n.value.1 else r == Err(n.error) && rest == old(rest)
    {
      if |rest| < width {
        return Err(Truncated);
      }
      var head := rest[..width];
      rest := rest[width..];
      r := Ok(Value(head));
    }

    method Take(length: nat, short: Corrupt) returns (r: Result<Bytes, Corrupt>)
      modifies this
      ensures var b := ReadBlock(old(rest), length, short);
              if b.Ok? then r == Ok(b.value.0) && rest == b.value.1 else r == Err(b.error) && rest == old(rest)
    {
      if |rest| < length {
        return Err(short);
      }
      r := Ok(rest[..length]);
      rest := rest[length..];
    }
  }

  // The first entry of `buf` and how many bytes it takes.
  method ReadOne(buf: Bytes) returns (r: Result<(Entry, nat), Corrupt>)
    ensures var e := ReadEntry(buf);
            if e.Ok? then r == Ok((e.value.0, |buf| - |e.value.1|)) && buf[r.value.1..] == e.value.1 else r == Err(e.error)
    ensures r.Ok? ==> 12 <= r.value.1 <= |buf|
  {
    ReadEntryShrinks(buf);
    var c := new Cursor(buf);
    var nameLength := c.ReadU(4);
    if nameLength.Err? {
      return Err(nameLength.error);
    }
    var name := c.Take(nameLength.value, TruncatedName);
    if name.Err? {
      return Err(name.error);
    }
    var dataLength := c.ReadU(8);
    if dataLength.Err? {
      return Err(dataLength.error);
    }
    var data := c.Take(dataLength.value, TruncatedData);
    if data.Err? {
      return Err(data.error);
    }
    r := Ok((Entry(name.value, data.value), 12 + nameLength.value + dataLength.value));
    assert buf[r.value.1..] == c.rest;
  }

  function Onto(files: seq<Entry>, r: Result<seq<Entry>, Corrupt>): Result<seq<Entry>, Corrupt> {
    if r.Ok? then Ok(files + r.value) else r
  }

  lemma OntoSteps(files: seq<Entry>, e: Entry, r: Result<seq<Entry>, Corrupt>)
    ensures Onto(files, Prepend(e, r)) == Onto(files + [e], r)
    ensures Onto([], r) == r
  {
    if r.Ok? {
      assert files + ([e] + r.value) == files + [e] + r.value;
      assert [] + r.value == r.value;
    }
  }

  method ReadAll(payload: Bytes) returns (r: Result<seq<Entry>, Corrupt>)
    ensures r == ReadEntries(payload)
  {
    var rest := payload;
    var files: seq<Entry> := [];
    OntoSteps([], Entry([], []), ReadEntries(payload));
    while rest != []
      invariant ReadEntries(payload) == Onto(files, ReadEntries(rest))
      decreases |rest|
    {
      var one := ReadOne(rest);
      if one.Err? {
        return Err(one.error);
      }
      var (entry, consumed) := one.value;
      OntoSteps(files, entry, ReadEntries(rest[consumed..]));
      files := files + [entry];
      rest := rest[consumed..];
    }
    assert files + [] == files;
    r := Ok(files);
  }

  method WriteAll(entries: seq<Entry>) returns (r: Result<Bytes, Corrupt>)
    ensures r.Ok? <==> AllFit(entries)
    ensures r.Ok? ==> r.value == Framing(entries)
  {
    var out := new Buffer();
    for i := 0 to |entries|
      invariant AllFit(entries[..i]) && out.bytes == Framing(entries[..i])
    {
      var e := entries[i];
      var wrote := out.WriteEntry(e.name, e.data);
      assert e in entries;
      if wrote.Err? {
        return Err(wrote.error);
      }
      assert entries[..i + 1] == entries[..i] + [e];
      FramingConcat(entries[..i], [e]);
      assert Framing([e]) == Framed(e) + Framing([]);
    }
    assert entries[..|entries|] == entries;
    r := Ok(out.bytes);
  }

  // --------------------------------------------------------------------------
  // Whole archives
  // --------------------------------------------------------------------------

  // Sealing under the master key, and the test a manifest has to pass.
  datatype Codec = Codec(seal: Bytes -> Bytes, open: Bytes -> Option<Bytes>, parses: Bytes -> bool)

  // Opening undoes sealing, and sealing adds a nonce and a tag.
  ghost predicate SealsFaithfully(c: Codec) {
    forall p :: c.open(c.seal(p)) == Some(p) && |c.seal(p)| >= 40
  }

  const MAGIC: Bytes := [68, 78, 68, 68, 66, 75, 80, 49]
  const FORMAT: nat := 1

  datatype Opened = Opened(manifest: Bytes, files: seq<Entry>)

  function Payload(manifest: Bytes, entries: seq<Entry>): Bytes {
    BigEndian(|manifest|, 4) + manifest + Framing(entries)
  }

  function ArchiveBytes(c: Codec, manifest: Bytes, entries: seq<Entry>): Bytes {
    MAGIC + BigEndian(FORMAT, 4) + c.seal(Payload(manifest, entries))
  }

  function ReadPayload(c: Codec, payload: Bytes): Result<Opened, Corrupt> {
    match ReadSized(payload, 4, TruncatedManifest)
    case Err(e) => Err(e)
    case Ok((manifest, rest)) =>
      if !c.parses(manifest) then Err(BadManifest)
      else
        match ReadEntries(rest)
        case Err(e) => Err(e)
        case Ok(files) => Ok(Opened(manifest, files))
  }

  function ReadArchive(c: Codec, bytes: Bytes): Result<Opened, Corrupt> {
    if |bytes| < 16 then Err(TooShort)
    else if bytes[..8] != MAGIC then Err(BadMagic)
    else if Value(bytes[8..12]) != FORMAT then Err(UnknownFormat(Value(bytes[8..12])))
    else
      match c.open(bytes[12..])
      case None => Err(CannotOpen)
      case Some(payload) => ReadPayload(c, payload)
  }

  method SealArchive(c: Codec, manifest: Bytes, entries: seq<Entry>) returns (r: Result<Bytes, Corrupt>)
    ensures r.Ok? <==> |manifest| < U32 && AllFit(entries)
    ensures r.Ok? ==> r.value == ArchiveBytes(c, manifest, entries)
  {
    if |manifest| >= U32 {
      return Err(ManifestTooLarge);
    }
    var framed := WriteAll(entries);
    if framed.Err? {
      return Err(framed.error);
    }
    var payload := BigEndian(|manifest|, 4) + manifest;
    payload := payload + framed.value;
    r := Ok(MAGIC + BigEndian(FORMAT, 4) + c.seal(payload));
  }

  method OpenArchive(c: Codec, bytes: Bytes) returns (r: Result<Opened, Corrupt>)
    ensures r == ReadArchive(c, bytes)
  {
    if |bytes| < 16 {
      return Err(TooShort);
    }
    if bytes[..8] != MAGIC {
      return Err(BadMagic);
    }
    var format := Value(bytes[8..12]);
    if format != FORMAT {
      return Err(UnknownFormat(format));
    }
    var payload := c.open(bytes[12..]);
    if payload.None? {
      return Err(CannotOpen);
    }
    var rest := new Cursor(payload.value);
    var length := rest.ReadU(4);
    if length.Err? {
      return Err(length.error);
    }
    var manifest := rest.Take(length.value, TruncatedManifest);
    if manifest.Err? {
      return Err(manifest.error);
    }
    if !c.parses(manifest.value) {
      return Err(BadManifest);
    }
    var files := ReadAll(rest.rest);
    if files.Err? {
      return Err(files.error);
    }
    r := Ok(Opened(manifest.value, files.value));
  }

  // What is accepted is exactly what a writer could have written.
  lemma PayloadIsExact(c: Codec, payload: Bytes, manifest: Bytes, entries: seq<Entry>)
    ensures ReadPayload(c, payload) == Ok(Opened(manifest, entries)) <==>
            payload == Payload(manifest, entries) && |manifest| < U32 && AllFit(entries) && c.parses(manifest)
  {
    Limits();
    if payload == Payload(manifest, entries) && |manifest| < U32 {
      SizedReadsBack(4, manifest, Framing(entries), TruncatedManifest);
      FramingIsExact(Framing(entries), entries);
    }
    if ReadPayload(c, payload) == Ok(Opened(manifest, entries)) {
      SizedIsExact(payload, 4, TruncatedManifest);
      FramingIsExact(ReadSized(payload, 4, TruncatedManifest).value.1, entries);
    }
  }

  // A written archive opens to what was put in.
  lemma ArchiveOpens(c: Codec, manifest: Bytes, entries: seq<Entry>)
    requires SealsFaithfully(c) && c.parses(manifest) && |manifest| < U32 && AllFit(entries)
    ensures ReadArchive(c, ArchiveBytes(c, manifest, entries)) == Ok(Opened(manifest, entries))
  {
    var bytes, payload := ArchiveBytes(c, manifest, entries), Payload(manifest, entries);
    assert |c.seal(payload)| >= 40;
    assert bytes[..8] == MAGIC && bytes[8..12] == BigEndian(FORMAT, 4) && bytes[12..] == c.seal(payload);
    Limits();
    ValueOfBigEndian(FORMAT, 4);
    PayloadIsExact(c, payload, manifest, entries);
  }

  // An archive is accepted exactly if it is the magic, format one and what a
  // writer could have sealed, and every refusal has its own cause.
  lemma ArchiveIsExact(c: Codec, bytes: Bytes, manifest: Bytes, files: seq<Entry>)
    ensures ReadArchive(c, bytes) == Ok(Opened(manifest, files)) <==>
            && |bytes| >= 16 && bytes[..8] == Ascii("DNDDBKP1") && bytes[8..12] == [0, 0, 0, 1]
            && c.open(bytes[12..]) == Some(Payload(manifest, files))
            && |manifest| < U32 && AllFit(files) && c.parses(manifest)
    ensures ReadArchive(c, bytes) == Err(TooShort) <==> |bytes| < 16
    ensures ReadArchive(c, bytes) == Err(BadMagic) <==> |bytes| >= 16 && bytes[..8] != Ascii("DNDDBKP1")
    ensures (exists n :: ReadArchive(c, bytes) == Err(UnknownFormat(n))) <==>
            |bytes| >= 16 && bytes[..8] == Ascii("DNDDBKP1") && bytes[8..12] != [0, 0, 0, 1]
    ensures ReadArchive(c, bytes) == Err(CannotOpen) <==>
            |bytes| >= 16 && bytes[..8] == Ascii("DNDDBKP1") && bytes[8..12] == [0, 0, 0, 1] && c.open(bytes[12..]).None?
  {
    assert Ascii("DNDDBKP1") == MAGIC;
    if |bytes| >= 16 {
      FormatBytes(bytes[8..12]);
      var payload := c.open(bytes[12..]);
      if payload.Some? {
        PayloadIsExact(c, payload.value, manifest, files);
        PayloadErrors(c, payload.value);
      }
    }
  }

  lemma FormatBytes(s: Bytes)
    requires |s| == 4
    ensures Value(s) == FORMAT <==> s == [0, 0, 0, 1]
  {
    BigEndianOfValue(s);
    assert BigEndian(1, 4) == BigEndian(0, 3) + [1] && BigEndian(0, 3) == BigEndian(0, 2) + [0];
    assert BigEndian(0, 2) == BigEndian(0, 1) + [0] && BigEndian(0, 1) == [] + [0];
    assert BigEndian(1, 4) == [0, 0, 0, 1];
    Limits();
    ValueOfBigEndian(1, 4);
  }

  // What goes wrong inside a payload is never mistaken for a bad header.
  lemma PayloadErrors(c: Codec, payload: Bytes)
    ensures var r := ReadPayload(c, payload);
            r.Err? ==> r.error in {Truncated, TruncatedManifest, BadManifest, TruncatedName, TruncatedData}
  {
    var manifest := ReadSized(payload, 4, TruncatedManifest);
    if manifest.Ok? {
      EntryErrors(manifest.value.1);
    }
  }

  lemma {:induction false} EntryErrors(buf: Bytes)
    ensures var r := ReadEntries(buf); r.Err? ==> r.error in {Truncated, TruncatedName, TruncatedData}
    decreases |buf|
  {
    if buf != [] && ReadEntry(buf).Ok? {
      ReadEntryShrinks(buf);
      EntryErrors(ReadEntry(buf).value.1);
    }
  }

  // The first file of that name.
  function File(files: seq<Entry>, name: Bytes): Option<Bytes> {
    if files == [] then None
    else if files[0].name == name then Some(files[0].data)
    else File(files[1..], name)
  }

  function Ascii(s: string): Bytes
    requires forall c | c in s :: c < 128 as char
  {
    seq(|s|, i requires 0 <= i < |s| => assert s[i] in s; s[i] as int as Byte)
  }

  function Part(name: Bytes, data: Option<Bytes>): seq<Entry> {
    if data.None? then [] else [Entry(name, data.value)]
  }

  // The files of a backup: the dump, and the two optional ones.
  function BackupFiles(sql: Bytes, env: Option<Bytes>, knownHosts: Option<Bytes>): seq<Entry> {
    [Entry(Ascii("database.sql"), sql)] + Part(Ascii(".env"), env) + Part(Ascii("known_hosts"), knownHosts)
  }

  // Each file is found again under its name, and an absent one is not.
  lemma FilesAreFound(sql: Bytes, env: Option<Bytes>, knownHosts: Option<Bytes>)
    ensures var files := BackupFiles(sql, env, knownHosts);
            && File(files, Ascii("database.sql")) == Some(sql)
            && File(files, Ascii(".env")) == env
            && File(files, Ascii("known_hosts")) == knownHosts
  {
    assert |Ascii("database.sql")| == 12 && |Ascii(".env")| == 4 && |Ascii("known_hosts")| == 11;
    ThreeFiles(Ascii("database.sql"), Ascii(".env"), Ascii("known_hosts"), sql, env, knownHosts);
  }

  lemma ThreeFiles(a: Bytes, b: Bytes, c: Bytes, sql: Bytes, env: Option<Bytes>, knownHosts: Option<Bytes>)
    requires a != b && b != c && a != c
    ensures var files := [Entry(a, sql)] + Part(b, env) + Part(c, knownHosts);
            File(files, a) == Some(sql) && File(files, b) == env && File(files, c) == knownHosts
  {
    var last := Part(c, knownHosts);
    var more := Part(b, env) + last;
    assert last != [] ==> last[1..] == [];
    assert File(last, c) == knownHosts && File(last, b) == None;
    assert env.Some? ==> more[1..] == last;
    assert env.None? ==> more == last;
    var files := [Entry(a, sql)] + Part(b, env) + Part(c, knownHosts);
    assert files[1..] == more;
  }
}
