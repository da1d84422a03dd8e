// What a backup run guarantees, in every completion order.
module PipelineProofs {
  import opened Base
  import opened Git
  import opened Sync
  import opened CrashRecovery
  import opened Pipeline
  import Paths

  // --------------------------------------------------------------------------
  // A fleet and the order its captures arrive in
  // --------------------------------------------------------------------------

  ghost predicate Permutation(order: seq<nat>, n: nat) {
    && |order| == n
    && (forall k | 0 <= k < n :: order[k] < n)
    && (forall j, k | 0 <= j < k < n :: order[j] != order[k])
    && (forall i | 0 <= i < n :: i in order)
  }

  // The captures of all devices, in the order they complete.
  function Arrivals(devices: seq<Device>, captures: seq<Captured>, order: seq<nat>): (cs: seq<Completion>)
    requires |captures| == |devices| && forall k | 0 <= k < |order| :: order[k] < |devices|
    ensures |cs| == |order|
    ensures forall k | 0 <= k < |cs| :: cs[k] == Completion(devices[order[k]], captures[order[k]])
  {
    seq(|order|, k requires 0 <= k < |order| => Completion(devices[order[k]], captures[order[k]]))
  }

  // The stores a capture asks for.
  function Stores(d: Device, c: Captured): seq<Attempt> {
    if c.Unreachable? then []
    else
      [Attempt(d.path, c.contents, c.meta, c.fault)] +
      if c.binary.None? then []
      else [Attempt(Paths.BinarySibling(d.path), c.binary.value, c.meta, c.binaryFault)]
  }

  function AllStores(completions: seq<Completion>): seq<Attempt> {
    if completions == [] then []
    else
      var n := |completions| - 1;
      AllStores(completions[..n]) + Stores(completions[n].device, completions[n].result)
  }

  // A run that is not cut short leaves what the plain sequence of stores leaves.
  lemma {:induction false} FoldIsReplay(r: Repo, completions: seq<Completion>)
    requires FoldAll(r, completions, false).aborted.None?
    ensures FoldAll(r, completions, false).repo == Replay(r, AllStores(completions))
    ensures |FoldAll(r, completions, false).reports| == |completions|
  {
    if completions != [] {
      var n := |completions| - 1;
      var before, c := completions[..n], completions[n];
      FoldIsReplay(r, before);
      var s := Replay(r, AllStores(before));
      ReplayConcat(r, AllStores(before), Stores(c.device, c.result));
      if c.result.Capture? {
        var text := Attempt(c.device.path, c.result.contents, c.result.meta, c.result.fault);
        ReplayOne(s, text);
        if c.result.binary.Some? {
          var binary := Attempt(Paths.BinarySibling(c.device.path), c.result.binary.value, c.result.meta, c.result.binaryFault);
          ReplayConcat(s, [text], [binary]);
          ReplayOne(Try(s, text).0, binary);
          assert [text] + [binary] == Stores(c.device, c.result);
        } else {
          assert [text] == Stores(c.device, c.result);
        }
      } else {
        assert AllStores(before) + [] == AllStores(before);
      }
    }
  }

  lemma ReplayOne(r: Repo, a: Attempt)
    ensures Replay(r, [a]) == Try(r, a).0
  {
    assert [a][..0] == [];
  }

  // --------------------------------------------------------------------------
  // Independent stores
  // --------------------------------------------------------------------------

  // Complete stores of different files.
  ghost predicate Independent(history: seq<Attempt>) {
    && (forall j, k | 0 <= j < k < |history| :: history[j].path != history[k].path)
    && (forall a | a in history :: a.fault.NoFault? && Resolves(a.path))
  }

  ghost predicate Writes(history: seq<Attempt>, q: Path) {
    exists a | a in history :: a.path == q
  }

  // Some store has something to commit, as seen from the starting state.
  ghost predicate AnyNews(r: Repo, history: seq<Attempt>) {
    exists a | a in history :: !Settled(r, a.path, a.contents)
  }

  // Where `s` stands at file `q` after the stores `history` on `r`: the first
  // commit takes the whole index along, and from then on the branch follows it.
  ghost predicate ReplayedAt(r: Repo, s: Repo, history: seq<Attempt>, q: Path) {
    && (forall a | a in history && a.path == q :: At(s.work, q) == At(s.index, q) == Some(a.contents))
    && (!Writes(history, q) ==> At(s.work, q) == At(r.work, q) && At(s.index, q) == At(r.index, q))
    && At(HeadTree(s.head), q) == (if AnyNews(r, history) then At(s.index, q) else At(HeadTree(r.head), q))
  }

  lemma IndependentPrefix(before: seq<Attempt>, a: Attempt)
    requires Independent(before + [a])
    ensures Independent(before) && !Writes(before, a.path)
    ensures a.fault.NoFault? && Resolves(a.path)
    ensures forall x :: x in before + [a] <==> x in before || x == a
  {
    var history := before + [a];
    assert forall x | x in before :: x in history;
    assert history[|before|] == a;
    assert forall j | 0 <= j < |before| :: history[j] == before[j];
  }

  // Exactly how stores of different files change the repository, file by file,
  // from any state whatever.
  lemma {:induction false} IndependentReplay(r: Repo, history: seq<Attempt>, q: Path)
    requires Independent(history)
    ensures ReplayedAt(r, Replay(r, history), history, q)
  {
    if history != [] {
      var n := |history| - 1;
      var before, a := history[..n], history[n];
      assert history == before + [a];
      IndependentPrefix(before, a);
      IndependentReplay(r, before, q);
      IndependentReplay(r, before, a.path);
      ExtendReplay(r, Replay(r, before), before, a, q);
    }
  }

  lemma ExtendReplay(r: Repo, s: Repo, before: seq<Attempt>, a: Attempt, q: Path)
    requires !Writes(before, a.path) && a.fault.NoFault? && Resolves(a.path)
    requires forall x :: x in before + [a] <==> x in before || x == a
    requires ReplayedAt(r, s, before, q) && ReplayedAt(r, s, before, a.path)
    ensures ReplayedAt(r, Try(s, a).0, before + [a], q)
  {
    assert AnyNews(r, before + [a]) <==> AnyNews(r, before) || !Settled(r, a.path, a.contents);
    OneMoreStore(s, a);
    if q != a.path {
      StoreFrame(s, a.path, a.contents, a.meta, a.fault, q);
      StoreMovesOnlyOnNews(s, a, q);
      assert Writes(before + [a], q) <==> Writes(before, q);
    }
  }

  lemma OneMoreStore(s: Repo, a: Attempt)
    requires a.fault.NoFault? && Resolves(a.path)
    ensures var (t, did) := Try(s, a);
            && did.Ok?
            && (did.value.Committed? <==> !Settled(s, a.path, a.contents))
            && (did.value.Unchanged? ==> t == s)
            && (did.value.Committed? ==> did.value.commit.note == FirstNote(s, a) && HeadTree(t.head) == t.index)
            && Settled(t, a.path, a.contents)
  {
    StoreSettles(s, a.path, a.contents, a.meta, a.fault);
    StoreMatchesWouldChange(s, a.path, a.contents, a.meta);
    if Settled(s, a.path, a.contents) {
      assert s.work[a.path := a.contents] == s.work;
    }
  }

  // The note of a commit of `a` made in state `r`.
  function FirstNote(r: Repo, a: Attempt): Note {
    CaptureNote(a.path, a.meta, Change(At(HeadTree(r.head), a.path), a.contents), a.path !in HeadTree(r.head))
  }

  lemma StoreMovesOnlyOnNews(s: Repo, a: Attempt, q: Path)
    requires a.fault.NoFault? && q != a.path
    ensures var (t, did) := Try(s, a);
            At(HeadTree(t.head), q) == (if did.Ok? && did.value.Committed? then At(s.index, q) else At(HeadTree(s.head), q))
  {
  }

  // --------------------------------------------------------------------------
  // A fleet's captures are independent stores
  // --------------------------------------------------------------------------

  // Configuration accepted by validation (names and files all different, see
  // Templates.FleetFilesAreDistinct) and every capture complete. The repository
  // may be in any state: dirty, half-staged, or mid-recovery.
  ghost predicate FleetReady(devices: seq<Device>, captures: seq<Captured>) {
    && |captures| == |devices|
    && FilesDistinct(devices)
    && (forall i, j | 0 <= i < j < |devices| :: devices[i].name != devices[j].name)
    && (forall i | 0 <= i < |devices| :: Resolves(devices[i].path))
    && (forall c | c in captures && c.Capture? :: c.fault.NoFault? && c.binaryFault.NoFault?)
  }

  // Nothing but device `i` has anything to store.
  ghost predicate OthersSettled(r: Repo, devices: seq<Device>, captures: seq<Captured>, i: nat)
    requires |captures| == |devices|
  {
    forall j, a | 0 <= j < |devices| && j != i && a in Stores(devices[j], captures[j]) :: Settled(r, a.path, a.contents)
  }

  // No commit of another device can take along a half-staged file of a device
  // that is still to be stored.
  ghost predicate Steady(r: Repo, devices: seq<Device>, captures: seq<Captured>)
    requires |captures| == |devices|
  {
    forall i | 0 <= i < |devices| && captures[i].Capture? :: Level(r, devices[i].path) || OthersSettled(r, devices, captures, i)
  }

  ghost predicate Level(r: Repo, q: Path) {
    At(r.index, q) == At(HeadTree(r.head), q)
  }

  ghost predicate FilesDistinct(devices: seq<Device>) {
    && (forall i, j | 0 <= i < |devices| && 0 <= j < |devices| :: devices[i].path != Paths.BinarySibling(devices[j].path))
    && (forall i, j | 0 <= i < j < |devices| ::
          devices[i].path != devices[j].path &&
          Paths.BinarySibling(devices[i].path) != Paths.BinarySibling(devices[j].path))
  }

  lemma SiblingResolves(p: Path)
    requires Resolves(p)
    ensures Resolves(Paths.BinarySibling(p))
  {
    var q := Paths.BinarySibling(p);
    var last := q[|q| - 1];
    assert q[..|q| - 1] <= p;
    assert last[|last| - 1] == 'p';
    forall k | 0 <= k < |q| ensures q[k] != ".." {
      if k < |q| - 1 {
        assert q[k] == p[k];
      }
    }
    assert |q| > 1 ==> q[0] == p[0];
  }

  // Every path a store of device `i` may name.
  lemma StoresOf(devices: seq<Device>, captures: seq<Captured>, i: nat, a: Attempt)
    requires FleetReady(devices, captures) && i < |devices|
    requires a in Stores(devices[i], captures[i])
    ensures a.path == devices[i].path || a.path == Paths.BinarySibling(devices[i].path)
    ensures a.fault.NoFault? && Resolves(a.path)
  {
    SiblingResolves(devices[i].path);
    assert captures[i] in captures;
  }

  // The files of two different devices never meet.
  lemma StoresApart(devices: seq<Device>, captures: seq<Captured>, i: nat, j: nat, a: Attempt, b: Attempt)
    requires FleetReady(devices, captures) && i < |devices| && j < |devices| && i != j
    requires a in Stores(devices[i], captures[i]) && b in Stores(devices[j], captures[j])
    ensures a.path != b.path
  {
    StoresOf(devices, captures, i, a);
    StoresOf(devices, captures, j, b);
  }

  ghost predicate DistinctWithin(order: seq<nat>, n: nat) {
    && (forall k | 0 <= k < |order| :: order[k] < n)
    && (forall j, k | 0 <= j < k < |order| :: order[j] != order[k])
  }

  lemma ArrivalsSnoc(devices: seq<Device>, captures: seq<Captured>, order: seq<nat>)
    requires |captures| == |devices| && DistinctWithin(order, |devices|) && order != []
    ensures var n := |order| - 1;
            Arrivals(devices, captures, order) ==
            Arrivals(devices, captures, order[..n]) + [Completion(devices[order[n]], captures[order[n]])]
  {
  }

  lemma ArrivalsStep(devices: seq<Device>, captures: seq<Captured>, order: seq<nat>)
    requires |captures| == |devices| && DistinctWithin(order, |devices|) && order != []
    ensures var n := |order| - 1;
            AllStores(Arrivals(devices, captures, order)) ==
            AllStores(Arrivals(devices, captures, order[..n])) + Stores(devices[order[n]], captures[order[n]])
  {
    var n := |order| - 1;
    var before, c := Arrivals(devices, captures, order[..n]), Completion(devices[order[n]], captures[order[n]]);
    ArrivalsSnoc(devices, captures, order);
    assert (before + [c])[..n] == before;
  }

  ghost predicate CausedBy(devices: seq<Device>, captures: seq<Captured>, order: seq<nat>, a: Attempt, k: nat)
    requires |captures| == |devices| && DistinctWithin(order, |devices|) && k < |order|
  {
    a in Stores(devices[order[k]], captures[order[k]])
  }

  ghost predicate Caused(devices: seq<Device>, captures: seq<Captured>, order: seq<nat>, a: Attempt)
    requires |captures| == |devices| && DistinctWithin(order, |devices|)
  {
    exists k | 0 <= k < |order| :: CausedBy(devices, captures, order, a, k)
  }

  // Which stores the arrivals cause.
  lemma {:induction false} ArrivalsStores(devices: seq<Device>, captures: seq<Captured>, order: seq<nat>, a: Attempt)
    requires |captures| == |devices| && DistinctWithin(order, |devices|)
    ensures a in AllStores(Arrivals(devices, captures, order)) <==> Caused(devices, captures, order, a)
  {
    if order != [] {
      ArrivalsStep(devices, captures, order);
      ArrivalsStores(devices, captures, order[..|order| - 1], a);
      CausedLater(devices, captures, order, a);
    }
  }

  lemma CausedLater(devices: seq<Device>, captures: seq<Captured>, order: seq<nat>, a: Attempt)
    requires |captures| == |devices| && DistinctWithin(order, |devices|) && order != []
    ensures var n := |order| - 1;
            Caused(devices, captures, order, a) <==>
            Caused(devices, captures, order[..n], a) || a in Stores(devices[order[n]], captures[order[n]])
  {
    var n := |order| - 1;
    var earlier := order[..n];
    if Caused(devices, captures, earlier, a) {
      var k :| 0 <= k < n && CausedBy(devices, captures, earlier, a, k);
      assert CausedBy(devices, captures, order, a, k);
    }
    if Caused(devices, captures, order, a) {
      var k :| 0 <= k <= n && CausedBy(devices, captures, order, a, k);
      assert k < n ==> CausedBy(devices, captures, earlier, a, k);
    }
    assert CausedBy(devices, captures, order, a, n) <==> a in Stores(devices[order[n]], captures[order[n]]);
  }

  lemma {:induction false} ArrivalsIndependent(devices: seq<Device>, captures: seq<Captured>, order: seq<nat>)
    requires FleetReady(devices, captures) && DistinctWithin(order, |devices|)
    ensures Independent(AllStores(Arrivals(devices, captures, order)))
  {
    if order != [] {
      ArrivalsIndependent(devices, captures, order[..|order| - 1]);
      StillIndependent(devices, captures, order);
    }
  }

  lemma StillIndependent(devices: seq<Device>, captures: seq<Captured>, order: seq<nat>)
    requires FleetReady(devices, captures) && DistinctWithin(order, |devices|) && order != []
    requires Independent(AllStores(Arrivals(devices, captures, order[..|order| - 1])))
    ensures Independent(AllStores(Arrivals(devices, captures, order)))
  {
    var n := |order| - 1;
    ArrivalsStep(devices, captures, order);
    MoreApart(devices, captures, order);
    MoreComplete(devices, captures, order[n]);
    JoinIndependent(AllStores(Arrivals(devices, captures, order[..n])), Stores(devices[order[n]], captures[order[n]]));
  }

  lemma MoreApart(devices: seq<Device>, captures: seq<Captured>, order: seq<nat>)
    requires FleetReady(devices, captures) && DistinctWithin(order, |devices|) && order != []
    ensures var n := |order| - 1;
            forall a, b | a in AllStores(Arrivals(devices, captures, order[..n])) && b in Stores(devices[order[n]], captures[order[n]]) ::
              a.path != b.path
  {
    var n := |order| - 1;
    forall a, b | a in AllStores(Arrivals(devices, captures, order[..n])) && b in Stores(devices[order[n]], captures[order[n]])
      ensures a.path != b.path
    {
      EarlierApart(devices, captures, order, a, b);
    }
  }

  lemma MoreComplete(devices: seq<Device>, captures: seq<Captured>, i: nat)
    requires FleetReady(devices, captures) && i < |devices|
    ensures var more := Stores(devices[i], captures[i]);
            && (forall b | b in more :: b.fault.NoFault? && Resolves(b.path))
            && (|more| <= 2 && (|more| == 2 ==> more[0].path != more[1].path))
  {
    forall b | b in Stores(devices[i], captures[i]) ensures b.fault.NoFault? && Resolves(b.path) {
      StoresOf(devices, captures, i, b);
    }
  }

  lemma EarlierApart(devices: seq<Device>, captures: seq<Captured>, order: seq<nat>, a: Attempt, b: Attempt)
    requires FleetReady(devices, captures) && DistinctWithin(order, |devices|) && order != []
    requires a in AllStores(Arrivals(devices, captures, order[..|order| - 1]))
    requires b in Stores(devices[order[|order| - 1]], captures[order[|order| - 1]])
    ensures a.path != b.path
  {
    var n := |order| - 1;
    var earlier := order[..n];
    ArrivalsStores(devices, captures, earlier, a);
    var k :| 0 <= k < n && CausedBy(devices, captures, earlier, a, k);
    assert earlier[k] == order[k] != order[n];
    StoresApart(devices, captures, order[k], order[n], a, b);
  }

  lemma JoinIndependent(before: seq<Attempt>, more: seq<Attempt>)
    requires Independent(before)
    requires |more| <= 2 && (|more| == 2 ==> more[0].path != more[1].path)
    requires forall a, b | a in before && b in more :: a.path != b.path
    requires forall b | b in more :: b.fault.NoFault? && Resolves(b.path)
    ensures Independent(before + more)
  {
    var h := before + more;
    forall j, k | 0 <= j < k < |h| ensures h[j].path != h[k].path {
      if j < |before| <= k {
        assert h[j] in before && h[k] in more;
      }
    }
  }

  // --------------------------------------------------------------------------
  // What the reports say
  // --------------------------------------------------------------------------

  // An outcome without the commit id, which does depend on the order.
  datatype View = SawUnchanged | SawCommit(note: Note) | SawWouldChange | SawFailure(message: string)

  function ViewOf(o: Outcome): View {
    match o
    case Unchanged => SawUnchanged
    case Committed(commit) => SawCommit(commit.note)
    case WouldChange => SawWouldChange
    case Failed(message) => SawFailure(message)
  }

  // The outcome of one device, read off the state before the run.
  function Expected(r: Repo, d: Device, c: Captured, dryRun: bool): View {
    if c.Unreachable? then SawFailure(c.message)
    else if Settled(r, d.path, c.contents) then SawUnchanged
    else if dryRun then SawWouldChange
    else SawCommit(CaptureNote(d.path, c.meta, Change(At(HeadTree(r.head), d.path), c.contents), d.path !in HeadTree(r.head)))
  }

  function Expecting(r: Repo, dryRun: bool): Completion -> View {
    (c: Completion) => Expected(r, c.device, c.result, dryRun)
  }

  ghost predicate Reports(expected: Completion -> View, c: Completion, report: Report) {
    report.device == c.device.name && report.path == c.device.path && ViewOf(report.outcome) == expected(c)
  }

  ghost predicate ReportsAsExpected(expected: Completion -> View, completions: seq<Completion>, p: Progress) {
    && p.aborted.None?
    && |p.reports| == |completions|
    && (forall k | 0 <= k < |completions| :: Reports(expected, completions[k], p.reports[k]))
    && (p.commits > 0 <==> exists k | 0 <= k < |completions| :: p.reports[k].outcome.Committed?)
  }

  // One more completion, whose own report is as expected.
  lemma ExtendReports(expected: Completion -> View, cs: seq<Completion>, c: Completion, p: Progress, q: Progress)
    requires ReportsAsExpected(expected, cs, p)
    requires q.aborted.None? && |q.reports| == |p.reports| + 1 && q.reports[..|p.reports|] == p.reports
    requires var last := q.reports[|p.reports|];
             Reports(expected, c, last) && q.commits == if last.outcome.Committed? then p.commits + 1 else p.commits
    ensures ReportsAsExpected(expected, cs + [c], q)
  {
    var n := |cs|;
    assert forall k | 0 <= k < n :: q.reports[..n][k] == q.reports[k];
    if p.commits > 0 {
      var k :| 0 <= k < n && p.reports[k].outcome.Committed?;
      assert q.reports[k].outcome.Committed?;
    } else if q.commits > 0 {
      assert q.reports[n].outcome.Committed?;
    }
  }

  // The report of one completion folded into `p`.
  lemma NextReport(expected: Completion -> View, p: Progress, c: Completion, dryRun: bool)
    requires p.aborted.None?
    requires if c.result.Unreachable? then expected(c) == SawFailure(c.result.message)
             else var did := FoldCapture(p.repo, c.device.path, c.result, dryRun).1;
                  did.Ok? && ViewOf(did.value) == expected(c)
    ensures var q := FoldNext(p, c, dryRun);
            && q.aborted.None? && |q.reports| == |p.reports| + 1 && q.reports[..|p.reports|] == p.reports
            && var last := q.reports[|p.reports|];
               Reports(expected, c, last) && q.commits == if last.outcome.Committed? then p.commits + 1 else p.commits
  {
  }

  lemma FoldedReports(expected: Completion -> View, r: Repo, cs: seq<Completion>, c: Completion, dryRun: bool)
    requires ReportsAsExpected(expected, cs, FoldAll(r, cs, dryRun))
    requires if c.result.Unreachable? then expected(c) == SawFailure(c.result.message)
             else var did := FoldCapture(FoldAll(r, cs, dryRun).repo, c.device.path, c.result, dryRun).1;
                  did.Ok? && ViewOf(did.value) == expected(c)
    ensures ReportsAsExpected(expected, cs + [c], FoldAll(r, cs + [c], dryRun))
  {
    var p := FoldAll(r, cs, dryRun);
    FoldAllSnoc(r, cs, c, dryRun);
    NextReport(expected, p, c, dryRun);
    ExtendReports(expected, cs, c, p, FoldNext(p, c, dryRun));
  }

  lemma FoldAllSnoc(r: Repo, cs: seq<Completion>, c: Completion, dryRun: bool)
    ensures FoldAll(r, cs + [c], dryRun) == FoldNext(FoldAll(r, cs, dryRun), c, dryRun)
  {
    assert (cs + [c])[..|cs|] == cs;
  }

  // The text of device order[n] arrives after those of order[..n].
  lemma TextStillUntouched(devices: seq<Device>, captures: seq<Captured>, order: seq<nat>, text: Attempt)
    requires FleetReady(devices, captures) && DistinctWithin(order, |devices|) && order != []
    requires var i := order[|order| - 1]; text in Stores(devices[i], captures[i])
    ensures var before := AllStores(Arrivals(devices, captures, order[..|order| - 1]));
            Independent(before) && !Writes(before, text.path)
  {
    var n := |order| - 1;
    var before := AllStores(Arrivals(devices, captures, order[..n]));
    ArrivalsIndependent(devices, captures, order[..n]);
    if Writes(before, text.path) {
      var a :| a in before && a.path == text.path;
      EarlierApart(devices, captures, order, a, text);
    }
  }

  lemma {:induction false} RealRunReports(r: Repo, devices: seq<Device>, captures: seq<Captured>, order: seq<nat>)
    requires FleetReady(devices, captures) && Steady(r, devices, captures) && DistinctWithin(order, |devices|)
    ensures var cs := Arrivals(devices, captures, order);
            ReportsAsExpected(Expecting(r, false), cs, FoldAll(r, cs, false))
  {
    if order != [] {
      RealRunReports(r, devices, captures, order[..|order| - 1]);
      RealRunStep(r, devices, captures, order);
    }
  }

  lemma RealRunStep(r: Repo, devices: seq<Device>, captures: seq<Captured>, order: seq<nat>)
    requires FleetReady(devices, captures) && Steady(r, devices, captures) && DistinctWithin(order, |devices|) && order != []
    requires var before := Arrivals(devices, captures, order[..|order| - 1]);
             ReportsAsExpected(Expecting(r, false), before, FoldAll(r, before, false))
    ensures var cs := Arrivals(devices, captures, order);
            ReportsAsExpected(Expecting(r, false), cs, FoldAll(r, cs, false))
  {
    var before := Arrivals(devices, captures, order[..|order| - 1]);
    var i := order[|order| - 1];
    var c := Completion(devices[i], captures[i]);
    ArrivalsSnoc(devices, captures, order);
    if c.result.Capture? {
      RealOutcome(r, devices, captures, order, FoldAll(r, before, false));
    }
    FoldedReports(Expecting(r, false), r, before, c, false);
  }

  lemma RealOutcome(r: Repo, devices: seq<Device>, captures: seq<Captured>, order: seq<nat>, p: Progress)
    requires FleetReady(devices, captures) && Steady(r, devices, captures) && DistinctWithin(order, |devices|) && order != []
    requires captures[order[|order| - 1]].Capture?
    requires p == FoldAll(r, Arrivals(devices, captures, order[..|order| - 1]), false) && p.aborted.None?
    ensures var d, c := devices[order[|order| - 1]], captures[order[|order| - 1]];
            var did := FoldCapture(p.repo, d.path, c, false).1;
            did.Ok? && ViewOf(did.value) == Expected(r, d, c, false)
  {
    var n := |order| - 1;
    var d, c := devices[order[n]], captures[order[n]];
    var text := Attempt(d.path, c.contents, c.meta, c.fault);
    assert Stores(d, c)[0] == text;
    FoldIsReplay(r, Arrivals(devices, captures, order[..n]));
    NextTextOutcome(r, devices, captures, order, text);
  }

  // The text of device order[n], stored after everything of order[..n].
  lemma NextTextOutcome(r: Repo, devices: seq<Device>, captures: seq<Captured>, order: seq<nat>, text: Attempt)
    requires FleetReady(devices, captures) && Steady(r, devices, captures) && DistinctWithin(order, |devices|) && order != []
    requires var i := order[|order| - 1]; text in Stores(devices[i], captures[i]) && text.path == devices[i].path
    ensures var did := Try(Replay(r, AllStores(Arrivals(devices, captures, order[..|order| - 1]))), text).1;
            && did.Ok?
            && (did.value.Committed? <==> !Settled(r, text.path, text.contents))
            && (did.value.Committed? ==> did.value.commit.note == FirstNote(r, text))
  {
    var n := |order| - 1;
    var before := AllStores(Arrivals(devices, captures, order[..n]));
    StoresOf(devices, captures, order[n], text);
    TextStillUntouched(devices, captures, order, text);
    IndependentReplay(r, before, text.path);
    if !Level(r, text.path) {
      OthersBringNoNews(r, devices, captures, order);
    }
    OneMoreStore(Replay(r, before), text);
  }

  lemma OthersBringNoNews(r: Repo, devices: seq<Device>, captures: seq<Captured>, order: seq<nat>)
    requires |captures| == |devices| && DistinctWithin(order, |devices|) && order != []
    requires OthersSettled(r, devices, captures, order[|order| - 1])
    ensures !AnyNews(r, AllStores(Arrivals(devices, captures, order[..|order| - 1])))
  {
    var n := |order| - 1;
    forall a | a in AllStores(Arrivals(devices, captures, order[..n])) ensures Settled(r, a.path, a.contents) {
      ArrivalsStores(devices, captures, order[..n], a);
      var k :| 0 <= k < n && CausedBy(devices, captures, order[..n], a, k);
      assert order[..n][k] == order[k] != order[n];
    }
  }

  // A dry run never touches the repository.
  lemma {:induction false} DryRunChangesNothing(r: Repo, completions: seq<Completion>)
    ensures FoldAll(r, completions, true).repo == r
  {
    if completions != [] {
      DryRunChangesNothing(r, completions[..|completions| - 1]);
    }
  }

  lemma {:induction false} DryRunReports(r: Repo, completions: seq<Completion>)
    requires forall c | c in completions :: Resolves(c.device.path)
    ensures ReportsAsExpected(Expecting(r, true), completions, FoldAll(r, completions, true))
  {
    if completions != [] {
      var n := |completions| - 1;
      var c := completions[n];
      DryRunReports(r, completions[..n]);
      DryRunChangesNothing(r, completions[..n]);
      assert c in completions;
      if c.result.Capture? {
        DryOutcome(r, c.device, c.result);
      }
      FoldedReports(Expecting(r, true), r, completions[..n], c, true);
      assert completions == completions[..n] + [c];
    }
  }

  lemma DryOutcome(r: Repo, d: Device, c: Captured)
    requires c.Capture? && Resolves(d.path)
    ensures var did := FoldCapture(r, d.path, c, true).1; did.Ok? && ViewOf(did.value) == Expected(r, d, c, true)
  {
    assert Settled(r, d.path, c.contents) <==> !Git.WouldChange(r, d.path, c.contents).value;
  }
}
