// The promises of a backup run.
module RunTheorems {
  import opened Base
  import opened Git
  import opened Sync
  import opened CrashRecovery
  import opened Pipeline
  import opened PipelineProofs
  import Paths

  // --------------------------------------------------------------------------
  // Report order
  // --------------------------------------------------------------------------

  lemma PositionOfDistinct(devices: seq<Device>, i: nat)
    requires i < |devices|
    requires forall j, k | 0 <= j < k < |devices| :: devices[j].name != devices[k].name
    ensures PositionOf(devices[i].name, devices) == i
  {
    assert forall j | 0 <= j < i :: devices[j].name != devices[i].name;
  }

  // Exactly one report sits at position `i`: the k-th to arrive.
  lemma {:induction false} AtPositionSingle(reports: seq<Report>, devices: seq<Device>, i: nat, k: int)
    requires forall m | 0 <= m < |reports| :: PositionOf(reports[m].device, devices) == i <==> m == k
    ensures AtPosition(reports, devices, i) == if 0 <= k < |reports| then [reports[k]] else []
  {
    if reports != [] {
      AtPositionSingle(reports[1..], devices, i, k - 1);
    }
  }

  ghost predicate ReportsArriveIn(reports: seq<Report>, devices: seq<Device>, order: seq<nat>) {
    && Permutation(order, |devices|)
    && |reports| == |devices|
    && (forall k | 0 <= k < |devices| :: reports[k].device == devices[order[k]].name)
    && (forall i, j | 0 <= i < j < |devices| :: devices[i].name != devices[j].name)
  }

  // When device `i` completed.
  ghost function Slot(order: seq<nat>, i: nat): (k: nat)
    requires i in order
    ensures k < |order| && order[k] == i
  {
    var k :| 0 <= k < |order| && order[k] == i;
    k
  }

  lemma {:induction false} SortedPrefix(reports: seq<Report>, devices: seq<Device>, rows: seq<Report>, m: nat)
    requires m <= |rows|
    requires forall i | 0 <= i < |rows| :: AtPosition(reports, devices, i) == [rows[i]]
    ensures SortedUpTo(reports, devices, m) == rows[..m]
  {
    if m > 0 {
      SortedPrefix(reports, devices, rows, m - 1);
      assert AtPosition(reports, devices, m - 1) == [rows[m - 1]];
    }
  }

  lemma ReportsAtPosition(reports: seq<Report>, devices: seq<Device>, order: seq<nat>, i: nat)
    requires ReportsArriveIn(reports, devices, order)
    ensures AtPosition(reports, devices, i) == if i < |devices| then [reports[Slot(order, i)]] else []
  {
    var k: int := if i < |devices| then Slot(order, i) else -1;
    forall j | 0 <= j < |reports|
      ensures PositionOf(reports[j].device, devices) == i <==> j == k
    {
      PositionOfDistinct(devices, order[j]);
    }
    AtPositionSingle(reports, devices, i, k);
  }

  // Report order follows the configuration, whatever order captures arrived in:
  // one report per device, at that device's own place.
  lemma ReportsFollowConfig(reports: seq<Report>, devices: seq<Device>, order: seq<nat>)
    requires ReportsArriveIn(reports, devices, order)
    ensures var sorted := ConfigOrder(reports, devices);
            |sorted| == |devices| && forall i | 0 <= i < |devices| :: sorted[i] == reports[Slot(order, i)]
  {
    var rows := seq(|devices|, i requires 0 <= i < |devices| && i in order => reports[Slot(order, i)]);
    forall i | 0 <= i < |rows| ensures AtPosition(reports, devices, i) == [rows[i]] {
      ReportsAtPosition(reports, devices, order, i);
    }
    SortedPrefix(reports, devices, rows, |rows|);
    ReportsAtPosition(reports, devices, order, |devices|);
    assert rows[..|rows|] == rows;
  }

  // Every report is counted exactly once in the closing tally.
  lemma {:induction false} TallyAddsUp(reports: seq<Report>)
    ensures Count(reports, IsChange) + Count(reports, IsUnchanged) + Count(reports, IsFailure) == |reports|
  {
    if reports != [] {
      TallyAddsUp(reports[1..]);
    }
  }

  lemma {:induction false} CountFindsAny(reports: seq<Report>, p: Outcome -> bool)
    ensures Count(reports, p) > 0 <==> exists row | row in reports :: p(row.outcome)
  {
    if reports != [] {
      CountFindsAny(reports[1..], p);
      assert reports[0] in reports;
      assert forall row | row in reports :: row == reports[0] || row in reports[1..];
    }
  }

  // A run succeeds exactly when it reached every device and no push failed.
  lemma ExitCodeTells(report: RunReport)
    ensures ExitCode(report) == 0 <==> !report.push.PushFailed? && forall row | row in report.devices :: !row.outcome.Failed?
    ensures ExitCode(report) in {0, 1}
  {
    CountFindsAny(report.devices, IsFailure);
  }

  // --------------------------------------------------------------------------
  // Order independence
  // --------------------------------------------------------------------------

  // The sorted report row of every device, read off the state before the run.
  ghost predicate RowsAsExpected(r: Repo, devices: seq<Device>, captures: seq<Captured>, dryRun: bool, rows: seq<Report>)
    requires |captures| == |devices|
  {
    && |rows| == |devices|
    && forall i | 0 <= i < |devices| ::
         && rows[i].device == devices[i].name && rows[i].path == devices[i].path
         && ViewOf(rows[i].outcome) == Expected(r, devices[i], captures[i], dryRun)
  }

  lemma RowsOf(r: Repo, devices: seq<Device>, captures: seq<Captured>, order: seq<nat>, dryRun: bool)
    requires FleetReady(devices, captures) && Permutation(order, |devices|) && (dryRun || Steady(r, devices, captures))
    ensures var p := FoldAll(r, Arrivals(devices, captures, order), dryRun);
            && p.aborted.None?
            && RowsAsExpected(r, devices, captures, dryRun, ConfigOrder(p.reports, devices))
            && (p.commits > 0 <==> exists i | 0 <= i < |devices| :: Expected(r, devices[i], captures[i], dryRun).SawCommit?)
  {
    var cs := Arrivals(devices, captures, order);
    if dryRun {
      DryRunReports(r, cs);
    } else {
      RealRunReports(r, devices, captures, order);
    }
    RowsFromReports(Expecting(r, dryRun), devices, captures, order, FoldAll(r, cs, dryRun));
    forall i | 0 <= i < |devices|
      ensures Expecting(r, dryRun)(Completion(devices[i], captures[i])) == Expected(r, devices[i], captures[i], dryRun)
    {
    }
  }

  lemma RowsFromReports(expected: Completion -> View, devices: seq<Device>, captures: seq<Captured>, order: seq<nat>, p: Progress)
    requires |captures| == |devices| && Permutation(order, |devices|)
    requires forall i, j | 0 <= i < j < |devices| :: devices[i].name != devices[j].name
    requires ReportsAsExpected(expected, Arrivals(devices, captures, order), p)
    ensures var rows := ConfigOrder(p.reports, devices);
            && |rows| == |devices|
            && (forall i | 0 <= i < |devices| :: Reports(expected, Completion(devices[i], captures[i]), rows[i]))
            && (p.commits > 0 <==> exists i | 0 <= i < |devices| :: expected(Completion(devices[i], captures[i])).SawCommit?)
  {
    var cs := Arrivals(devices, captures, order);
    ReportsFollowConfig(p.reports, devices, order);
    forall i | 0 <= i < |devices|
      ensures Reports(expected, Completion(devices[i], captures[i]), p.reports[Slot(order, i)])
    {
      assert cs[Slot(order, i)] == Completion(devices[i], captures[i]);
    }
    CommitsFromReports(expected, devices, captures, order, p);
  }

  lemma CommitsFromReports(expected: Completion -> View, devices: seq<Device>, captures: seq<Captured>, order: seq<nat>, p: Progress)
    requires |captures| == |devices| && Permutation(order, |devices|)
    requires ReportsAsExpected(expected, Arrivals(devices, captures, order), p)
    ensures p.commits > 0 <==> exists i | 0 <= i < |devices| :: expected(Completion(devices[i], captures[i])).SawCommit?
  {
    var cs := Arrivals(devices, captures, order);
    if p.commits > 0 {
      var k :| 0 <= k < |cs| && p.reports[k].outcome.Committed?;
      assert Reports(expected, cs[k], p.reports[k]);
      assert expected(Completion(devices[order[k]], captures[order[k]])).SawCommit?;
    }
    if i :| 0 <= i < |devices| && expected(Completion(devices[i], captures[i])).SawCommit? {
      var k := Slot(order, i);
      assert cs[k] == Completion(devices[i], captures[i]);
      assert Reports(expected, cs[k], p.reports[k]);
      assert p.reports[k].outcome.Committed?;
    }
  }

  // Where every file stands after a run does not depend on the order.
  lemma FilesAfterRun(r: Repo, devices: seq<Device>, captures: seq<Captured>, order1: seq<nat>, order2: seq<nat>, q: Path)
    requires FleetReady(devices, captures)
    requires Permutation(order1, |devices|) && Permutation(order2, |devices|)
    ensures var s := Replay(r, AllStores(Arrivals(devices, captures, order1)));
            var t := Replay(r, AllStores(Arrivals(devices, captures, order2)));
            && At(HeadTree(s.head), q) == At(HeadTree(t.head), q)
            && At(s.index, q) == At(t.index, q)
            && At(s.work, q) == At(t.work, q)
  {
    var h1, h2 := AllStores(Arrivals(devices, captures, order1)), AllStores(Arrivals(devices, captures, order2));
    ArrivalsIndependent(devices, captures, order1);
    ArrivalsIndependent(devices, captures, order2);
    SameStores(devices, captures, order1, order2);
    SameStores(devices, captures, order2, order1);
    IndependentReplay(r, h1, q);
    IndependentReplay(r, h2, q);
    SameReplayedAt(r, Replay(r, h1), Replay(r, h2), h1, h2, q);
  }

  lemma SameReplayedAt(r: Repo, s: Repo, t: Repo, h1: seq<Attempt>, h2: seq<Attempt>, q: Path)
    requires ReplayedAt(r, s, h1, q) && ReplayedAt(r, t, h2, q)
    requires forall a :: a in h1 <==> a in h2
    ensures At(HeadTree(s.head), q) == At(HeadTree(t.head), q) && At(s.index, q) == At(t.index, q) && At(s.work, q) == At(t.work, q)
  {
    assert Writes(h1, q) <==> Writes(h2, q);
    assert AnyNews(r, h1) <==> AnyNews(r, h2);
    if Writes(h1, q) {
      var a :| a in h1 && a.path == q;
      assert a in h2;
    }
  }

  lemma SameStores(devices: seq<Device>, captures: seq<Captured>, order1: seq<nat>, order2: seq<nat>)
    requires |captures| == |devices| && Permutation(order1, |devices|) && Permutation(order2, |devices|)
    ensures forall a | a in AllStores(Arrivals(devices, captures, order1)) :: a in AllStores(Arrivals(devices, captures, order2))
  {
    forall a | a in AllStores(Arrivals(devices, captures, order1)) ensures a in AllStores(Arrivals(devices, captures, order2)) {
      ArrivalsStores(devices, captures, order1, a);
      ArrivalsStores(devices, captures, order2, a);
      var k :| 0 <= k < |order1| && CausedBy(devices, captures, order1, a, k);
      assert order1[k] in order2;
      var m :| 0 <= m < |order2| && order2[m] == order1[k];
      assert CausedBy(devices, captures, order2, a, m);
    }
  }

  // Two completion orders of one run come to the same: branch tree, index,
  // working tree, every device's outcome with its line counts in the sorted
  // report, and the need to push.
  ghost predicate SameRun(r: Repo, devices: seq<Device>, captures: seq<Captured>, order1: seq<nat>, order2: seq<nat>)
    requires |captures| == |devices| && Permutation(order1, |devices|) && Permutation(order2, |devices|)
  {
    var p := FoldAll(r, Arrivals(devices, captures, order1), false);
    var q := FoldAll(r, Arrivals(devices, captures, order2), false);
    var rows, others := ConfigOrder(p.reports, devices), ConfigOrder(q.reports, devices);
    && p.aborted.None? && q.aborted.None?
    && HeadTree(p.repo.head) == HeadTree(q.repo.head)
    && p.repo.index == q.repo.index
    && p.repo.work == q.repo.work
    && |rows| == |others| == |devices|
    && (forall i | 0 <= i < |devices| ::
          rows[i].device == others[i].device == devices[i].name && ViewOf(rows[i].outcome) == ViewOf(others[i].outcome))
    && (p.commits == 0 <==> q.commits == 0)
  }

  // Captures may complete in any order, exactly when no device is half-staged
  // while another one has something to store. The condition reads only the
  // repository before the run and the captures.
  lemma OrderIndependence(r: Repo, devices: seq<Device>, captures: seq<Captured>)
    requires FleetReady(devices, captures)
    ensures (forall order1, order2 | Permutation(order1, |devices|) && Permutation(order2, |devices|) ::
               SameRun(r, devices, captures, order1, order2)) <==> Steady(r, devices, captures)
  {
    if Steady(r, devices, captures) {
      forall order1, order2 | Permutation(order1, |devices|) && Permutation(order2, |devices|)
        ensures SameRun(r, devices, captures, order1, order2)
      {
        SteadyRunsAgree(r, devices, captures, order1, order2);
      }
    } else {
      var i :| 0 <= i < |devices| && captures[i].Capture? && !Level(r, devices[i].path) && !OthersSettled(r, devices, captures, i);
      var j, a :| 0 <= j < |devices| && j != i && a in Stores(devices[j], captures[j]) && !Settled(r, a.path, a.contents);
      var order1, order2 := StagedFileBreaksOrderIndependence(r, devices, captures, i, j, a);
      assert !SameRun(r, devices, captures, order1, order2);
    }
  }

  lemma SteadyRunsAgree(r: Repo, devices: seq<Device>, captures: seq<Captured>, order1: seq<nat>, order2: seq<nat>)
    requires FleetReady(devices, captures) && Steady(r, devices, captures)
    requires Permutation(order1, |devices|) && Permutation(order2, |devices|)
    ensures SameRun(r, devices, captures, order1, order2)
    ensures RowsAsExpected(r, devices, captures, false, ConfigOrder(FoldAll(r, Arrivals(devices, captures, order1), false).reports, devices))
  {
    RowsOf(r, devices, captures, order1, false);
    RowsOf(r, devices, captures, order2, false);
    TreesAfterRun(r, devices, captures, order1, order2);
  }

  // What a run leaves behind is the same in every order, half-staged files or not.
  lemma TreesAfterRun(r: Repo, devices: seq<Device>, captures: seq<Captured>, order1: seq<nat>, order2: seq<nat>)
    requires FleetReady(devices, captures)
    requires Permutation(order1, |devices|) && Permutation(order2, |devices|)
    ensures var p := FoldAll(r, Arrivals(devices, captures, order1), false);
            var q := FoldAll(r, Arrivals(devices, captures, order2), false);
            HeadTree(p.repo.head) == HeadTree(q.repo.head) && p.repo.index == q.repo.index && p.repo.work == q.repo.work
  {
    var cs1, cs2 := Arrivals(devices, captures, order1), Arrivals(devices, captures, order2);
    ReportsSeen(r, devices, captures, order1);
    ReportsSeen(r, devices, captures, order2);
    FoldIsReplay(r, cs1);
    FoldIsReplay(r, cs2);
    var s, t := Replay(r, AllStores(cs1)), Replay(r, AllStores(cs2));
    forall q
      ensures At(HeadTree(s.head), q) == At(HeadTree(t.head), q) && At(s.index, q) == At(t.index, q) && At(s.work, q) == At(t.work, q)
    {
      FilesAfterRun(r, devices, captures, order1, order2, q);
    }
    SameTree(HeadTree(s.head), HeadTree(t.head));
    SameTree(s.index, t.index);
    SameTree(s.work, t.work);
  }

  // --------------------------------------------------------------------------
  // When the order shows
  // --------------------------------------------------------------------------

  // The outcome of device `i` when the devices `before` have been stored.
  function Saw(r: Repo, devices: seq<Device>, captures: seq<Captured>, before: seq<nat>, i: nat): View
    requires |captures| == |devices| && i < |devices| && forall k | 0 <= k < |before| :: before[k] < |devices|
  {
    var c := captures[i];
    if c.Unreachable? then SawFailure(c.message)
    else
      match Try(Replay(r, AllStores(Arrivals(devices, captures, before))), TextOf(devices[i], c)).1
      case Err(_) => SawUnchanged
      case Ok(stored) => if stored.Committed? then SawCommit(stored.commit.note) else SawUnchanged
  }

  function TextOf(d: Device, c: Captured): Attempt
    requires c.Capture?
  {
    Attempt(d.path, c.contents, c.meta, c.fault)
  }

  ghost predicate AllSeen(r: Repo, devices: seq<Device>, captures: seq<Captured>, order: seq<nat>, reports: seq<Report>)
    requires |captures| == |devices| && DistinctWithin(order, |devices|)
  {
    && |reports| == |order|
    && forall k | 0 <= k < |order| ::
         reports[k].device == devices[order[k]].name && ViewOf(reports[k].outcome) == Saw(r, devices, captures, order[..k], order[k])
  }

  // Every report says what its device saw when its turn came.
  lemma {:induction false} ReportsSeen(r: Repo, devices: seq<Device>, captures: seq<Captured>, order: seq<nat>)
    requires FleetReady(devices, captures) && DistinctWithin(order, |devices|)
    ensures var p := FoldAll(r, Arrivals(devices, captures, order), false);
            p.aborted.None? && AllSeen(r, devices, captures, order, p.reports)
  {
    if order != [] {
      var earlier := order[..|order| - 1];
      ReportsSeen(r, devices, captures, earlier);
      NextSeen(r, devices, captures, order);
      ExtendSeen(r, devices, captures, order, FoldAll(r, Arrivals(devices, captures, earlier), false).reports,
                 FoldAll(r, Arrivals(devices, captures, order), false).reports);
    }
  }

  lemma ExtendSeen(r: Repo, devices: seq<Device>, captures: seq<Captured>, order: seq<nat>, before: seq<Report>, reports: seq<Report>)
    requires |captures| == |devices| && DistinctWithin(order, |devices|) && order != []
    requires AllSeen(r, devices, captures, order[..|order| - 1], before)
    requires |reports| == |before| + 1 && reports[..|before|] == before
    requires var n := |order| - 1;
             && reports[n].device == devices[order[n]].name
             && ViewOf(reports[n].outcome) == Saw(r, devices, captures, order[..n], order[n])
    ensures AllSeen(r, devices, captures, order, reports)
  {
    var n := |order| - 1;
    forall k | 0 <= k < n
      ensures reports[k].device == devices[order[k]].name && ViewOf(reports[k].outcome) == Saw(r, devices, captures, order[..k], order[k])
    {
      EarlierTurn(order, k);
      assert reports[k] == before[k];
    }
  }

  lemma EarlierTurn(order: seq<nat>, k: nat)
    requires k < |order| - 1
    ensures order[..|order| - 1][..k] == order[..k] && order[..|order| - 1][k] == order[k]
  {
  }

  lemma NextSeen(r: Repo, devices: seq<Device>, captures: seq<Captured>, order: seq<nat>)
    requires FleetReady(devices, captures) && DistinctWithin(order, |devices|) && order != []
    requires FoldAll(r, Arrivals(devices, captures, order[..|order| - 1]), false).aborted.None?
    ensures var n := |order| - 1;
            var before := FoldAll(r, Arrivals(devices, captures, order[..n]), false);
            var p := FoldAll(r, Arrivals(devices, captures, order), false);
            && p.aborted.None? && |p.reports| == |before.reports| + 1 && p.reports[..|before.reports|] == before.reports
            && p.reports[|before.reports|].device == devices[order[n]].name
            && ViewOf(p.reports[|before.reports|].outcome) == Saw(r, devices, captures, order[..n], order[n])
  {
    var n := |order| - 1;
    var i := order[n];
    var before, c := Arrivals(devices, captures, order[..n]), Completion(devices[i], captures[i]);
    ArrivalsSnoc(devices, captures, order);
    FoldAllSnoc(r, before, c, false);
    FoldIsReplay(r, before);
    if captures[i].Capture? {
      var text := TextOf(devices[i], captures[i]);
      assert text == Stores(devices[i], captures[i])[0];
      StoresOf(devices, captures, i, text);
      OneMoreStore(Replay(r, AllStores(before)), text);
    }
  }

  // Stored first, a half-staged device commits against the branch; stored
  // after a commit that took its file along, it sees that file instead.
  lemma SawStagedFirst(r: Repo, devices: seq<Device>, captures: seq<Captured>, i: nat)
    requires FleetReady(devices, captures) && i < |devices| && captures[i].Capture? && !Level(r, devices[i].path)
    ensures Saw(r, devices, captures, [], i) == SawCommit(FirstNote(r, TextOf(devices[i], captures[i])))
  {
    var text := TextOf(devices[i], captures[i]);
    assert text == Stores(devices[i], captures[i])[0];
    StoresOf(devices, captures, i, text);
    assert AllStores(Arrivals(devices, captures, [])) == [];
    OneMoreStore(r, text);
  }

  lemma SawStagedSecond(r: Repo, devices: seq<Device>, captures: seq<Captured>, i: nat, j: nat, a: Attempt)
    requires FleetReady(devices, captures) && i < |devices| && captures[i].Capture? && !Level(r, devices[i].path)
    requires j < |devices| && j != i && a in Stores(devices[j], captures[j]) && !Settled(r, a.path, a.contents)
    ensures Saw(r, devices, captures, [j], i) != SawCommit(FirstNote(r, TextOf(devices[i], captures[i])))
  {
    var text := TextOf(devices[i], captures[i]);
    assert text == Stores(devices[i], captures[i])[0];
    StoresOf(devices, captures, i, text);
    StagedTakenAlong(r, devices, captures, i, j, a);
    OneMoreStore(Replay(r, AllStores(Arrivals(devices, captures, [j]))), text);
  }

  lemma StagedTakenAlong(r: Repo, devices: seq<Device>, captures: seq<Captured>, i: nat, j: nat, a: Attempt)
    requires FleetReady(devices, captures) && i < |devices| && captures[i].Capture?
    requires j < |devices| && j != i && a in Stores(devices[j], captures[j]) && !Settled(r, a.path, a.contents)
    ensures At(HeadTree(Replay(r, AllStores(Arrivals(devices, captures, [j]))).head), devices[i].path) == At(r.index, devices[i].path)
  {
    var stores := AllStores(Arrivals(devices, captures, [j]));
    OtherStoresOnly(devices, captures, i, j);
    OneArrival(devices, captures, j);
    IndependentReplay(r, stores, devices[i].path);
    BranchFollowsIndex(r, Replay(r, stores), stores, devices[i].path, a);
  }

  lemma OtherStoresOnly(devices: seq<Device>, captures: seq<Captured>, i: nat, j: nat)
    requires FleetReady(devices, captures) && i < |devices| && captures[i].Capture? && j < |devices| && j != i
    ensures var stores := AllStores(Arrivals(devices, captures, [j]));
            Independent(stores) && !Writes(stores, devices[i].path)
  {
    var text := TextOf(devices[i], captures[i]);
    assert text == Stores(devices[i], captures[i])[0];
    assert [j, i][..1] == [j];
    TextStillUntouched(devices, captures, [j, i], text);
  }

  lemma BranchFollowsIndex(r: Repo, s: Repo, history: seq<Attempt>, q: Path, a: Attempt)
    requires ReplayedAt(r, s, history, q) && !Writes(history, q) && a in history && !Settled(r, a.path, a.contents)
    ensures At(HeadTree(s.head), q) == At(r.index, q)
  {
    assert AnyNews(r, history);
  }

  lemma OneArrival(devices: seq<Device>, captures: seq<Captured>, j: nat)
    requires |captures| == |devices| && j < |devices|
    ensures AllStores(Arrivals(devices, captures, [j])) == Stores(devices[j], captures[j])
  {
    ArrivalsStep(devices, captures, [j]);
    assert [j][..0] == [];
    assert AllStores(Arrivals(devices, captures, [])) == [];
  }

  // The numbers below `n` that are not in `without`, in order.
  function Others(n: nat, without: set<nat>): (r: seq<nat>)
    ensures forall k | 0 <= k < |r| :: r[k] < n && r[k] !in without
    ensures forall j, k | 0 <= j < k < |r| :: r[j] < r[k]
    ensures forall x | 0 <= x < n && x !in without :: x in r
  {
    if n == 0 then [] else Others(n - 1, without) + if n - 1 in without then [] else [n - 1]
  }

  lemma {:induction false} OthersCount(n: nat, without: set<nat>)
    requires forall x | x in without :: x < n
    ensures |Others(n, without)| + |without| == n
  {
    if n == 0 {
      assert without == {};
    } else if n - 1 in without {
      var fewer := without - {n - 1};
      OthersCount(n - 1, fewer);
      SameOthers(n - 1, without, fewer);
      assert |fewer| == |without| - 1;
      OthersStep(n, without);
    } else {
      OthersCount(n - 1, without);
      OthersStep(n, without);
    }
  }

  lemma OthersStep(n: nat, without: set<nat>)
    requires n > 0
    ensures |Others(n, without)| == |Others(n - 1, without)| + if n - 1 in without then 0 else 1
  {
  }

  lemma {:induction false} SameOthers(n: nat, a: set<nat>, b: set<nat>)
    requires forall x | 0 <= x < n :: x in a <==> x in b
    ensures Others(n, a) == Others(n, b)
  {
    if n > 0 {
      SameOthers(n - 1, a, b);
    }
  }

  lemma LedByOne(i: nat, n: nat)
    requires i < n
    ensures Permutation([i] + Others(n, {i}), n)
  {
    OthersCount(n, {i});
  }

  lemma LedByTwo(i: nat, j: nat, n: nat)
    requires i < n && j < n && i != j
    ensures Permutation([i, j] + Others(n, {i, j}), n)
  {
    OthersCount(n, {i, j});
  }

  // The report of the device that came k-th, in its row.
  lemma RowSeen(r: Repo, devices: seq<Device>, captures: seq<Captured>, order: seq<nat>, k: nat)
    requires FleetReady(devices, captures) && Permutation(order, |devices|) && k < |order|
    ensures var rows := ConfigOrder(FoldAll(r, Arrivals(devices, captures, order), false).reports, devices);
            |rows| == |devices| && ViewOf(rows[order[k]].outcome) == Saw(r, devices, captures, order[..k], order[k])
  {
    ReportsSeen(r, devices, captures, order);
    ReportsFollowConfig(FoldAll(r, Arrivals(devices, captures, order), false).reports, devices, order);
    assert Slot(order, order[k]) == k;
  }

  // A half-staged file breaks order independence as soon as another device has
  // something to store: two orders, two different reports about it.
  lemma StagedFileBreaksOrderIndependence(r: Repo, devices: seq<Device>, captures: seq<Captured>, i: nat, j: nat, a: Attempt)
    returns (order1: seq<nat>, order2: seq<nat>)
    requires FleetReady(devices, captures) && i < |devices| && captures[i].Capture? && !Level(r, devices[i].path)
    requires j < |devices| && j != i && a in Stores(devices[j], captures[j]) && !Settled(r, a.path, a.contents)
    ensures Permutation(order1, |devices|) && Permutation(order2, |devices|)
    ensures var rows := ConfigOrder(FoldAll(r, Arrivals(devices, captures, order1), false).reports, devices);
            var others := ConfigOrder(FoldAll(r, Arrivals(devices, captures, order2), false).reports, devices);
            |rows| == |others| == |devices| && ViewOf(rows[i].outcome) != ViewOf(others[i].outcome)
  {
    var n := |devices|;
    order1, order2 := [i] + Others(n, {i}), [j, i] + Others(n, {j, i});
    LedByOne(i, n);
    LedByTwo(j, i, n);
    RowSeen(r, devices, captures, order1, 0);
    RowSeen(r, devices, captures, order2, 1);
    assert order1[..0] == [] && order2[..1] == [j];
    SawStagedFirst(r, devices, captures, i);
    SawStagedSecond(r, devices, captures, i, j, a);
  }

  // --------------------------------------------------------------------------
  // Dry runs
  // --------------------------------------------------------------------------

  lemma TrackingDoesNotMatter(r: Repo, s: Repo, d: Device, c: Captured, dryRun: bool)
    requires s == r.(tracking := s.tracking)
    ensures Expected(s, d, c, dryRun) == Expected(r, d, c, dryRun)
  {
  }

  // What a dry run said about a device, against what the real run then did.
  ghost predicate Foretold(d: Device, said: Report, did: Report) {
    && said.device == did.device == d.name
    && (said.outcome.WouldChange? <==> did.outcome.Committed?)
    && (said.outcome.Unchanged? <==> did.outcome.Unchanged?)
    && (said.outcome.Failed? <==> did.outcome.Failed?)
    && !said.outcome.Committed? && !did.outcome.WouldChange?
  }

  // A dry run foretells the real one: as long as the sync does not move the
  // branch, the devices it reports as changing are exactly those the real run
  // commits, in any two completion orders; and it leaves no trace.
  lemma DryRunPredictsRealRun(r: Repo, remote: Option<RemoteConfig>, net: Network, devices: seq<Device>,
                              captures: seq<Captured>, order1: seq<nat>, order2: seq<nat>, noPush: bool)
    requires FleetReady(devices, captures) && Steady(r, devices, captures) && devices != []
    requires Permutation(order1, |devices|) && Permutation(order2, |devices|)
    requires var synced := RunSync(r, remote, net, Options(false, noPush)).1;
             synced.Ok? && synced.value != Some(FastForwarded)
    ensures var (after, branch, dry) := Run(r, remote, net, devices, Arrivals(devices, captures, order1), Options(true, noPush));
            var (_, _, done) := Run(r, remote, net, devices, Arrivals(devices, captures, order2), Options(false, noPush));
            && dry.Ok? && done.Ok?
            && after == r && branch == net.atPush
            && |dry.value.devices| == |done.value.devices| == |devices|
            && forall i | 0 <= i < |devices| :: Foretold(devices[i], dry.value.devices[i], done.value.devices[i])
  {
    var synced := RunSync(r, remote, net, Options(false, noPush)).0;
    var cs1, cs2 := Arrivals(devices, captures, order1), Arrivals(devices, captures, order2);
    SyncedInPlace(r, remote, net, noPush);
    DryRunChangesNothing(r, cs1);
    ForetoldRows(r, synced, devices, captures, order1, order2);
    RunReports(r, remote, net, devices, cs1, Options(true, noPush));
    RunReports(r, remote, net, devices, cs2, Options(false, noPush));
  }

  lemma {:induction false} SameTally(said: seq<Report>, did: seq<Report>)
    requires |said| == |did|
    requires forall i | 0 <= i < |said| ::
      && (said[i].outcome.WouldChange? <==> did[i].outcome.Committed?)
      && (said[i].outcome.Unchanged? <==> did[i].outcome.Unchanged?)
      && (said[i].outcome.Failed? <==> did[i].outcome.Failed?)
      && !said[i].outcome.Committed? && !did[i].outcome.WouldChange?
    ensures Count(said, IsChange) == Count(did, IsChange)
    ensures Count(said, IsUnchanged) == Count(did, IsUnchanged)
    ensures Count(said, IsFailure) == Count(did, IsFailure)
  {
    if said != [] {
      SameTally(said[1..], did[1..]);
    }
  }

  // So the dry run's closing tally is that of the real run.
  lemma DryRunTallies(r: Repo, remote: Option<RemoteConfig>, net: Network, devices: seq<Device>,
                      captures: seq<Captured>, order1: seq<nat>, order2: seq<nat>, noPush: bool)
    requires FleetReady(devices, captures) && Steady(r, devices, captures) && devices != []
    requires Permutation(order1, |devices|) && Permutation(order2, |devices|)
    requires var synced := RunSync(r, remote, net, Options(false, noPush)).1;
             synced.Ok? && synced.value != Some(FastForwarded)
    ensures var dry := Run(r, remote, net, devices, Arrivals(devices, captures, order1), Options(true, noPush)).2;
            var done := Run(r, remote, net, devices, Arrivals(devices, captures, order2), Options(false, noPush)).2;
            && dry.Ok? && done.Ok?
            && Count(dry.value.devices, IsChange) == Count(done.value.devices, IsChange)
            && Count(dry.value.devices, IsUnchanged) == Count(done.value.devices, IsUnchanged)
            && Count(dry.value.devices, IsFailure) == Count(done.value.devices, IsFailure)
  {
    DryRunPredictsRealRun(r, remote, net, devices, captures, order1, order2, noPush);
    var dry := Run(r, remote, net, devices, Arrivals(devices, captures, order1), Options(true, noPush)).2.value.devices;
    var done := Run(r, remote, net, devices, Arrivals(devices, captures, order2), Options(false, noPush)).2.value.devices;
    forall i | 0 <= i < |dry| ensures Foretold(devices[i], dry[i], done[i]) {
    }
    SameTally(dry, done);
  }

  lemma SyncedInPlace(r: Repo, remote: Option<RemoteConfig>, net: Network, noPush: bool)
    requires var synced := RunSync(r, remote, net, Options(false, noPush)).1;
             synced.Ok? && synced.value != Some(FastForwarded)
    ensures var synced := RunSync(r, remote, net, Options(false, noPush)).0; synced == r.(tracking := synced.tracking)
  {
    SyncKeepsLocal(r, net.atFetch, net.fetchWorks, false);
  }

  lemma SteadyAfterFetch(r: Repo, synced: Repo, devices: seq<Device>, captures: seq<Captured>)
    requires |captures| == |devices| && synced == r.(tracking := synced.tracking) && Steady(r, devices, captures)
    ensures Steady(synced, devices, captures)
  {
    forall i | 0 <= i < |devices| && captures[i].Capture?
      ensures Level(synced, devices[i].path) || OthersSettled(synced, devices, captures, i)
    {
      assert Level(r, devices[i].path) || OthersSettled(r, devices, captures, i);
      assert OthersSettled(r, devices, captures, i) ==> OthersSettled(synced, devices, captures, i);
    }
  }

  lemma ForetoldRows(r: Repo, synced: Repo, devices: seq<Device>, captures: seq<Captured>, order1: seq<nat>, order2: seq<nat>)
    requires FleetReady(devices, captures) && Steady(r, devices, captures) && synced == r.(tracking := synced.tracking)
    requires Permutation(order1, |devices|) && Permutation(order2, |devices|)
    ensures var dry := FoldAll(r, Arrivals(devices, captures, order1), true);
            var done := FoldAll(synced, Arrivals(devices, captures, order2), false);
            var said, did := ConfigOrder(dry.reports, devices), ConfigOrder(done.reports, devices);
            && dry.aborted.None? && done.aborted.None?
            && |said| == |did| == |devices|
            && forall i | 0 <= i < |devices| :: Foretold(devices[i], said[i], did[i])
  {
    SteadyAfterFetch(r, synced, devices, captures);
    RowsOf(r, devices, captures, order1, true);
    RowsOf(synced, devices, captures, order2, false);
    var said := ConfigOrder(FoldAll(r, Arrivals(devices, captures, order1), true).reports, devices);
    var did := ConfigOrder(FoldAll(synced, Arrivals(devices, captures, order2), false).reports, devices);
    forall i | 0 <= i < |devices|
      ensures Foretold(devices[i], said[i], did[i])
    {
      ForetoldRow(r, synced, devices[i], captures[i], said[i], did[i]);
    }
  }

  lemma ForetoldRow(r: Repo, s: Repo, d: Device, c: Captured, said: Report, did: Report)
    requires s == r.(tracking := s.tracking)
    requires said.device == did.device == d.name
    requires ViewOf(said.outcome) == Expected(r, d, c, true) && ViewOf(did.outcome) == Expected(s, d, c, false)
    ensures Foretold(d, said, did)
  {
    TrackingDoesNotMatter(r, s, d, c, false);
  }

  // The fold decides the rows of a completed run.
  lemma RunReports(r: Repo, remote: Option<RemoteConfig>, net: Network, devices: seq<Device>, cs: seq<Completion>, options: Options)
    requires devices != [] && RunSync(r, remote, net, options).1.Ok?
    requires FoldAll(RunSync(r, remote, net, options).0, cs, options.dryRun).aborted.None?
    ensures var (after, branch, outcome) := Run(r, remote, net, devices, cs, options);
            var p := FoldAll(RunSync(r, remote, net, options).0, cs, options.dryRun);
            && outcome.Ok? && outcome.value.devices == ConfigOrder(p.reports, devices)
            && (options.dryRun ==> after == p.repo && branch == net.atPush)
  {
  }

  // --------------------------------------------------------------------------
  // Commits leave the machine
  // --------------------------------------------------------------------------

  lemma {:induction false} FoldExtends(r: Repo, completions: seq<Completion>, dryRun: bool)
    ensures var p := FoldAll(r, completions, dryRun);
            && Extends(p.repo.head, r.head)
            && p.repo.tracking == r.tracking
            && (p.commits > 0 ==> p.repo.head.Some?)
  {
    if completions == [] {
      assert r.head.Some? ==> Reaches(r.head.value, r.head.value);
    } else {
      var n := |completions| - 1;
      var p := FoldAll(r, completions[..n], dryRun);
      FoldExtends(r, completions[..n], dryRun);
      FoldNextExtends(p, completions[n], dryRun);
      ExtendsTransitive(FoldNext(p, completions[n], dryRun).repo.head, p.repo.head, r.head);
    }
  }

  lemma FoldNextExtends(p: Progress, c: Completion, dryRun: bool)
    ensures var q := FoldNext(p, c, dryRun);
            && Extends(q.repo.head, p.repo.head)
            && q.repo.tracking == p.repo.tracking
            && (q.commits > p.commits ==> q.repo.head.Some?)
            && q.commits >= p.commits
  {
    assert p.repo.head.Some? ==> Reaches(p.repo.head.value, p.repo.head.value);
    if p.aborted.None? && c.result.Capture? {
      FoldCaptureExtends(p.repo, c.device.path, c.result, dryRun);
    }
  }

  lemma FoldCaptureExtends(r: Repo, path: Path, c: Captured, dryRun: bool)
    requires c.Capture?
    ensures var (s, did) := FoldCapture(r, path, c, dryRun);
            && Extends(s.head, r.head)
            && s.tracking == r.tracking
            && (did.Ok? && did.value.Committed? ==> s.head.Some?)
  {
    assert r.head.Some? ==> Reaches(r.head.value, r.head.value);
    if !dryRun {
      StoreExtends(r, path, c.contents, c.meta, c.fault);
      if c.binary.Some? {
        BinaryExtends(r, Store(r, path, c.contents, c.meta, c.fault).0, Paths.BinarySibling(path), c);
      }
    }
  }

  lemma BinaryExtends(r: Repo, s: Repo, path: Path, c: Captured)
    requires c.Capture? && c.binary.Some? && Extends(s.head, r.head)
    ensures var t := Store(s, path, c.binary.value, c.meta, c.binaryFault).0;
            Extends(t.head, r.head) && t.tracking == s.tracking && (s.head.Some? ==> t.head.Some?)
  {
    StoreExtends(s, path, c.binary.value, c.meta, c.binaryFault);
    ExtendsTransitive(Store(s, path, c.binary.value, c.meta, c.binaryFault).0.head, s.head, r.head);
  }

  // Push enabled, network up, and nobody else moving an existing remote branch.
  ghost predicate QuietRemote(remote: Option<RemoteConfig>, net: Network) {
    remote == Some(RemoteConfig(true)) && net.fetchWorks && net.pushWorks && net.atFetch == net.atPush
  }

  // No commit stays local: an error-free run leaves on the remote everything
  // the local branch held when the run began, whoever made it: text or binary,
  // this run's predecessors or a run killed before its push. Whatever this run
  // adds is pushed too, except when all it added was binary backups on top of
  // a branch that was already in sync; those wait for the next run.
  lemma NoCommitStaysLocal(r: Repo, remote: Option<RemoteConfig>, net: Network, devices: seq<Device>, completions: seq<Completion>)
    requires QuietRemote(remote, net) && net.atFetch.Some? && devices != []
    requires Run(r, remote, net, devices, completions, Options(false, false)).2.Ok?
    ensures var (after, branch, outcome) := Run(r, remote, net, devices, completions, Options(false, false));
            var p := FoldAll(RunSync(r, remote, net, Options(false, false)).0, completions, false);
            && Extends(branch, r.head)
            && Extends(after.head, branch)
            && !outcome.value.push.PushFailed?
            && (outcome.value.push.Pushed? ==> branch == after.head)
            && (outcome.value.push.Pushed? <==> p.commits > 0 || outcome.value.sync == Some(LocalAhead))
            && (outcome.value.push.Skipped? ==> branch == RunSync(r, remote, net, Options(false, false)).0.head)
  {
    var (synced, verdict) := RunSync(r, remote, net, Options(false, false));
    SyncKeepsLocal(r, net.atFetch, true, false);
    SyncedCanPush(r, net.atFetch);
    var p := FoldAll(synced, completions, false);
    FoldExtends(synced, completions, false);
    ExtendsTransitive(p.repo.head, synced.head, r.head);
    ExtendsTransitive(p.repo.head, synced.head, net.atPush);
    if p.repo.head.Some? {
      assert Reaches(p.repo.head.value, p.repo.head.value);
    }
  }

  // Two runs in a row, nobody else writing: however the first ended - killed,
  // offline, or having committed nothing but binaries - the second, if it
  // completes, puts every commit the first left behind on the remote.
  lemma FollowingRunPushesEverything(r: Repo, remote: Option<RemoteConfig>, net1: Network, net2: Network,
                                     devices: seq<Device>, completions1: seq<Completion>, completions2: seq<Completion>,
                                     options1: Options, c: Commit)
    requires devices != []
    requires var (between, branch, _) := Run(r, remote, net1, devices, completions1, options1);
             && QuietRemote(remote, net2) && net2.atFetch == branch && branch.Some?
             && Run(between, remote, net2, devices, completions2, Options(false, false)).2.Ok?
             && BranchHas(between.head, c)
    ensures var between := Run(r, remote, net1, devices, completions1, options1).0;
            BranchHas(Run(between, remote, net2, devices, completions2, Options(false, false)).1, c)
  {
    var between := Run(r, remote, net1, devices, completions1, options1).0;
    NoCommitStaysLocal(between, remote, net2, devices, completions2);
    ExtendsKeepsCommits(Run(between, remote, net2, devices, completions2, Options(false, false)).1, between.head, c);
  }

  // The one gap: while the remote branch does not exist, only a run that makes
  // a text commit creates it. Until then nothing local ever leaves.
  lemma FirstPushNeedsATextCommit(r: Repo, remote: Option<RemoteConfig>, net: Network, devices: seq<Device>, completions: seq<Completion>)
    requires QuietRemote(remote, net) && net.atFetch.None? && r.tracking.None? && devices != []
    requires Run(r, remote, net, devices, completions, Options(false, false)).2.Ok?
    ensures var (after, branch, outcome) := Run(r, remote, net, devices, completions, Options(false, false));
            && outcome.value.sync == Some(RemoteBranchMissing)
            && (branch.Some? <==> FoldAll(r, completions, false).commits > 0)
            && (branch.Some? ==> branch == after.head)
  {
    FoldExtends(r, completions, false);
    assert RunSync(r, remote, net, Options(false, false)).0 == r;
  }

  // --------------------------------------------------------------------------
  // Recovery by a whole run
  // --------------------------------------------------------------------------

  // Whatever state earlier runs left the repository in, a run over a fleet
  // with different files that completes settles every file it captured.
  lemma CompletedRunRecovers(r: Repo, devices: seq<Device>, captures: seq<Captured>, order: seq<nat>, i: nat)
    requires |captures| == |devices| && FilesDistinct(devices) && Permutation(order, |devices|)
    requires FoldAll(r, Arrivals(devices, captures, order), false).aborted.None?
    requires i < |devices| && captures[i].Capture? && captures[i].fault.NoFault? && Resolves(devices[i].path)
    ensures Settled(FoldAll(r, Arrivals(devices, captures, order), false).repo, devices[i].path, captures[i].contents)
  {
    var cs := Arrivals(devices, captures, order);
    FoldIsReplay(r, cs);
    assert cs[..|order|] == cs;
    StoreOfArrival(r, devices, captures, order, Slot(order, i), |order|);
  }

  lemma {:induction false} StoreOfArrival(r: Repo, devices: seq<Device>, captures: seq<Captured>, order: seq<nat>, m: nat, n: nat)
    requires |captures| == |devices| && FilesDistinct(devices) && DistinctWithin(order, |devices|)
    requires m < n <= |order|
    requires captures[order[m]].Capture? && captures[order[m]].fault.NoFault? && Resolves(devices[order[m]].path)
    ensures Settled(Replay(r, AllStores(Arrivals(devices, captures, order)[..n])), devices[order[m]].path, captures[order[m]].contents)
    decreases n
  {
    if n - 1 == m {
      LastArrival(r, Arrivals(devices, captures, order), n);
      OwnStoresSettle(Replay(r, AllStores(Arrivals(devices, captures, order)[..n - 1])), devices[order[m]], captures[order[m]]);
    } else {
      StoreOfArrival(r, devices, captures, order, m, n - 1);
      ArrivalKeepsSettled(r, devices, captures, order, m, n);
    }
  }

  lemma ArrivalKeepsSettled(r: Repo, devices: seq<Device>, captures: seq<Captured>, order: seq<nat>, m: nat, n: nat)
    requires |captures| == |devices| && FilesDistinct(devices) && DistinctWithin(order, |devices|)
    requires m < n - 1 < |order| && captures[order[m]].Capture?
    requires Settled(Replay(r, AllStores(Arrivals(devices, captures, order)[..n - 1])), devices[order[m]].path, captures[order[m]].contents)
    ensures Settled(Replay(r, AllStores(Arrivals(devices, captures, order)[..n])), devices[order[m]].path, captures[order[m]].contents)
  {
    var cs := Arrivals(devices, captures, order);
    LastArrival(r, cs, n);
    StoresAvoid(devices, order[n - 1], order[m], captures[order[n - 1]]);
    SettledPersists(Replay(r, AllStores(cs[..n - 1])), Stores(cs[n - 1].device, cs[n - 1].result),
                    devices[order[m]].path, captures[order[m]].contents);
  }

  lemma LastArrival(r: Repo, cs: seq<Completion>, n: nat)
    requires 0 < n <= |cs|
    ensures Replay(r, AllStores(cs[..n])) == Replay(Replay(r, AllStores(cs[..n - 1])), Stores(cs[n - 1].device, cs[n - 1].result))
  {
    assert cs[..n][..n - 1] == cs[..n - 1];
    ReplayConcat(r, AllStores(cs[..n - 1]), Stores(cs[n - 1].device, cs[n - 1].result));
  }

  lemma StoresAvoid(devices: seq<Device>, i: nat, j: nat, c: Captured)
    requires FilesDistinct(devices) && i < |devices| && j < |devices| && i != j
    ensures forall a | a in Stores(devices[i], c) :: a.path != devices[j].path
  {
    assert devices[j].path != Paths.BinarySibling(devices[i].path);
  }

  lemma OwnStoresSettle(r: Repo, d: Device, c: Captured)
    requires c.Capture? && c.fault.NoFault? && Resolves(d.path) && d.path != Paths.BinarySibling(d.path)
    ensures Settled(Replay(r, Stores(d, c)), d.path, c.contents)
  {
    var text := Stores(d, c)[0];
    var rest := Stores(d, c)[1..];
    assert Stores(d, c) == [text] + rest;
    ReplayConcat(r, [text], rest);
    ReplayOne(r, text);
    StoreSettles(r, d.path, c.contents, c.meta, c.fault);
    SettledPersists(Try(r, text).0, rest, d.path, c.contents);
  }
}
