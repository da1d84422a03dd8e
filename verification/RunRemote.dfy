// What a run has to do with its remote: when it asks it, when it writes to it,
// what it answers, and that it works without.
module RunRemote {
  import opened Base
  import opened Git
  import opened Sync
  import opened Pipeline
  import RunTheorems

  // --------------------------------------------------------------------------
  // Sorting the reports loses none
  // --------------------------------------------------------------------------

  function First(report: Report, here: bool): seq<Report> {
    if here then [report] else []
  }

  lemma OneMoreAt(reports: seq<Report>, devices: seq<Device>, at: nat, k: nat)
    requires reports != [] && at == PositionOf(reports[0].device, devices)
    ensures AtPosition(reports, devices, k) == First(reports[0], at == k) + AtPosition(reports[1..], devices, k)
  {
  }

  lemma OneMoreSorted(report: Report, at: nat, k: nat, a: seq<Report>, b: seq<Report>, c: seq<Report>, d: seq<Report>)
    requires multiset(a) == multiset(First(report, at < k)) + multiset(b) && c == First(report, at == k) + d
    ensures multiset(a + c) == multiset(First(report, at < k + 1)) + multiset(b + d)
  {
    assert multiset(c) == multiset(First(report, at == k)) + multiset(d);
  }

  lemma SortStep(reports: seq<Report>, devices: seq<Device>, k: nat)
    ensures SortedUpTo(reports, devices, k + 1) == SortedUpTo(reports, devices, k) + AtPosition(reports, devices, k)
  {
  }

  lemma {:induction false} SortOneMore(reports: seq<Report>, devices: seq<Device>, at: nat, k: nat)
    requires reports != [] && at == PositionOf(reports[0].device, devices)
    ensures multiset(SortedUpTo(reports, devices, k)) ==
            multiset(First(reports[0], at < k)) + multiset(SortedUpTo(reports[1..], devices, k))
  {
    if k > 0 {
      var j := k - 1;
      SortOneMore(reports, devices, at, j);
      OneMoreAt(reports, devices, at, j);
      SortStep(reports, devices, j);
      SortStep(reports[1..], devices, j);
      OneMoreSorted(reports[0], at, j, SortedUpTo(reports, devices, j), SortedUpTo(reports[1..], devices, j),
                    AtPosition(reports, devices, j), AtPosition(reports[1..], devices, j));
    }
  }

  lemma {:induction false} SortNone(devices: seq<Device>, k: nat)
    ensures SortedUpTo([], devices, k) == []
  {
    if k > 0 {
      SortNone(devices, k - 1);
    }
  }

  // The sorted reports are the reports that came in.
  lemma {:induction false} ConfigOrderKeeps(reports: seq<Report>, devices: seq<Device>)
    ensures multiset(ConfigOrder(reports, devices)) == multiset(reports)
  {
    if reports == [] {
      SortNone(devices, |devices| + 1);
    } else {
      SortOneMore(reports, devices, PositionOf(reports[0].device, devices), |devices| + 1);
      ConfigOrderKeeps(reports[1..], devices);
      InFront(reports);
    }
  }

  lemma InFront(reports: seq<Report>)
    requires reports != []
    ensures multiset(reports) == multiset(First(reports[0], true)) + multiset(reports[1..])
  {
    assert reports == [reports[0]] + reports[1..];
  }

  ghost predicate AnyCommitted(reports: seq<Report>) {
    exists row | row in reports :: row.outcome.Committed?
  }

  lemma SortedHasCommitted(reports: seq<Report>, devices: seq<Device>)
    ensures AnyCommitted(ConfigOrder(reports, devices)) <==> AnyCommitted(reports)
  {
    ConfigOrderKeeps(reports, devices);
    assert forall row :: row in ConfigOrder(reports, devices) <==> row in multiset(ConfigOrder(reports, devices));
    assert forall row :: row in reports <==> row in multiset(reports);
  }

  // The counter that decides about the push counts reported commits.
  lemma {:induction false} CommitsAreReported(r: Repo, completions: seq<Completion>, dryRun: bool)
    ensures var p := FoldAll(r, completions, dryRun); p.commits > 0 <==> AnyCommitted(p.reports)
  {
    if completions != [] {
      var n := |completions| - 1;
      CommitsAreReported(r, completions[..n], dryRun);
      CommitReported(FoldAll(r, completions[..n], dryRun), completions[n], dryRun);
    }
  }

  lemma CommitReported(p: Progress, c: Completion, dryRun: bool)
    requires p.commits > 0 <==> AnyCommitted(p.reports)
    ensures var q := FoldNext(p, c, dryRun); q.commits > 0 <==> AnyCommitted(q.reports)
  {
    var q := FoldNext(p, c, dryRun);
    if |q.reports| > |p.reports| {
      var last := q.reports[|p.reports|];
      assert q.reports == p.reports + [last];
      assert last in q.reports;
      assert forall row | row in p.reports :: row in q.reports;
    }
  }

  // --------------------------------------------------------------------------
  // When the remote is asked, and when it is written to
  // --------------------------------------------------------------------------

  predicate Asks(remote: Option<RemoteConfig>, devices: seq<Device>, options: Options) {
    devices != [] && remote.Some? && !options.dryRun
  }

  predicate MayPush(remote: Option<RemoteConfig>, devices: seq<Device>, options: Options) {
    devices != [] && !options.dryRun && !options.noPush && remote.Some? && remote.value.push
  }

  // The head of the remote branch as far as a fetch makes it known.
  function Known(r: Repo, net: Network): Option<Commit> {
    if net.fetchWorks && net.atFetch.Some? then net.atFetch else r.tracking
  }

  // The branch already has commits that the remote is known to lack.
  predicate Ahead(r: Repo, net: Network) {
    && net.fetchWorks && r.head.Some? && Known(r, net).Some?
    && Reaches(r.head.value, Known(r, net).value) && !Reaches(Known(r, net).value, r.head.value)
  }

  lemma AheadIsReported(r: Repo, remote: Option<RemoteConfig>, net: Network, options: Options)
    ensures RunSync(r, remote, net, options).1 == Ok(Some(LocalAhead)) <==> remote.Some? && !options.dryRun && Ahead(r, net)
    ensures RunSync(r, remote, net, options).0.tracking == if remote.Some? && !options.dryRun then Known(r, net) else r.tracking
  {
    if remote.Some? && !options.dryRun {
      SyncAnswers(r, net.atFetch, net.fetchWorks, false);
    }
  }

  // Over every run: the shared branch and what is known of it move by a push
  // that is reported, and by nothing else. Without a remote, or one that may be
  // written to, in a dry run and in one told not to push there is no push.
  lemma OnlyReportedPushesMove(r: Repo, remote: Option<RemoteConfig>, net: Network, devices: seq<Device>,
                               completions: seq<Completion>, options: Options)
    ensures var (after, branch, result) := Run(r, remote, net, devices, completions, options);
            var pushed := result.Ok? && result.value.push.Pushed?;
            && branch == (if pushed then after.head else net.atPush)
            && after.tracking == (if pushed then after.head else if Asks(remote, devices, options) then Known(r, net) else r.tracking)
            && (result.Ok? && !MayPush(remote, devices, options) ==> result.value.push.Skipped?)
            && (pushed ==> MayPush(remote, devices, options) && net.pushWorks && Extends(branch, net.atPush))
  {
    AheadIsReported(r, remote, net, options);
    var (synced, verdict) := RunSync(r, remote, net, options);
    RunTheorems.FoldExtends(synced, completions, options.dryRun);
  }

  // Each reason not to push stands for the first of the tests that held it back.
  lemma SkipReasons(r: Repo, remote: Option<RemoteConfig>, net: Network, devices: seq<Device>,
                    completions: seq<Completion>, options: Options)
    requires Run(r, remote, net, devices, completions, options).2.Ok?
    ensures var push := Run(r, remote, net, devices, completions, options).2.value.push;
            && (push == Skipped(NoDevices) <==> devices == [])
            && (push == Skipped(DryRun) <==> devices != [] && options.dryRun)
            && (push == Skipped(NoPushFlag) <==> devices != [] && !options.dryRun && options.noPush)
            && (push == Skipped(NoRemote) <==> devices != [] && !options.dryRun && !options.noPush && remote.None?)
            && (push == Skipped(PushDisabled) <==> devices != [] && options == Options(false, false) && remote == Some(RemoteConfig(false)))
            && (push.Skipped? && MayPush(remote, devices, options) ==> push == Skipped(NoNewCommits))
  {
  }

  // A push is tried exactly when one is allowed and some text capture was
  // committed or the branch was ahead before the run, and it succeeds exactly
  // when the remote answers and has nothing the branch lacks.
  lemma PushIsTried(r: Repo, remote: Option<RemoteConfig>, net: Network, devices: seq<Device>,
                    completions: seq<Completion>, options: Options)
    requires Run(r, remote, net, devices, completions, options).2.Ok?
    ensures var (after, _, result) := Run(r, remote, net, devices, completions, options);
            var push := result.value.push;
            && (!push.Skipped? <==> MayPush(remote, devices, options) && (AnyCommitted(result.value.devices) || Ahead(r, net)))
            && (push.Pushed? <==> !push.Skipped? && net.pushWorks && Extends(after.head, net.atPush))
            && (push == PushFailed(PushError.Unreachable) <==> !push.Skipped? && !net.pushWorks)
            && (push == PushFailed(Rejected) <==> !push.Skipped? && net.pushWorks && !Extends(after.head, net.atPush))
  {
    if devices != [] {
      AheadIsReported(r, remote, net, options);
      var (synced, verdict) := RunSync(r, remote, net, options);
      var p := FoldAll(synced, completions, options.dryRun);
      RunTheorems.FoldExtends(synced, completions, options.dryRun);
      CommitsAreReported(synced, completions, options.dryRun);
      SortedHasCommitted(p.reports, devices);
      if verdict.value == Some(LocalAhead) {
        SyncKeepsLocal(r, net.atFetch, net.fetchWorks, false);
      }
    }
  }

  // What a run reports about its sync, and when that ends it: before anything
  // is stored, and with the branch, the files and the remote as they were.
  lemma SyncIsReported(r: Repo, remote: Option<RemoteConfig>, net: Network, devices: seq<Device>,
                       completions: seq<Completion>, options: Options)
    ensures var (after, branch, result) := Run(r, remote, net, devices, completions, options);
            var verdict := SyncWith(r, net.atFetch, net.fetchWorks, false).1;
            && (result.Ok? ==> result.value.dryRun == options.dryRun)
            && (result.Ok? ==> result.value.sync == if Asks(remote, devices, options) then Some(verdict.value) else None)
            && (result.Err? && result.error.SyncFailed? <==> Asks(remote, devices, options) && verdict.Err?)
            && (result.Err? && result.error.SyncFailed? ==> result.error.sync == verdict.error)
            && (result.Err? && result.error.SyncFailed? ==>
                 after.head == r.head && after.index == r.index && after.work == r.work && branch == net.atPush)
  {
    SyncKeepsLocal(r, net.atFetch, net.fetchWorks, false);
    if net.fetchWorks {
      SyncAnswers(r, net.atFetch, net.fetchWorks, false);
    }
  }

  // --------------------------------------------------------------------------
  // Offline
  // --------------------------------------------------------------------------

  // A remote that cannot be reached costs a run nothing: it ends like a run
  // without a remote, with the same reports, and the same branch, index and files.
  lemma OfflineRunIsLocalRun(r: Repo, remote: RemoteConfig, net: Network, devices: seq<Device>,
                             completions: seq<Completion>, options: Options)
    requires !net.fetchWorks
    ensures var (a, _, offline) := Run(r, Some(remote), net, devices, completions, options);
            var (b, branch, local) := Run(r, None, net, devices, completions, options);
            && a.head == b.head && a.index == b.index && a.work == b.work
            && branch == net.atPush && b.tracking == r.tracking
            && (offline.Err? <==> local.Err?) && (offline.Err? ==> offline.error == local.error)
            && (offline.Ok? ==> offline.value.devices == local.value.devices)
            && (offline.Ok? ==> offline.value.sync == if devices == [] || options.dryRun then None else Some(Unavailable))
  {
    OnlyReportedPushesMove(r, None, net, devices, completions, options);
    assert RunSync(r, Some(remote), net, options).0 == r;
  }
}
