// One backup run: sync, fold the captures as they complete, report, push once.
module Pipeline {
  import opened Base
  import opened Git
  import opened Sync
  import Paths

  datatype Device = Device(name: string, path: Path)

  // What came back from one router. The faults are those of the two stores.
  datatype Captured =
    | Capture(contents: Blob, binary: Option<Blob>, meta: Meta, fault: Fault, binaryFault: Fault)
    | Unreachable(message: string)

  datatype Completion = Completion(device: Device, result: Captured)

  datatype Outcome = Unchanged | Committed(commit: Commit) | WouldChange | Failed(message: string)

  datatype Report = Report(device: string, path: Path, outcome: Outcome)

  // --------------------------------------------------------------------------
  // Folding captures into the repository
  // --------------------------------------------------------------------------

  // A binary backup that cannot be stored never costs the run anything.
  function FoldCapture(r: Repo, path: Path, c: Captured, dryRun: bool): (Repo, Result<Outcome, StoreError>)
    requires c.Capture?
  {
    if dryRun then
      match Git.WouldChange(r, path, c.contents)
      case Ok(would) => (r, Ok(if would then Outcome.WouldChange else Outcome.Unchanged))
      case Err(e) => (r, Err(e))
    else
      var (s, did) := Store(r, path, c.contents, c.meta, c.fault);
      match did
      case Err(e) => (s, Err(e))
      case Ok(stored) =>
        var outcome := if stored.Committed? then Outcome.Committed(stored.commit) else Outcome.Unchanged;
        var t := if c.binary.None? then s
                 else Store(s, Paths.BinarySibling(path), c.binary.value, c.meta, c.binaryFault).0;
        (t, Ok(outcome))
  }

  datatype Progress = Progress(repo: Repo, reports: seq<Report>, commits: nat, aborted: Option<StoreError>)

  function FoldNext(p: Progress, c: Completion, dryRun: bool): Progress {
    if p.aborted.Some? then p
    else if c.result.Unreachable? then
      p.(reports := p.reports + [Report(c.device.name, c.device.path, Failed(c.result.message))])
    else
      var (s, did) := FoldCapture(p.repo, c.device.path, c.result, dryRun);
      match did
      case Err(e) => p.(repo := s, aborted := Some(e))
      case Ok(outcome) =>
        Progress(s, p.reports + [Report(c.device.name, c.device.path, outcome)],
                 if outcome.Committed? then p.commits + 1 else p.commits, None)
  }

  function FoldAll(r: Repo, completions: seq<Completion>, dryRun: bool): Progress {
    if completions == [] then Progress(r, [], 0, None)
    else
      var n := |completions| - 1;
      FoldNext(FoldAll(r, completions[..n], dryRun), completions[n], dryRun)
  }

  // --------------------------------------------------------------------------
  // The report
  // --------------------------------------------------------------------------

  // Position of the first device of that name, or past the end.
  function PositionOf(name: string, devices: seq<Device>): (k: nat)
    ensures k <= |devices|
    ensures k < |devices| ==> devices[k].name == name
    ensures forall j | 0 <= j < k :: devices[j].name != name
  {
    if devices == [] then 0
    else if devices[0].name == name then 0
    else 1 + PositionOf(name, devices[1..])
  }

  function AtPosition(reports: seq<Report>, devices: seq<Device>, k: nat): seq<Report> {
    if reports == [] then []
    else
      (if PositionOf(reports[0].device, devices) == k then [reports[0]] else []) +
      AtPosition(reports[1..], devices, k)
  }

  // A stable sort by position: all reports of position 0, then of position 1, ...
  function SortedUpTo(reports: seq<Report>, devices: seq<Device>, k: nat): seq<Report> {
    if k == 0 then [] else SortedUpTo(reports, devices, k - 1) + AtPosition(reports, devices, k - 1)
  }

  function ConfigOrder(reports: seq<Report>, devices: seq<Device>): seq<Report> {
    SortedUpTo(reports, devices, |devices| + 1)
  }

  function Count(reports: seq<Report>, p: Outcome -> bool): nat {
    if reports == [] then 0 else (if p(reports[0].outcome) then 1 else 0) + Count(reports[1..], p)
  }

  predicate IsChange(o: Outcome) { o.Committed? || o.WouldChange? }
  predicate IsUnchanged(o: Outcome) { o.Unchanged? }
  predicate IsFailure(o: Outcome) { o.Failed? }

  // --------------------------------------------------------------------------
  // The push decision and the whole run
  // --------------------------------------------------------------------------

  datatype Options = Options(dryRun: bool, noPush: bool)

  datatype RemoteConfig = RemoteConfig(push: bool)

  datatype SkipReason = NoDevices | DryRun | NoPushFlag | NoRemote | PushDisabled | NoNewCommits

  datatype PushReport = Skipped(reason: SkipReason) | Pushed | PushFailed(error: PushError)

  // The remote branch as the fetch and, later, the push find it.
  datatype Network = Network(atFetch: Option<Commit>, fetchWorks: bool, atPush: Option<Commit>, pushWorks: bool)

  function PushIfNeeded(r: Repo, remote: Option<RemoteConfig>, net: Network, commits: nat,
                        sync: Option<Synced>, options: Options): (Repo, Option<Commit>, PushReport) {
    if options.dryRun then (r, net.atPush, Skipped(DryRun)) else
    if options.noPush then (r, net.atPush, Skipped(NoPushFlag)) else
    if remote.None? then (r, net.atPush, Skipped(NoRemote)) else
    if !remote.value.push then (r, net.atPush, Skipped(PushDisabled)) else
    if commits == 0 && sync != Some(LocalAhead) then (r, net.atPush, Skipped(NoNewCommits)) else
    var (s, branch, pushed) := PushTo(r, net.atPush, net.pushWorks);
    (s, branch, if pushed.Ok? then Pushed else PushFailed(pushed.error))
  }

  datatype RunReport = RunReport(devices: seq<Report>, sync: Option<Synced>, push: PushReport, dryRun: bool)

  datatype RunError = SyncFailed(sync: SyncError) | StoreFailed(store: StoreError)

  function RunSync(r: Repo, remote: Option<RemoteConfig>, net: Network, options: Options)
    : (Repo, Result<Option<Synced>, SyncError>) {
    if remote.None? || options.dryRun then (r, Ok(None))
    else
      var (s, verdict) := SyncWith(r, net.atFetch, net.fetchWorks, false);
      match verdict
      case Ok(v) => (s, Ok(Some(v)))
      case Err(e) => (s, Err(e))
  }

  function Run(r: Repo, remote: Option<RemoteConfig>, net: Network, devices: seq<Device>,
               completions: seq<Completion>, options: Options): (Repo, Option<Commit>, Result<RunReport, RunError>) {
    if devices == [] then
      (r, net.atPush, Ok(RunReport([], None, Skipped(NoDevices), options.dryRun)))
    else
      var (synced, verdict) := RunSync(r, remote, net, options);
      match verdict
      case Err(e) => (synced, net.atPush, Err(SyncFailed(e)))
      case Ok(sync) =>
        var p := FoldAll(synced, completions, options.dryRun);
        if p.aborted.Some? then (p.repo, net.atPush, Err(StoreFailed(p.aborted.value)))
        else
          var (after, branch, push) := PushIfNeeded(p.repo, remote, net, p.commits, sync, options);
          (after, branch, Ok(RunReport(ConfigOrder(p.reports, devices), sync, push, options.dryRun)))
  }

  // Non-zero when any device failed or the push did.
  function ExitCode(report: RunReport): int {
    if Count(report.devices, IsFailure) > 0 || report.push.PushFailed? then 1 else 0
  }
}
