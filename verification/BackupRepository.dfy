// BackupRepo as the object it is: every method moves the branch, the index and
// the working tree step by step, and is tied to its meaning in Git and Sync.
module BackupRepository {
  import opened Base
  import opened Git
  import opened Sync
  import opened Pipeline
  import History
  import Paths

  class BackupRepo {
    var head: Option<Commit>
    var index: Tree
    var work: Tree
    var tracking: Option<Commit>

    function State(): Repo
      reads this
    {
      Repo(head, index, work, tracking)
    }

    constructor (existing: Repo)
      ensures State() == existing
    {
      head, index, work, tracking := existing.head, existing.index, existing.work, existing.tracking;
    }

    // Stage the file, write the index, commit the whole index on top of HEAD.
    method CommitPath(path: Path, meta: Meta, initial: bool, fault: Fault) returns (r: Result<Stored, StoreError>)
      requires path in work
      modifies `index, `head
      ensures (State(), r) == Git.CommitPath(old(State()), path, meta, initial, fault)
    {
      index := index[path := work[path]];
      if fault.AfterIndex? {
        return Err(Interrupted);
      }
      var change := Change(At(HeadTree(head), path), index[path]);
      var parents := [];
      if head.Some? {
        parents := [head.value];
      }
      var commit := Commit(index, parents, CaptureNote(path, meta, change, initial));
      head := Some(commit);
      r := Ok(Stored.Committed(commit));
    }

    // Text and binary captures are stored by the same steps.
    method Store(path: Path, contents: Blob, meta: Meta, fault: Fault) returns (r: Result<Stored, StoreError>)
      modifies `work, `index, `head
      ensures (State(), r) == Git.Store(old(State()), path, contents, meta, fault)
    {
      if !Resolves(path) {
        return Err(PathEscapes);
      }
      if fault.BeforeWrite? {
        return Err(Interrupted);
      }
      var existing := At(work, path);
      var bytesChanged := existing != Some(contents);
      if bytesChanged {
        if fault.TornWrite? {
          work := work[path := fault.left];
          return Err(Interrupted);
        }
        work := work[path := contents];
      }
      assert work == old(work)[path := contents];
      if !bytesChanged && !PathDirty(State(), path) {
        return Ok(Stored.Unchanged);
      }
      if fault.AfterWrite? {
        return Err(Interrupted);
      }
      var initial := path !in HeadTree(head);
      r := CommitPath(path, meta, initial, fault);
    }

    method WouldChange(path: Path, contents: Blob) returns (r: Result<bool, StoreError>)
      ensures r == Git.WouldChange(State(), path, contents)
    {
      if !Resolves(path) {
        return Err(PathEscapes);
      }
      var existing := At(work, path);
      if existing != Some(contents) {
        return Ok(true);
      }
      r := Ok(PathDirty(State(), path));
    }

    method MoveBranch(target: Commit, killed: bool) returns (r: Result<Synced, SyncError>)
      modifies `head, `index, `work
      ensures (State(), r) == Sync.MoveBranch(old(State()), target, killed)
    {
      head := Some(target);
      if killed {
        return Err(CheckoutInterrupted);
      }
      work := (work - index.Keys) + target.tree;
      index := target.tree;
      r := Ok(FastForwarded);
    }

    method SyncWith(remote: Option<Commit>, reachable: bool, killed: bool) returns (r: Result<Synced, SyncError>)
      modifies this
      ensures (State(), r) == Sync.SyncWith(old(State()), remote, reachable, killed)
    {
      if !reachable {
        return Ok(Unavailable);
      }
      if remote.Some? {
        tracking := remote;
      }
      if tracking.None? {
        return Ok(RemoteBranchMissing);
      }
      var remoteHead := tracking.value;
      if head.None? {
        r := MoveBranch(remoteHead, killed);
        return;
      }
      var local := head.value;
      if local == remoteHead {
        return Ok(UpToDate);
      }
      if DescendantOf(local, remoteHead) {
        return Ok(LocalAhead);
      }
      if !DescendantOf(remoteHead, local) {
        return Err(if MergeBaseExists(local, remoteHead) then DivergedHistories else UnrelatedHistories);
      }
      if Dirty(State()) {
        return Err(DirtyAndBehind);
      }
      r := MoveBranch(remoteHead, killed);
    }

    method Push(remote: Option<Commit>, reachable: bool) returns (branch: Option<Commit>, r: Result<(), PushError>)
      modifies `tracking
      ensures (State(), branch, r) == PushTo(old(State()), remote, reachable)
    {
      if !reachable {
        return remote, Err(PushError.Unreachable);
      }
      if head.None? {
        return remote, Err(NothingToPush);
      }
      if !Extends(head, remote) {
        return remote, Err(Rejected);
      }
      tracking := head;
      return head, Ok(());
    }

    // The commits that touched one file, in the order the walk hands them out.
    method HistoryOf(walk: seq<Commit>, path: Path, limit: nat) returns (r: Result<seq<Commit>, StoreError>)
      requires History.IsWalk(walk, head)
      ensures r.Ok? <==> Resolves(path)
      ensures r.Ok? ==> |r.value| <= limit && forall c | c in r.value :: BranchHas(head, c) && History.Touches(c, path)
      ensures r.Ok? && |r.value| < limit ==> forall c :: c in r.value <==> BranchHas(head, c) && History.Touches(c, path)
      ensures r.Ok? ==> r.value == if head.None? then [] else History.Entries(walk, path, limit)
    {
      if !Resolves(path) {
        return Err(PathEscapes);
      }
      if head.None? {
        return Ok([]);
      }
      var entries := [];
      var k := 0;
      while k < |walk| && |entries| < limit
        invariant k <= |walk| && |entries| <= limit
        invariant entries == History.Touching(walk[..k], path)
      {
        assert walk[..k + 1][..k] == walk[..k];
        if History.Touches(walk[k], path) {
          entries := entries + [walk[k]];
        }
        k := k + 1;
      }
      History.EntriesFromPrefix(walk, path, limit, k);
      forall c ensures c in entries ==> c in walk && History.Touches(c, path) {
        History.TouchingIsTouched(walk[..k], path, c);
      }
      if |entries| < limit {
        forall c ensures c in entries <==> c in walk && History.Touches(c, path) {
          History.HistoryIsComplete(walk, path, limit, c);
        }
      }
      r := Ok(entries);
    }
  }

  // --------------------------------------------------------------------------
  // The run
  // --------------------------------------------------------------------------

  method FoldCapture(repo: BackupRepo, path: Path, c: Captured, dryRun: bool) returns (r: Result<Outcome, StoreError>)
    requires c.Capture?
    modifies repo
    ensures (repo.State(), r) == Pipeline.FoldCapture(old(repo.State()), path, c, dryRun)
  {
    if dryRun {
      var would := repo.WouldChange(path, c.contents);
      if would.Err? {
        return Err(would.error);
      }
      return Ok(if would.value then Outcome.WouldChange else Outcome.Unchanged);
    }
    var did := repo.Store(path, c.contents, c.meta, c.fault);
    if did.Err? {
      return Err(did.error);
    }
    if c.binary.Some? {
      var _ := repo.Store(Paths.BinarySibling(path), c.binary.value, c.meta, c.binaryFault);
    }
    r := Ok(if did.value.Committed? then Outcome.Committed(did.value.commit) else Outcome.Unchanged);
  }

  method PushIfNeeded(repo: BackupRepo, remote: Option<RemoteConfig>, net: Network, commits: nat,
                      sync: Option<Synced>, options: Options) returns (branch: Option<Commit>, push: PushReport)
    modifies repo
    ensures (repo.State(), branch, push) == Pipeline.PushIfNeeded(old(repo.State()), remote, net, commits, sync, options)
  {
    branch := net.atPush;
    if options.dryRun { return branch, Skipped(DryRun); }
    if options.noPush { return branch, Skipped(NoPushFlag); }
    if remote.None? { return branch, Skipped(NoRemote); }
    if !remote.value.push { return branch, Skipped(PushDisabled); }
    if commits == 0 {
      if sync != Some(LocalAhead) {
        return branch, Skipped(NoNewCommits);
      }
    }
    var pushed;
    branch, pushed := repo.Push(net.atPush, net.pushWorks);
    push := if pushed.Ok? then Pushed else PushFailed(pushed.error);
  }

  // The whole run over the captures in their order of completion.
  method RunBackup(repo: BackupRepo, remote: Option<RemoteConfig>, net: Network, devices: seq<Device>,
                   completions: seq<Completion>, options: Options)
    returns (branch: Option<Commit>, r: Result<RunReport, RunError>)
    modifies repo
    ensures (repo.State(), branch, r) == Pipeline.Run(old(repo.State()), remote, net, devices, completions, options)
  {
    branch := net.atPush;
    if devices == [] {
      return branch, Ok(RunReport([], None, Skipped(NoDevices), options.dryRun));
    }
    var sync: Option<Synced> := None;
    if remote.Some? && !options.dryRun {
      var verdict := repo.SyncWith(net.atFetch, net.fetchWorks, false);
      if verdict.Err? {
        return branch, Err(SyncFailed(verdict.error));
      }
      sync := Some(verdict.value);
    }
    ghost var synced := repo.State();
    var reports: seq<Report> := [];
    var commits := 0;
    for k := 0 to |completions|
      invariant FoldAll(synced, completions[..k], options.dryRun) == Progress(repo.State(), reports, commits, None)
    {
      assert completions[..k + 1][..k] == completions[..k];
      var c := completions[k];
      if c.result.Unreachable? {
        reports := reports + [Report(c.device.name, c.device.path, Failed(c.result.message))];
      } else {
        var outcome := FoldCapture(repo, c.device.path, c.result, options.dryRun);
        if outcome.Err? {
          AbortSticks(synced, completions, options.dryRun, k + 1);
          return branch, Err(StoreFailed(outcome.error));
        }
        if outcome.value.Committed? {
          commits := commits + 1;
        }
        reports := reports + [Report(c.device.name, c.device.path, outcome.value)];
      }
    }
    assert completions[..|completions|] == completions;
    reports := ConfigOrder(reports, devices);
    var push;
    branch, push := PushIfNeeded(repo, remote, net, commits, sync, options);
    r := Ok(RunReport(reports, sync, push, options.dryRun));
  }

  // After an abort nothing more is folded.
  lemma {:induction false} AbortSticks(r: Repo, completions: seq<Completion>, dryRun: bool, k: nat)
    requires k <= |completions| && FoldAll(r, completions[..k], dryRun).aborted.Some?
    ensures FoldAll(r, completions, dryRun) == FoldAll(r, completions[..k], dryRun)
    decreases |completions|
  {
    if k == |completions| {
      assert completions[..k] == completions;
    } else {
      var n := |completions| - 1;
      assert completions[..n][..k] == completions[..k];
      AbortSticks(r, completions[..n], dryRun, k);
    }
  }
}
