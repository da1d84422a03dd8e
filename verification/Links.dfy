// How the parts fit: the run slot's object and the protocol between processes,
// and a backup run and the steps of an installation.
module Links {
  import opened Base
  import opened Git
  import opened Sync
  import opened RunSlot
  import RunProtocol
  import RunExclusion
  import Installations
  import Lines
  import Pipeline
  import RunTheorems
  import Paths

  // --------------------------------------------------------------------------
  // Starting and executing a run, as steps of the protocol
  // --------------------------------------------------------------------------

  // Task `t` runs under `row` in process `pid`, whose slot is as given.
  ghost predicate RunsAs(w: RunProtocol.World, pid: RunProtocol.Pid, t: RunProtocol.TaskId, row: RowId, slot: Slot) {
    && t in w.tasks && w.tasks[t] == RunProtocol.Task(pid, true, RunProtocol.Running(row)) && t in w.journal
    && pid in w.slots && w.slots[pid] == slot && w.lock == Some(t)
    && row in w.rows && w.rows[row] == RunProtocol.Row(t, true, RunProtocol.StillRunning, None)
  }

  function StartSteps(pid: RunProtocol.Pid, t: RunProtocol.TaskId, row: RowId, trigger: string, line: string): seq<RunProtocol.Action> {
    [RunProtocol.Claim(pid, t, trigger, line), RunProtocol.TryLock(t, false)] + [RunProtocol.OpenRow(t, row, true, false), RunProtocol.Stamp(t)]
  }

  // A start that meets a free slot and a free lock leaves what RunManager.Start
  // leaves when the database grants both.
  lemma StartIsSteps(w: RunProtocol.World, pid: RunProtocol.Pid, t: RunProtocol.TaskId, row: RowId, trigger: string, line: string)
    requires pid in w.slots && !InFlight(w.slots[pid]) && w.lock.None? && t !in w.journal && RunProtocol.FreshRow(w, row)
    ensures RunsAs(RunProtocol.RunFrom(w, StartSteps(pid, t, row, trigger, line)), pid, t, row, Stamped(Fresh(trigger, line), row))
  {
    var first := [RunProtocol.Claim(pid, t, trigger, line), RunProtocol.TryLock(t, false)];
    var second := [RunProtocol.OpenRow(t, row, true, false), RunProtocol.Stamp(t)];
    RunExclusion.RunFromConcat(w, first, second);
    RunExclusion.RunTwo(w, first[0], first[1]);
    RunExclusion.RunTwo(RunProtocol.RunFrom(w, first), second[0], second[1]);
  }

  function EmitSteps(t: RunProtocol.TaskId, lines: seq<string>): seq<RunProtocol.Action> {
    seq(|lines|, i requires 0 <= i < |lines| => RunProtocol.Emit(t, lines[i]))
  }

  lemma {:induction false} EmitsPush(w: RunProtocol.World, pid: RunProtocol.Pid, t: RunProtocol.TaskId, row: RowId, slot: Slot, lines: seq<string>)
    requires RunsAs(w, pid, t, row, slot)
    ensures RunsAs(RunProtocol.RunFrom(w, EmitSteps(t, lines)), pid, t, row, PushedAll(slot, lines))
  {
    if lines != [] {
      var n := |lines| - 1;
      EmitsPush(w, pid, t, row, slot, lines[..n]);
      assert EmitSteps(t, lines) == EmitSteps(t, lines[..n]) + [RunProtocol.Emit(t, lines[n])];
      RunExclusion.RunFromSnoc(w, EmitSteps(t, lines[..n]), RunProtocol.Emit(t, lines[n]));
    }
  }

  function EndSteps(t: RunProtocol.TaskId, closing: string, status: RunProtocol.Status, text: string, failed: bool): seq<RunProtocol.Action> {
    [RunProtocol.Sum(t, closing), RunProtocol.CloseRow(t, status, true)] + [RunProtocol.Finish(t, text, failed), RunProtocol.Release(t)]
  }

  lemma EndIsSteps(w: RunProtocol.World, pid: RunProtocol.Pid, t: RunProtocol.TaskId, row: RowId, slot: Slot,
                   closing: string, status: RunProtocol.Status, text: string, failed: bool)
    requires RunsAs(w, pid, t, row, slot) && !status.StillRunning?
    ensures var later := RunProtocol.RunFrom(w, EndSteps(t, closing, status, text, failed));
            && pid in later.slots && later.slots[pid] == Done(Pushed(slot, closing), text, failed)
            && row in later.rows && later.rows[row] == RunProtocol.Row(t, true, status, Some(LogText(Pushed(slot, closing))))
            && later.lock.None? && t !in later.tasks
  {
    var first := [RunProtocol.Sum(t, closing), RunProtocol.CloseRow(t, status, true)];
    var second := [RunProtocol.Finish(t, text, failed), RunProtocol.Release(t)];
    RunExclusion.RunFromConcat(w, first, second);
    SumAndClose(w, pid, t, row, slot, closing, status);
    FinishAndRelease(RunProtocol.RunFrom(w, first), pid, t, row, Pushed(slot, closing), text, failed);
  }

  // The closing write is done, the slot not yet.
  ghost predicate HasClosed(w: RunProtocol.World, pid: RunProtocol.Pid, t: RunProtocol.TaskId, row: RowId, slot: Slot) {
    && t in w.tasks && w.tasks[t] == RunProtocol.Task(pid, true, RunProtocol.Closed(row)) && t in w.journal
    && pid in w.slots && w.slots[pid] == slot && w.lock == Some(t)
  }

  lemma SumAndClose(w: RunProtocol.World, pid: RunProtocol.Pid, t: RunProtocol.TaskId, row: RowId, slot: Slot,
                    closing: string, status: RunProtocol.Status)
    requires RunsAs(w, pid, t, row, slot) && !status.StillRunning?
    ensures var later := RunProtocol.RunFrom(w, [RunProtocol.Sum(t, closing), RunProtocol.CloseRow(t, status, true)]);
            && HasClosed(later, pid, t, row, Pushed(slot, closing))
            && row in later.rows && later.rows[row] == RunProtocol.Row(t, true, status, Some(LogText(Pushed(slot, closing))))
  {
    RunExclusion.RunTwo(w, RunProtocol.Sum(t, closing), RunProtocol.CloseRow(t, status, true));
  }

  lemma FinishAndRelease(w: RunProtocol.World, pid: RunProtocol.Pid, t: RunProtocol.TaskId, row: RowId, slot: Slot, text: string, failed: bool)
    requires HasClosed(w, pid, t, row, slot)
    ensures var later := RunProtocol.RunFrom(w, [RunProtocol.Finish(t, text, failed), RunProtocol.Release(t)]);
            && pid in later.slots && later.slots[pid] == Done(slot, text, failed)
            && later.rows == w.rows && later.lock.None? && t !in later.tasks
  {
    RunExclusion.RunTwo(w, RunProtocol.Finish(t, text, failed), RunProtocol.Release(t));
  }

  // One undisturbed web run through the protocol does to its slot what
  // RunManager.Start and RunManager.Execute do, saves the log that Execute
  // hands to the database, and ends without the lock.
  lemma RunManagerFollowsProtocol(w: RunProtocol.World, pid: RunProtocol.Pid, t: RunProtocol.TaskId, row: RowId, trigger: string, opening: string,
                                  lines: seq<string>, closing: string, status: RunProtocol.Status, text: string, failed: bool)
    requires pid in w.slots && !InFlight(w.slots[pid]) && w.lock.None? && t !in w.journal && RunProtocol.FreshRow(w, row)
    requires !status.StillRunning?
    ensures var full := Pushed(PushedAll(Stamped(Fresh(trigger, opening), row), lines), closing);
            var later := RunProtocol.RunFrom(w, StartSteps(pid, t, row, trigger, opening) + EmitSteps(t, lines) + EndSteps(t, closing, status, text, failed));
            && pid in later.slots && later.slots[pid] == Done(full, text, failed)
            && row in later.rows && later.rows[row] == RunProtocol.Row(t, true, status, Some(LogText(full)))
            && later.lock.None?
  {
    var start, emits, end := StartSteps(pid, t, row, trigger, opening), EmitSteps(t, lines), EndSteps(t, closing, status, text, failed);
    var slot := Stamped(Fresh(trigger, opening), row);
    StartIsSteps(w, pid, t, row, trigger, opening);
    RunExclusion.RunFromConcat(w, start, emits);
    EmitsPush(RunProtocol.RunFrom(w, start), pid, t, row, slot, lines);
    RunExclusion.RunFromConcat(w, start + emits, end);
    EndIsSteps(RunProtocol.RunFrom(w, start + emits), pid, t, row, PushedAll(slot, lines), closing, status, text, failed);
  }

  // --------------------------------------------------------------------------
  // A backup run, as steps of an installation
  // --------------------------------------------------------------------------

  lemma {:induction false} RunConcat(s: Installations.System, a: seq<Installations.Action>, b: seq<Installations.Action>)
    ensures Installations.Run(s, a + b) == Installations.Run(Installations.Run(s, a), b)
    decreases |a|
  {
    if a == [] {
      assert a + b == b;
    } else {
      assert (a + b)[0] == a[0] && (a + b)[1..] == a[1..] + b;
      RunConcat(Installations.Step(s, a[0]), a[1..], b);
    }
  }

  lemma RunOne(s: Installations.System, a: Installations.Action)
    ensures Installations.Run(s, [a]) == Installations.Step(s, a)
  {
    assert [a][1..] == [];
  }

  // Steps the program takes by itself at installation `i`.
  ghost predicate OwnSteps(i: Installations.SiteId, actions: seq<Installations.Action>) {
    forall a | a in actions :: Installations.OnlyProgramOf(i, a)
  }

  function At(s: Installations.System, i: Installations.SiteId, r: Repo): Installations.System {
    s.(sites := s.sites[i := r])
  }

  lemma StoreIsStep(s: Installations.System, i: Installations.SiteId, r: Repo, p: Path, contents: Blob, meta: Meta, fault: Fault)
    ensures Installations.Run(At(s, i, r), [Installations.StoreFile(i, p, contents, meta, fault)]) == At(s, i, Git.Store(r, p, contents, meta, fault).0)
  {
    RunOne(At(s, i, r), Installations.StoreFile(i, p, contents, meta, fault));
    assert At(s, i, r).sites[i := Git.Store(r, p, contents, meta, fault).0] == At(s, i, Git.Store(r, p, contents, meta, fault).0).sites;
  }

  // Folding one capture is at most two stores.
  lemma CaptureIsSteps(s: Installations.System, i: Installations.SiteId, r: Repo, path: Path, c: Pipeline.Captured, dryRun: bool)
    returns (actions: seq<Installations.Action>)
    requires c.Capture?
    ensures OwnSteps(i, actions) && Installations.Run(At(s, i, r), actions) == At(s, i, Pipeline.FoldCapture(r, path, c, dryRun).0)
  {
    actions := [];
    if !dryRun {
      var text := Installations.StoreFile(i, path, c.contents, c.meta, c.fault);
      var (stored, did) := Git.Store(r, path, c.contents, c.meta, c.fault);
      StoreIsStep(s, i, r, path, c.contents, c.meta, c.fault);
      actions := [text];
      if did.Ok? && c.binary.Some? {
        var binary := Installations.StoreFile(i, Paths.BinarySibling(path), c.binary.value, c.meta, c.binaryFault);
        StoreIsStep(s, i, stored, Paths.BinarySibling(path), c.binary.value, c.meta, c.binaryFault);
        RunConcat(At(s, i, r), [text], [binary]);
        actions := [text] + [binary];
      }
    }
  }

  lemma {:induction false} FoldIsSteps(s: Installations.System, i: Installations.SiteId, r: Repo, completions: seq<Pipeline.Completion>, dryRun: bool)
    returns (actions: seq<Installations.Action>)
    ensures OwnSteps(i, actions) && Installations.Run(At(s, i, r), actions) == At(s, i, Pipeline.FoldAll(r, completions, dryRun).repo)
  {
    actions := [];
    if completions != [] {
      var n := |completions| - 1;
      var c := completions[n];
      var before := Pipeline.FoldAll(r, completions[..n], dryRun);
      actions := FoldIsSteps(s, i, r, completions[..n], dryRun);
      if before.aborted.None? && c.result.Capture? {
        var more := CaptureIsSteps(s, i, before.repo, c.device.path, c.result, dryRun);
        RunConcat(At(s, i, r), actions, more);
        actions := actions + more;
      }
    }
  }

  // Sync is a fetch and, where it found the branch, an integration.
  lemma SyncIsSteps(s: Installations.System, i: Installations.SiteId, r: Repo, reachable: bool) returns (actions: seq<Installations.Action>)
    ensures OwnSteps(i, actions) && Installations.Run(At(s, i, r), actions) == At(s, i, SyncWith(r, s.remote, reachable, false).0)
  {
    actions := [];
    if reachable {
      var fetch, integrate := Installations.FetchRemote(i), Installations.IntegrateFetched(i, false);
      RunConcat(At(s, i, r), [fetch], [integrate]);
      RunOne(At(s, i, r), fetch);
      var fetched := At(s, i, Fetch(r, s.remote));
      assert Installations.Step(At(s, i, r), fetch) == fetched;
      RunOne(fetched, integrate);
      assert Installations.Step(fetched, integrate) == At(s, i, Integrate(Fetch(r, s.remote), false).0);
      actions := [fetch] + [integrate];
    }
  }

  lemma PushIsStep(s: Installations.System, i: Installations.SiteId, r: Repo, reachable: bool) returns (actions: seq<Installations.Action>)
    ensures OwnSteps(i, actions)
    ensures var (after, branch, _) := PushTo(r, s.remote, reachable);
            Installations.Run(At(s, i, r), actions) == Installations.System(s.sites[i := after], branch)
  {
    actions := [];
    if reachable {
      actions := [Installations.PushBranch(i, false)];
      RunOne(At(s, i, r), actions[0]);
      assert At(s, i, r).sites[i := PushTo(r, s.remote, true).0] == s.sites[i := PushTo(r, s.remote, true).0];
    }
  }

  // Whatever way it ends, a run whose remote nobody else moves meanwhile is a
  // sequence of steps its installation takes by itself. So all that is proved
  // about such steps, in any interleaving, is proved about runs.
  lemma RunIsInstallationSteps(s: Installations.System, i: Installations.SiteId, remote: Option<Pipeline.RemoteConfig>, net: Pipeline.Network,
                               devices: seq<Pipeline.Device>, completions: seq<Pipeline.Completion>, options: Pipeline.Options)
    returns (actions: seq<Installations.Action>)
    requires i in s.sites && net.atFetch == net.atPush == s.remote
    ensures OwnSteps(i, actions)
    ensures var (after, branch, _) := Pipeline.Run(s.sites[i], remote, net, devices, completions, options);
            Installations.Run(s, actions) == Installations.System(s.sites[i := after], branch)
  {
    var r := s.sites[i];
    assert At(s, i, r) == s;
    actions := [];
    if devices != [] {
      var (synced, verdict) := Pipeline.RunSync(r, remote, net, options);
      if remote.Some? && !options.dryRun {
        actions := SyncIsSteps(s, i, r, net.fetchWorks);
      }
      if verdict.Ok? {
        var folds := FoldIsSteps(s, i, synced, completions, options.dryRun);
        RunConcat(s, actions, folds);
        actions := actions + folds;
        var p := Pipeline.FoldAll(synced, completions, options.dryRun);
        if p.aborted.None? {
          var pushed := PushDecided(s, i, p.repo, remote, net, p.commits, verdict.value, options);
          RunConcat(s, actions, pushed);
          actions := actions + pushed;
        }
      }
    }
  }

  lemma PushDecided(s: Installations.System, i: Installations.SiteId, r: Repo, remote: Option<Pipeline.RemoteConfig>, net: Pipeline.Network,
                    commits: nat, sync: Option<Synced>, options: Pipeline.Options)
    returns (actions: seq<Installations.Action>)
    requires net.atPush == s.remote
    ensures OwnSteps(i, actions)
    ensures var (after, branch, _) := Pipeline.PushIfNeeded(r, remote, net, commits, sync, options);
            Installations.Run(At(s, i, r), actions) == Installations.System(s.sites[i := after], branch)
  {
    actions := [];
    if !options.dryRun && !options.noPush && remote.Some? && remote.value.push && (commits > 0 || sync == Some(LocalAhead)) {
      actions := PushIsStep(s, i, r, net.pushWorks);
    }
  }

  // --------------------------------------------------------------------------
  // What the page shows of a run
  // --------------------------------------------------------------------------

  // The end of a run under the slot's object: the outcome decides the colour.
  method ExecuteRun(manager: RunManager, lines: seq<string>, closing: string, text: string,
                    outcome: Result<Pipeline.RunReport, Pipeline.RunError>)
    returns (saved: string)
    requires manager.current.Some?
    modifies manager
    ensures var was, now := old(manager.current), manager.current;
            && now.Some? && now.value.finished && now.value.id == was.value.id
            && now.value.log == was.value.log + lines + [closing] && saved == Lines.Joined(now.value.log)
            && (now.value.failed <==> outcome.Err? || outcome.value.push.PushFailed? ||
                                      exists row | row in outcome.value.devices :: row.outcome.Failed?)
  {
    var failed := true;
    if outcome.Ok? {
      RunTheorems.ExitCodeTells(outcome.value);
      failed := Pipeline.ExitCode(outcome.value) != 0;
    }
    PushedAllAppends(manager.current, lines);
    saved := manager.Execute(lines, closing, text, failed);
  }
}
