// One run at a time, over every run of the protocol.
module RunExclusion {
  import opened Base
  import opened RunSlot
  import opened RunProtocol
  import opened RunSafety
  import Lines

  function Reached(actions: seq<Action>): World {
    RunFrom(EMPTY, actions)
  }

  lemma {:induction false} ReachedIsSafe(actions: seq<Action>)
    ensures Inv(Reached(actions))
  {
    if actions != [] {
      ReachedIsSafe(actions[..|actions| - 1]);
      NextKeepsInv(Reached(actions[..|actions| - 1]), actions[|actions| - 1]);
    }
  }

  // --------------------------------------------------------------------------
  // Mutual exclusion
  // --------------------------------------------------------------------------

  // Of all tasks of all processes, at most one is between taking the lock and
  // dropping it, and only that one can change the repository.
  lemma MutualExclusion(actions: seq<Action>, a: Action)
    ensures var w := Reached(actions);
            && (forall t, u | t in w.tasks && u in w.tasks && Holding(w.tasks[t]) && Holding(w.tasks[u]) :: t == u)
            && (Next(w, a).writes != w.writes ==> w.lock.Some? && Next(w, a).writes == w.writes + [w.lock.value])
  {
    ReachedIsSafe(actions);
  }

  // Runs never interleave their changes, whoever is killed and restarted when.
  lemma RunsNeverInterleave(actions: seq<Action>)
    ensures Contiguous(Reached(actions).writes)
  {
    ReachedIsSafe(actions);
  }

  // An unfinished slot that shows a run id: its process holds the lock and
  // owns that row.
  lemma UnfinishedSlotHoldsTheLock(actions: seq<Action>, pid: Pid)
    requires var w := Reached(actions);
             pid in w.slots && InFlight(w.slots[pid]) && w.slots[pid].value.id != NIL
    ensures var w := Reached(actions);
            var id := w.slots[pid].value.id;
            && w.lock.Some? && w.lock.value in w.tasks && w.tasks[w.lock.value].pid == pid
            && id in w.rows && w.rows[id].owner == w.lock.value
  {
    ReachedIsSafe(actions);
    var w := Reached(actions);
    var t :| Owner(w, t, pid, w.slots[pid].value.id);
    assert Holding(w.tasks[t]);
  }

  // --------------------------------------------------------------------------
  // Logs
  // --------------------------------------------------------------------------

  // The line an action of task `t` adds to the log of its run.
  function LineBy(a: Action, t: TaskId): seq<string> {
    match a
    case Claim(_, u, _, line) => if u == t then [line] else []
    case Emit(u, line) => if u == t then [line] else []
    case Sum(u, line) => if u == t then [line] else []
    case _ => []
  }

  // Everything `t` itself said, read off the steps taken and nothing else.
  function SaidBy(actions: seq<Action>, t: TaskId): seq<string> {
    if actions == [] then []
    else
      var n := |actions| - 1;
      SaidBy(actions[..n], t) + if Enabled(Reached(actions[..n]), actions[n]) then LineBy(actions[n], t) else []
  }

  lemma StepSays(w: World, a: Action, t: TaskId)
    requires LockInv(w) && Enabled(w, a) && t in Apply(w, a).journal
    ensures Apply(w, a).journal[t] == (if t in w.journal then w.journal[t] else []) + LineBy(a, t)
    ensures t in w.journal || a.Claim? || a.Command?
  {
  }

  lemma {:induction false} JournalIsWhatWasSaid(actions: seq<Action>, t: TaskId)
    ensures t in Reached(actions).journal ==> Reached(actions).journal[t] == SaidBy(actions, t)
    ensures t !in Reached(actions).journal ==> SaidBy(actions, t) == []
  {
    if actions != [] {
      var n := |actions| - 1;
      JournalIsWhatWasSaid(actions[..n], t);
      ReachedIsSafe(actions[..n]);
      var w, a := Reached(actions[..n]), actions[n];
      if Enabled(w, a) {
        if t in Apply(w, a).journal {
          StepSays(w, a, t);
        } else {
          OnlyKnownTasksSpeak(w, a, t);
        }
      }
    }
  }

  lemma OnlyKnownTasksSpeak(w: World, a: Action, t: TaskId)
    requires Enabled(w, a) && t !in Apply(w, a).journal
    ensures LineBy(a, t) == [] && t !in w.journal
  {
  }

  // The log saved for a run is its own lines, in order, and nobody else's;
  // a web run's begins with the line its start was claimed with.
  lemma SavedLogIsOwnLog(actions: seq<Action>, row: RowId)
    requires row in Reached(actions).rows && Reached(actions).rows[row].log.Some?
    ensures var saved := Reached(actions).rows[row];
            saved.log.value == if saved.web then Lines.Joined(SaidBy(actions, saved.owner)) else ""
  {
    ReachedIsSafe(actions);
    JournalIsWhatWasSaid(actions, Reached(actions).rows[row].owner);
  }

  // --------------------------------------------------------------------------
  // Rows
  // --------------------------------------------------------------------------

  // Whoever opened the row is gone, or tried to close it and is past that.
  ghost predicate Orphan(w: World, row: RowId)
    requires row in w.rows
  {
    var owner := w.rows[row].owner;
    owner !in w.tasks || w.tasks[owner].phase.Closed? || w.tasks[owner].phase.Finished?
  }

  // A row still running belongs to the lock holder or is an orphan, so at most
  // one running row is no orphan.
  lemma RunningRowsAreAccountedFor(actions: seq<Action>, row: RowId, other: RowId)
    requires var w := Reached(actions); row in w.rows && other in w.rows
    ensures var w := Reached(actions);
            && (!Orphan(w, row) ==> w.lock == Some(w.rows[row].owner))
            && (!Orphan(w, row) && !Orphan(w, other) ==> row == other)
  {
    ReachedIsSafe(actions);
  }

  // Once whoever opened it is past its closing write, or gone, a row that is
  // not running stays as it is.
  lemma OrphansStay(w: World, row: RowId, a: Action)
    requires Inv(w) && row in w.rows && !w.rows[row].status.StillRunning? && Orphan(w, row)
    ensures var next := Next(w, a); row in next.rows && next.rows[row] == w.rows[row] && Orphan(next, row)
  {
    if Enabled(w, a) {
      assert w.rows[row].owner in w.journal;
      PastStaysPast(w, a, w.rows[row].owner);
      ClosedRowStays(w, a, row);
    }
  }

  predicate Past(w: World, t: TaskId) {
    t !in w.tasks || w.tasks[t].phase.Closed? || w.tasks[t].phase.Finished?
  }

  lemma PastStaysPast(w: World, a: Action, t: TaskId)
    requires Enabled(w, a) && t in w.journal && Past(w, t)
    ensures Past(Apply(w, a), t)
  {
  }

  lemma ClosedRowStays(w: World, a: Action, row: RowId)
    requires RowInv(w) && Enabled(w, a)
    requires row in w.rows && !w.rows[row].status.StillRunning? && Past(w, w.rows[row].owner)
    ensures row in Apply(w, a).rows && Apply(w, a).rows[row] == w.rows[row]
  {
    if a.CloseRow? {
      assert RowOf(w.tasks[a.task].phase) == Some(w.tasks[a.task].phase.row);
    }
  }

  lemma {:induction false} ClosedOrphansStayClosed(w: World, actions: seq<Action>, row: RowId)
    requires Inv(w) && row in w.rows && !w.rows[row].status.StillRunning? && Orphan(w, row)
    ensures var later := RunFrom(w, actions);
            Inv(later) && row in later.rows && later.rows[row] == w.rows[row] && Orphan(later, row)
  {
    if actions != [] {
      var n := |actions| - 1;
      ClosedOrphansStayClosed(w, actions[..n], row);
      NextKeepsInv(RunFrom(w, actions[..n]), actions[n]);
      OrphansStay(RunFrom(w, actions[..n]), row, actions[n]);
    }
  }

  lemma RunFromSnoc(w: World, actions: seq<Action>, a: Action)
    ensures RunFrom(w, actions + [a]) == Next(RunFrom(w, actions), a)
  {
    assert (actions + [a])[..|actions|] == actions;
  }

  lemma {:induction false} RunFromConcat(w: World, a: seq<Action>, b: seq<Action>)
    ensures RunFrom(w, a + b) == RunFrom(RunFrom(w, a), b)
  {
    if b == [] {
      assert a + b == a;
    } else {
      var n := |b| - 1;
      assert (a + b)[..|a| + n] == a + b[..n];
      RunFromConcat(w, a, b[..n]);
    }
  }

  function OtherStatus(status: Status): Status {
    if status.Completed? then Failed else Completed
  }

  // The one row a live owner can still close.
  lemma ClosingChangesRow(w: World, t: TaskId, row: RowId)
    requires Inv(w) && t in w.tasks && w.tasks[t].phase.Closing? && row in w.rows && w.rows[row].owner == t
    ensures var next := Next(w, CloseRow(t, OtherStatus(w.rows[row].status), true));
            row in next.rows && next.rows[row].status != w.rows[row].status
  {
    assert RowOf(w.tasks[t].phase) == Some(row);
  }

  lemma RunningMovesOn(w: World, t: TaskId, row: RowId)
    requires Inv(w) && t in w.tasks && w.tasks[t].phase.Running? && row in w.rows && w.rows[row].owner == t
    ensures var next := Next(w, Sum(t, ""));
            Inv(next) && t in next.tasks && next.tasks[t].phase.Closing? && next.rows == w.rows
  {
    NextKeepsInv(w, Sum(t, ""));
  }

  lemma OpenedMovesOn(w: World, t: TaskId, row: RowId)
    requires Inv(w) && t in w.tasks && w.tasks[t].phase.Opened? && row in w.rows && w.rows[row].owner == t
    ensures var next := Next(w, Stamp(t));
            Inv(next) && t in next.tasks && next.tasks[t].phase.Running? && next.rows == w.rows
  {
    NextKeepsInv(w, Stamp(t));
  }

  // Short of its closing write, a living owner can always change its row.
  lemma LiveOwnerChangesRow(w: World, row: RowId) returns (actions: seq<Action>)
    requires Inv(w) && row in w.rows && !Orphan(w, row)
    ensures var later := RunFrom(w, actions); row in later.rows && later.rows[row].status != w.rows[row].status
  {
    var t := w.rows[row].owner;
    var close := CloseRow(t, OtherStatus(w.rows[row].status), true);
    assert RowOf(w.tasks[t].phase) == Some(row);
    if w.tasks[t].phase.Closing? {
      ClosingChangesRow(w, t, row);
      actions := [close];
      RunOne(w, close);
    } else if w.tasks[t].phase.Running? {
      RunningMovesOn(w, t, row);
      var summed := Next(w, Sum(t, ""));
      ClosingChangesRow(summed, t, row);
      actions := [Sum(t, ""), close];
      RunTwo(w, Sum(t, ""), close);
    } else {
      OpenedMovesOn(w, t, row);
      var stamped := Next(w, Stamp(t));
      RunningMovesOn(stamped, t, row);
      ClosingChangesRow(Next(stamped, Sum(t, "")), t, row);
      actions := [Stamp(t)] + [Sum(t, ""), close];
      RunFromConcat(w, [Stamp(t)], [Sum(t, ""), close]);
      RunOne(w, Stamp(t));
      RunTwo(stamped, Sum(t, ""), close);
    }
  }

  lemma RunOne(w: World, a: Action)
    ensures RunFrom(w, [a]) == Next(w, a)
  {
    RunFromSnoc(w, [], a);
    assert [] + [a] == [a];
  }

  lemma RunTwo(w: World, a: Action, b: Action)
    ensures RunFrom(w, [a, b]) == Next(Next(w, a), b)
  {
    RunOne(w, a);
    RunFromSnoc(w, [a], b);
    assert [a] + [b] == [a, b];
  }

  // A closed row is final exactly if it is an orphan: web run or command-line
  // run, a living owner that has not attempted its closing write can still
  // change it, and nobody else ever can.
  lemma ClosedRowsAreFinal(w: World, row: RowId)
    requires Inv(w) && row in w.rows && !w.rows[row].status.StillRunning?
    ensures (forall actions :: row in RunFrom(w, actions).rows && RunFrom(w, actions).rows[row] == w.rows[row]) <==> Orphan(w, row)
  {
    if Orphan(w, row) {
      forall actions ensures row in RunFrom(w, actions).rows && RunFrom(w, actions).rows[row] == w.rows[row] {
        ClosedOrphansStayClosed(w, actions, row);
      }
    } else {
      var actions := LiveOwnerChangesRow(w, row);
      assert RunFrom(w, actions).rows[row] != w.rows[row];
    }
  }

  // And there are closed rows that are no orphans: recovery does not look at
  // the lock. A serving process that starts during a command-line run marks
  // that run's row failed, while the run goes on under the lock.
  lemma RecoveryIgnoresTheLock(row: RowId) returns (actions: seq<Action>)
    requires row != NIL
    ensures var w := Reached(actions);
            row in w.rows && w.rows[row].status == Failed && !Orphan(w, row) && w.lock == Some(w.rows[row].owner)
  {
    actions := [Command(1, 1), TryLock(1, false)] + [OpenRow(1, row, true, false), Serve(2)];
    RunFromConcat(EMPTY, [Command(1, 1), TryLock(1, false)], [OpenRow(1, row, true, false), Serve(2)]);
    RunTwo(EMPTY, Command(1, 1), TryLock(1, false));
    var locked := Next(Next(EMPTY, Command(1, 1)), TryLock(1, false));
    assert locked.lock == Some(1) && locked.tasks == map[1 := Task(1, false, Locked)] && 1 in locked.journal && locked.rows == map[] && locked.slots == map[];
    RunTwo(locked, OpenRow(1, row, true, false), Serve(2));
  }

  // --------------------------------------------------------------------------
  // Slots that nobody will ever free
  // --------------------------------------------------------------------------

  ghost predicate Owned(w: World, pid: Pid) {
    exists t :: t in w.tasks && OwnsSlot(w.tasks[t]) && w.tasks[t].pid == pid
  }

  // The slot is taken, and no task is left to free it.
  ghost predicate Stuck(w: World, pid: Pid) {
    pid in w.slots && InFlight(w.slots[pid]) && !Owned(w, pid)
  }

  // A slot gets stuck exactly when the request that claimed it is dropped
  // while it waits for the lock or for its row.
  lemma StuckExactlyByDroppedRequest(w: World, a: Action, pid: Pid)
    requires Inv(w) && !Stuck(w, pid)
    ensures Stuck(Next(w, a), pid) <==> a.DropRequest? && Enabled(w, a) && w.tasks[a.task].pid == pid
  {
    if Enabled(w, a) {
      var next := Apply(w, a);
      if a.DropRequest? {
        DroppingLeavesTheSlot(w, a.task, a.row, a.inserted);
        if w.tasks[a.task].pid != pid {
          OthersKeepTheSlot(w, a, pid);
        }
      } else {
        OthersKeepTheSlot(w, a, pid);
      }
    }
  }

  lemma DroppingLeavesTheSlot(w: World, t: TaskId, row: RowId, inserted: bool)
    requires Inv(w) && Enabled(w, DropRequest(t, row, inserted))
    ensures Stuck(Apply(w, DropRequest(t, row, inserted)), w.tasks[t].pid)
  {
  }

  lemma OthersKeepTheSlot(w: World, a: Action, pid: Pid)
    requires Inv(w) && !Stuck(w, pid) && Enabled(w, a)
    requires a.DropRequest? ==> w.tasks[a.task].pid != pid
    ensures !Stuck(Apply(w, a), pid)
  {
    var next := Apply(w, a);
    if pid in next.slots && InFlight(next.slots[pid]) {
      if a.Claim? && a.pid == pid {
        assert next.tasks[a.task].pid == pid;
      } else {
        SlotWasTaken(w, a, pid);
        var t :| t in w.tasks && OwnsSlot(w.tasks[t]) && w.tasks[t].pid == pid;
        OwnerStays(w, a, t);
      }
    }
  }

  lemma SlotWasTaken(w: World, a: Action, pid: Pid)
    requires LockInv(w) && SlotInv(w) && Enabled(w, a) && !(a.Claim? && a.pid == pid)
    requires pid in Apply(w, a).slots && InFlight(Apply(w, a).slots[pid])
    ensures pid in w.slots && InFlight(w.slots[pid])
  {
  }

  lemma OwnerStays(w: World, a: Action, t: TaskId)
    requires LockInv(w) && SlotInv(w) && Enabled(w, a) && t in w.tasks && OwnsSlot(w.tasks[t])
    requires a.DropRequest? ==> w.tasks[a.task].pid != w.tasks[t].pid
    requires var pid := w.tasks[t].pid; pid in Apply(w, a).slots && InFlight(Apply(w, a).slots[pid])
    ensures var next := Apply(w, a);
            t in next.tasks && OwnsSlot(next.tasks[t]) && next.tasks[t].pid == w.tasks[t].pid
  {
    if Coming(a) || Trying(a) || Opening(a) {
      OwnerOutlives(w, a, t);
    } else {
      OwnerWorksOn(w, a, t);
    }
  }

  lemma OwnerOutlives(w: World, a: Action, t: TaskId)
    requires LockInv(w) && SlotInv(w) && Enabled(w, a) && t in w.tasks && OwnsSlot(w.tasks[t])
    requires a.DropRequest? ==> w.tasks[a.task].pid != w.tasks[t].pid
    requires var pid := w.tasks[t].pid; pid in Apply(w, a).slots && InFlight(Apply(w, a).slots[pid])
    requires Coming(a) || Trying(a) || Opening(a)
    ensures var next := Apply(w, a);
            t in next.tasks && OwnsSlot(next.tasks[t]) && next.tasks[t].pid == w.tasks[t].pid
  {
  }

  lemma OwnerWorksOn(w: World, a: Action, t: TaskId)
    requires LockInv(w) && SlotInv(w) && Enabled(w, a) && t in w.tasks && OwnsSlot(w.tasks[t])
    requires var pid := w.tasks[t].pid; pid in Apply(w, a).slots && InFlight(Apply(w, a).slots[pid])
    requires Working(a) || Speaking(a) || Ending(a)
    ensures var next := Apply(w, a);
            t in next.tasks && OwnsSlot(next.tasks[t]) && next.tasks[t].pid == w.tasks[t].pid
  {
  }

  // So as long as no request is dropped half-way, every taken slot has a task
  // that will free it.
  lemma {:induction false} TakenSlotsAreOwned(actions: seq<Action>, pid: Pid)
    requires forall a | a in actions :: !a.DropRequest?
    ensures !Stuck(Reached(actions), pid)
  {
    if actions != [] {
      var n := |actions| - 1;
      assert actions[n] in actions;
      assert forall a | a in actions[..n] :: a in actions;
      TakenSlotsAreOwned(actions[..n], pid);
      ReachedIsSafe(actions[..n]);
      StuckExactlyByDroppedRequest(Reached(actions[..n]), actions[n], pid);
    }
  }

  // How many steps of its own a task is away from giving its slot back.
  function Distance(w: World, t: TaskId): nat {
    if t !in w.tasks || !w.tasks[t].web then 0
    else
      match w.tasks[t].phase
      case Claimed => 6
      case Locked => 5
      case Opened(_) => 4
      case Running(_) => 3
      case Closing(_, _) => 2
      case Closed(_) => 1
      case Finished(_) => 0
  }

  // A step that takes a run on, as opposed to one more line or write.
  predicate TakesOn(a: Action, t: TaskId) {
    match a
    case TryLock(u, _) => u == t
    case OpenRow(u, _, _, _) => u == t
    case Stamp(u) => u == t
    case Sum(u, _) => u == t
    case CloseRow(u, _, _) => u == t
    case Finish(u, _, _) => u == t
    case _ => false
  }

  // Whatever the database answers, the owner of a slot always has such a step.
  lemma OwnerCanGoOn(w: World, t: TaskId, fails: bool, row: RowId, status: Status, applied: bool, line: string)
    requires Inv(w) && t in w.tasks && OwnsSlot(w.tasks[t]) && FreshRow(w, row) && !status.StillRunning?
    ensures match w.tasks[t].phase
            case Claimed => Enabled(w, TryLock(t, fails))
            case Locked => Enabled(w, OpenRow(t, row, !fails || applied, fails))
            case Opened(_) => Enabled(w, Stamp(t))
            case Running(_) => Enabled(w, Sum(t, line))
            case Closing(_, _) => Enabled(w, CloseRow(t, status, applied))
            case Closed(_) => Enabled(w, Finish(t, line, fails))
            case Finished(_) => true
  {
  }

  // Such a step brings it closer, and no step of anybody takes it back.
  lemma StepsBringCloser(w: World, a: Action, t: TaskId)
    requires Enabled(w, a) && t in w.journal
    ensures Distance(Apply(w, a), t) <= Distance(w, t)
    ensures TakesOn(a, t) && Distance(w, t) > 0 ==> Distance(Apply(w, a), t) < Distance(w, t)
  {
  }

  function OwnSteps(w: World, actions: seq<Action>, t: TaskId): nat {
    if actions == [] then 0
    else
      var n := |actions| - 1;
      var s := RunFrom(w, actions[..n]);
      OwnSteps(w, actions[..n], t) + if Enabled(s, actions[n]) && TakesOn(actions[n], t) && Distance(s, t) > 0 then 1 else 0
  }

  // Between them, others may do what they like: after at most six steps of its
  // own a run has given its slot back.
  lemma {:induction false} OwnersGiveSlotsBack(w: World, actions: seq<Action>, t: TaskId)
    requires Inv(w) && t in w.journal
    ensures Inv(RunFrom(w, actions)) && t in RunFrom(w, actions).journal
    ensures OwnSteps(w, actions, t) + Distance(RunFrom(w, actions), t) <= Distance(w, t) <= 6
    ensures OwnSteps(w, actions, t) >= Distance(w, t) ==>
              var later := RunFrom(w, actions); t !in later.tasks || !OwnsSlot(later.tasks[t])
  {
    if actions != [] {
      var n := |actions| - 1;
      OwnersGiveSlotsBack(w, actions[..n], t);
      var s := RunFrom(w, actions[..n]);
      NextKeepsInv(s, actions[n]);
      if Enabled(s, actions[n]) {
        StepsBringCloser(s, actions[n], t);
        JournalsGrow(s, actions[n]);
      }
    }
  }

  // From then on every start in that process is refused, until it is killed.
  lemma {:induction false} StuckUntilKilled(w: World, actions: seq<Action>, pid: Pid)
    requires Inv(w) && Stuck(w, pid) && Kill(pid) !in actions
    ensures var later := RunFrom(w, actions);
            && Inv(later) && Stuck(later, pid)
            && forall t, trigger, line :: !Enabled(later, Claim(pid, t, trigger, line))
  {
    if actions != [] {
      var n := |actions| - 1;
      assert actions[n] in actions;
      assert forall a | a in actions[..n] :: a in actions;
      StuckUntilKilled(w, actions[..n], pid);
      var s := RunFrom(w, actions[..n]);
      NextKeepsInv(s, actions[n]);
      StuckStays(s, actions[n], pid);
    }
  }

  lemma StuckStays(w: World, a: Action, pid: Pid)
    requires Inv(w) && Stuck(w, pid) && a != Kill(pid)
    ensures Stuck(Next(w, a), pid)
  {
    if Enabled(w, a) {
      var next := Apply(w, a);
      UnownedSlotStays(w, a, pid);
      forall t | t in next.tasks && next.tasks[t].pid == pid ensures !OwnsSlot(next.tasks[t]) {
        assert t in w.tasks && w.tasks[t].pid == pid && !OwnsSlot(w.tasks[t]);
      }
    }
  }

  lemma UnownedSlotStays(w: World, a: Action, pid: Pid)
    requires LockInv(w) && Stuck(w, pid) && a != Kill(pid) && Enabled(w, a)
    ensures pid in Apply(w, a).slots && Apply(w, a).slots[pid] == w.slots[pid]
  {
  }
}
