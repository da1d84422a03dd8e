// One backup run at a time, across processes: serving processes with their
// in-memory slot (src/web/runner.rs), command-line runs (src/main.rs), and the
// advisory lock and run rows they share (src/db/mod.rs). Every step that can
// interleave with another process, or with another task of the same process,
// is a step here; so are kills, restarts and dropped requests.
module RunProtocol {
  import opened Base
  import opened RunSlot

  type Pid = nat
  type TaskId = nat

  // How far one attempt at a run has come. It holds the lock after Claimed.
  datatype Phase =
    | Claimed
    | Locked
    | Opened(row: RowId)
    | Running(row: RowId)
    | Closing(row: RowId, log: string)
    | Closed(row: RowId)
    | Finished(row: RowId)

  datatype Task = Task(pid: Pid, web: bool, phase: Phase)

  datatype Status = StillRunning | Completed | Failed

  // `owner` and `web` record who inserted the row.
  datatype Row = Row(owner: TaskId, web: bool, status: Status, log: Option<string>)

  // `slots` has an entry per living serving process. `journal` records what
  // each task itself had to say, and `writes` who changed the repository.
  datatype World = World(
    lock: Option<TaskId>, slots: map<Pid, Slot>, tasks: map<TaskId, Task>, rows: map<RowId, Row>,
    journal: map<TaskId, seq<string>>, writes: seq<TaskId>)

  const EMPTY := World(None, map[], map[], map[], map[], [])

  datatype Action =
    | Serve(pid: Pid)
    | Claim(pid: Pid, task: TaskId, trigger: string, line: string)
    | Command(pid: Pid, task: TaskId)
    | TryLock(task: TaskId, fails: bool)
    | OpenRow(task: TaskId, row: RowId, inserted: bool, fails: bool)
    | Stamp(task: TaskId)
    | Emit(task: TaskId, line: string)
    | Write(task: TaskId)
    | Sum(task: TaskId, line: string)
    | CloseRow(task: TaskId, status: Status, applied: bool)
    | Finish(task: TaskId, text: string, failed: bool)
    | Release(task: TaskId)
    | DropRequest(task: TaskId, row: RowId, inserted: bool)
    | Kill(pid: Pid)

  // --------------------------------------------------------------------------
  // Steps
  // --------------------------------------------------------------------------

  function SlotOf(w: World, pid: Pid): Slot {
    if pid in w.slots then w.slots[pid] else None
  }

  function SetSlot(w: World, pid: Pid, slot: Slot): World {
    if pid in w.slots then w.(slots := w.slots[pid := slot]) else w
  }

  function SetPhase(w: World, t: TaskId, phase: Phase): World
    requires t in w.tasks
  {
    w.(tasks := w.tasks[t := w.tasks[t].(phase := phase)])
  }

  // The task is gone, and with it its connection and any lock that held.
  function Without(w: World, t: TaskId): World {
    w.(tasks := w.tasks - {t}, lock := if w.lock == Some(t) then None else w.lock)
  }

  // A task that gives up; a serving process frees its slot.
  function GiveUp(w: World, t: TaskId): World
    requires t in w.tasks
  {
    var k := w.tasks[t];
    if k.web then SetSlot(Without(w, t), k.pid, None) else Without(w, t)
  }

  function Insert(w: World, t: TaskId, row: RowId, inserted: bool): World
    requires t in w.tasks
  {
    if inserted then w.(rows := w.rows[row := Row(t, w.tasks[t].web, StillRunning, None)]) else w
  }

  function Interrupted(row: Row): Row {
    if row.status.StillRunning? then row.(status := Failed) else row
  }

  function Recovered(rows: map<RowId, Row>): map<RowId, Row> {
    map r | r in rows :: Interrupted(rows[r])
  }

  // Everything a process held or was doing ends with it.
  function Killed(w: World, pid: Pid): World {
    w.(slots := w.slots - {pid},
       tasks := map t | t in w.tasks && w.tasks[t].pid != pid :: w.tasks[t],
       lock := if w.lock.Some? && w.lock.value in w.tasks && w.tasks[w.lock.value].pid == pid then None else w.lock)
  }

  function Said(w: World, t: TaskId, line: string): World
    requires t in w.tasks && t in w.journal
  {
    var k := w.tasks[t];
    var heard := w.(journal := w.journal[t := w.journal[t] + [line]]);
    if k.web then SetSlot(heard, k.pid, Pushed(SlotOf(w, k.pid), line)) else heard
  }

  predicate FreshRow(w: World, row: RowId) {
    row != NIL && row !in w.rows
  }

  predicate Alive(w: World, t: TaskId) {
    t in w.tasks && t in w.journal
  }

  // When the code can take the step.
  predicate Enabled(w: World, a: Action) {
    match a
    case Serve(pid) => pid !in w.slots
    case Claim(pid, t, _, _) => pid in w.slots && t !in w.journal && !InFlight(w.slots[pid])
    case Command(pid, t) => pid !in w.slots && t !in w.journal
    case TryLock(t, _) => Alive(w, t) && w.tasks[t].phase.Claimed?
    case OpenRow(t, row, inserted, fails) => Alive(w, t) && w.tasks[t].phase.Locked? && FreshRow(w, row) && (inserted || fails)
    case Stamp(t) => Alive(w, t) && w.tasks[t].phase.Opened?
    case Emit(t, _) => Alive(w, t) && w.tasks[t].phase.Running?
    case Write(t) => Alive(w, t) && w.tasks[t].phase.Running?
    case Sum(t, _) => Alive(w, t) && w.tasks[t].phase.Running?
    case CloseRow(t, status, _) => Alive(w, t) && w.tasks[t].phase.Closing? && status != StillRunning
    case Finish(t, _, _) => Alive(w, t) && w.tasks[t].phase.Closed? && w.tasks[t].web
    case Release(t) => Alive(w, t) && if w.tasks[t].web then w.tasks[t].phase.Finished? else w.tasks[t].phase.Closed?
    case DropRequest(t, row, inserted) =>
      && Alive(w, t) && w.tasks[t].web
      && (w.tasks[t].phase.Claimed? || w.tasks[t].phase.Locked?)
      && (inserted ==> w.tasks[t].phase.Locked? && FreshRow(w, row))
    case Kill(_) => true
  }

  function Apply(w: World, a: Action): World
    requires Enabled(w, a)
  {
    match a
    case Serve(pid) => w.(slots := w.slots[pid := None], rows := Recovered(w.rows))
    case Claim(pid, t, trigger, line) =>
      SetSlot(w.(tasks := w.tasks[t := Task(pid, true, Claimed)], journal := w.journal[t := [line]]), pid, Fresh(trigger, line))
    case Command(pid, t) =>
      w.(tasks := w.tasks[t := Task(pid, false, Claimed)], journal := w.journal[t := []])
    case TryLock(t, fails) =>
      if w.lock.None? && !fails then SetPhase(w, t, Locked).(lock := Some(t)) else GiveUp(w, t)
    case OpenRow(t, row, inserted, fails) =>
      var recorded := Insert(w, t, row, inserted);
      if fails then GiveUp(recorded, t) else SetPhase(recorded, t, Opened(row))
    case Stamp(t) =>
      var k := w.tasks[t];
      var next := SetPhase(w, t, Running(k.phase.row));
      if k.web then SetSlot(next, k.pid, Stamped(SlotOf(w, k.pid), k.phase.row)) else next
    case Emit(t, line) => Said(w, t, line)
    case Write(t) => w.(writes := w.writes + [t])
    case Sum(t, line) =>
      var k, said := w.tasks[t], Said(w, t, line);
      SetPhase(said, t, Closing(k.phase.row, if k.web then LogText(SlotOf(said, k.pid)) else ""))
    case CloseRow(t, status, applied) =>
      var p := w.tasks[t].phase;
      var next := SetPhase(w, t, Closed(p.row));
      if applied && p.row in w.rows
      then next.(rows := w.rows[p.row := w.rows[p.row].(status := status, log := Some(p.log))]) else next
    case Finish(t, text, failed) =>
      var k := w.tasks[t];
      SetSlot(SetPhase(w, t, Finished(k.phase.row)), k.pid, Done(SlotOf(w, k.pid), text, failed))
    case Release(t) => Without(w, t)
    case DropRequest(t, row, inserted) => Without(Insert(w, t, row, inserted), t)
    case Kill(pid) => Killed(w, pid)
  }

  // Actions that cannot happen now change nothing.
  function Next(w: World, a: Action): World {
    if Enabled(w, a) then Apply(w, a) else w
  }

  function RunFrom(w: World, actions: seq<Action>): World {
    if actions == [] then w
    else
      var n := |actions| - 1;
      Next(RunFrom(w, actions[..n]), actions[n])
  }
}
