// What the run protocol keeps in every reachable state.
module RunSafety {
  import opened Base
  import opened RunSlot
  import opened RunProtocol
  import Lines

  predicate Holding(k: Task) {
    !k.phase.Claimed?
  }

  predicate OwnsSlot(k: Task) {
    k.web && !k.phase.Finished?
  }

  function RowOf(p: Phase): Option<RowId> {
    match p
    case Claimed => None
    case Locked => None
    case Opened(row) => Some(row)
    case Running(row) => Some(row)
    case Closing(row, _) => Some(row)
    case Closed(row) => Some(row)
    case Finished(row) => Some(row)
  }

  // The id a task's slot shows.
  function SlotId(p: Phase): RowId {
    match p
    case Running(row) => row
    case Closing(row, _) => row
    case Closed(row) => row
    case _ => NIL
  }

  // What is saved for a run that said `lines`.
  function Saved(web: bool, lines: seq<string>): string {
    if web then Lines.Joined(lines) else ""
  }

  // --------------------------------------------------------------------------
  // The invariant
  // --------------------------------------------------------------------------

  // Whoever is past taking the lock holds it, so no two are.
  ghost predicate LockInv(w: World) {
    && (w.lock.Some? ==> w.lock.value in w.tasks)
    && (forall t | t in w.tasks :: t in w.journal && (Holding(w.tasks[t]) <==> w.lock == Some(t)))
  }

  // The slot of a task that has claimed one is its own, and shows what the
  // task has said and the row it has opened.
  ghost predicate ShowsTask(slot: Slot, p: Phase, said: seq<string>) {
    slot.Some? && !slot.value.finished && slot.value.log == said && slot.value.id == SlotId(p)
  }

  ghost predicate SlotInv(w: World) {
    && (forall t | t in w.tasks && OwnsSlot(w.tasks[t]) ::
          && w.tasks[t].pid in w.slots && t in w.journal
          && ShowsTask(w.slots[w.tasks[t].pid], w.tasks[t].phase, w.journal[t]))
    && (forall t, u | t in w.tasks && u in w.tasks && OwnsSlot(w.tasks[t]) && OwnsSlot(w.tasks[u]) && w.tasks[t].pid == w.tasks[u].pid ::
          t == u)
  }

  ghost predicate Owner(w: World, t: TaskId, pid: Pid, id: RowId) {
    t in w.tasks && OwnsSlot(w.tasks[t]) && w.tasks[t].pid == pid && SlotId(w.tasks[t].phase) == id
  }

  // An unfinished slot with a real run id has a live owner.
  ghost predicate IdInv(w: World) {
    forall pid | pid in w.slots && InFlight(w.slots[pid]) && w.slots[pid].value.id != NIL ::
      exists t :: Owner(w, t, pid, w.slots[pid].value.id)
  }

  // Rows and their owners name each other.
  ghost predicate RowInv(w: World) {
    && (forall t | t in w.tasks && RowOf(w.tasks[t].phase).Some? ::
          var row := RowOf(w.tasks[t].phase).value;
          row != NIL && row in w.rows && w.rows[row].owner == t && w.rows[row].web == w.tasks[t].web)
    && (forall row | row in w.rows ::
          && w.rows[row].owner in w.journal
          && (w.rows[row].owner in w.tasks ==> RowOf(w.tasks[w.rows[row].owner].phase) == Some(row)))
  }

  // Logs: being saved, and saved.
  ghost predicate LogInv(w: World) {
    && (forall t | t in w.tasks && w.tasks[t].phase.Closing? ::
          t in w.journal && w.tasks[t].phase.log == Saved(w.tasks[t].web, w.journal[t]))
    && (forall row | row in w.rows && w.rows[row].log.Some? ::
          var owner := w.rows[row].owner;
          && owner in w.journal && w.rows[row].log.value == Saved(w.rows[row].web, w.journal[owner])
          && (owner in w.tasks ==> w.tasks[owner].phase.Closed? || w.tasks[owner].phase.Finished?))
  }

  // Every stretch of writes between two by one task is that task's.
  ghost predicate Contiguous(writes: seq<TaskId>) {
    forall i, j, k | 0 <= i < j < k < |writes| && writes[i] == writes[k] :: writes[j] == writes[i]
  }

  ghost predicate WriteInv(w: World) {
    && (forall t | t in w.writes :: t in w.journal)
    && Contiguous(w.writes)
    && (forall t | t in w.tasks && t in w.writes :: w.writes[|w.writes| - 1] == t && w.lock == Some(t))
  }

  ghost predicate Inv(w: World) {
    LockInv(w) && SlotInv(w) && IdInv(w) && RowInv(w) && LogInv(w) && WriteInv(w)
  }

  // --------------------------------------------------------------------------
  // Every step keeps it
  // --------------------------------------------------------------------------

  // Processes and tasks coming and going.
  predicate Coming(a: Action) {
    a.Serve? || a.Claim? || a.Command? || a.Kill?
  }

  // Tasks taking or dropping the lock.
  predicate Trying(a: Action) {
    a.TryLock? || a.Release?
  }

  // Tasks opening a row, or giving up on it.
  predicate Opening(a: Action) {
    a.OpenRow? || a.DropRequest?
  }

  // A run taking up its row, or changing the repository.
  predicate Working(a: Action) {
    a.Stamp? || a.Write?
  }

  // A run adding to its log.
  predicate Speaking(a: Action) {
    a.Emit? || a.Sum?
  }

  // A run closing its row and its slot.
  predicate Ending(a: Action) {
    a.CloseRow? || a.Finish?
  }

  lemma ComingKeepsLock(w: World, a: Action)
    requires LockInv(w) && Enabled(w, a) && (Coming(a) || Trying(a))
    ensures LockInv(Apply(w, a))
  {
  }

  lemma WorkingKeepsLock(w: World, a: Action)
    requires LockInv(w) && Enabled(w, a) && !(Coming(a) || Trying(a))
    ensures LockInv(Apply(w, a))
  {
  }

  lemma KeepsLock(w: World, a: Action)
    requires LockInv(w) && Enabled(w, a)
    ensures LockInv(Apply(w, a))
  {
    if Coming(a) || Trying(a) {
      ComingKeepsLock(w, a);
    } else {
      WorkingKeepsLock(w, a);
    }
  }

  lemma ComingKeepsSlot(w: World, a: Action)
    requires LockInv(w) && SlotInv(w) && Enabled(w, a) && Coming(a)
    ensures SlotInv(Apply(w, a))
  {
  }

  lemma TryingKeepsSlot(w: World, a: Action)
    requires LockInv(w) && SlotInv(w) && Enabled(w, a) && Trying(a)
    ensures SlotInv(Apply(w, a))
  {
  }

  lemma OpeningKeepsSlot(w: World, a: Action)
    requires LockInv(w) && SlotInv(w) && Enabled(w, a) && Opening(a)
    ensures SlotInv(Apply(w, a))
  {
  }

  lemma WorkingKeepsSlot(w: World, a: Action)
    requires LockInv(w) && SlotInv(w) && Enabled(w, a) && Working(a)
    ensures SlotInv(Apply(w, a))
  {
  }

  lemma EndingKeepsSlot(w: World, a: Action)
    requires LockInv(w) && SlotInv(w) && Enabled(w, a) && Ending(a)
    ensures SlotInv(Apply(w, a))
  {
  }

  lemma SpeakingKeepsSlot(w: World, a: Action)
    requires LockInv(w) && SlotInv(w) && Enabled(w, a) && Speaking(a)
    ensures SlotInv(Apply(w, a))
  {
  }

  lemma KeepsSlot(w: World, a: Action)
    requires LockInv(w) && SlotInv(w) && Enabled(w, a)
    ensures SlotInv(Apply(w, a))
  {
    if Coming(a) {
      ComingKeepsSlot(w, a);
    } else if Trying(a) {
      TryingKeepsSlot(w, a);
    } else if Opening(a) {
      OpeningKeepsSlot(w, a);
    } else if Working(a) {
      WorkingKeepsSlot(w, a);
    } else if Speaking(a) {
      SpeakingKeepsSlot(w, a);
    } else {
      EndingKeepsSlot(w, a);
    }
  }

  // The owner of an unfinished slot with an id stays its owner, until the slot
  // is finished or gone.
  lemma IdOwnerStays(w: World, a: Action, t: TaskId, pid: Pid)
    requires LockInv(w) && SlotInv(w) && Enabled(w, a)
    requires pid in w.slots && InFlight(w.slots[pid]) && w.slots[pid].value.id != NIL && Owner(w, t, pid, w.slots[pid].value.id)
    ensures var next := Apply(w, a);
            pid in next.slots && InFlight(next.slots[pid]) ==> Owner(next, t, pid, next.slots[pid].value.id)
  {
  }

  // A slot shows an id that it did not show before only once it is stamped.
  lemma IdsComeFromStamps(w: World, a: Action, pid: Pid)
    requires LockInv(w) && SlotInv(w) && Enabled(w, a)
    requires var next := Apply(w, a); pid in next.slots && InFlight(next.slots[pid]) && next.slots[pid].value.id != NIL
    ensures (a.Stamp? && w.tasks[a.task].web && w.tasks[a.task].pid == pid) ||
            (pid in w.slots && InFlight(w.slots[pid]) && w.slots[pid].value.id == Apply(w, a).slots[pid].value.id)
  {
  }

  lemma KeepsId(w: World, a: Action)
    requires LockInv(w) && SlotInv(w) && IdInv(w) && Enabled(w, a)
    ensures IdInv(Apply(w, a))
  {
    var next := Apply(w, a);
    forall pid | pid in next.slots && InFlight(next.slots[pid]) && next.slots[pid].value.id != NIL
      ensures exists t :: Owner(next, t, pid, next.slots[pid].value.id)
    {
      IdsComeFromStamps(w, a, pid);
      if a.Stamp? && w.tasks[a.task].web && w.tasks[a.task].pid == pid {
        assert Owner(next, a.task, pid, next.slots[pid].value.id);
      } else {
        var t :| Owner(w, t, pid, w.slots[pid].value.id);
        IdOwnerStays(w, a, t, pid);
      }
    }
  }

  lemma ComingKeepsRow(w: World, a: Action)
    requires LockInv(w) && RowInv(w) && Enabled(w, a) && Coming(a)
    ensures RowInv(Apply(w, a))
  {
  }

  lemma TryingKeepsRow(w: World, a: Action)
    requires LockInv(w) && RowInv(w) && Enabled(w, a) && Trying(a)
    ensures RowInv(Apply(w, a))
  {
  }

  lemma OpenRowKeepsRow(w: World, a: Action)
    requires LockInv(w) && RowInv(w) && Enabled(w, a) && a.OpenRow?
    ensures RowInv(Apply(w, a))
  {
  }

  lemma DropKeepsRow(w: World, a: Action)
    requires LockInv(w) && RowInv(w) && Enabled(w, a) && a.DropRequest?
    ensures RowInv(Apply(w, a))
  {
  }

  lemma WorkingKeepsRow(w: World, a: Action)
    requires LockInv(w) && RowInv(w) && Enabled(w, a) && Working(a)
    ensures RowInv(Apply(w, a))
  {
  }

  lemma ClosingKeepsRow(w: World, a: Action)
    requires LockInv(w) && RowInv(w) && Enabled(w, a) && a.CloseRow?
    ensures RowInv(Apply(w, a))
  {
  }

  lemma FinishingKeepsRow(w: World, a: Action)
    requires LockInv(w) && RowInv(w) && Enabled(w, a) && a.Finish?
    ensures RowInv(Apply(w, a))
  {
  }

  lemma SpeakingKeepsRow(w: World, a: Action)
    requires LockInv(w) && RowInv(w) && Enabled(w, a) && Speaking(a)
    ensures RowInv(Apply(w, a))
  {
  }

  lemma KeepsRow(w: World, a: Action)
    requires LockInv(w) && RowInv(w) && Enabled(w, a)
    ensures RowInv(Apply(w, a))
  {
    if Coming(a) {
      ComingKeepsRow(w, a);
    } else if Trying(a) {
      TryingKeepsRow(w, a);
    } else if a.OpenRow? {
      OpenRowKeepsRow(w, a);
    } else if a.DropRequest? {
      DropKeepsRow(w, a);
    } else if Working(a) {
      WorkingKeepsRow(w, a);
    } else if Speaking(a) {
      SpeakingKeepsRow(w, a);
    } else if a.CloseRow? {
      ClosingKeepsRow(w, a);
    } else {
      FinishingKeepsRow(w, a);
    }
  }

  lemma ComingKeepsLog(w: World, a: Action)
    requires LockInv(w) && SlotInv(w) && RowInv(w) && LogInv(w) && Enabled(w, a) && Coming(a)
    ensures LogInv(Apply(w, a))
  {
  }

  lemma TryingKeepsLog(w: World, a: Action)
    requires LockInv(w) && SlotInv(w) && RowInv(w) && LogInv(w) && Enabled(w, a) && Trying(a)
    ensures LogInv(Apply(w, a))
  {
  }

  lemma OpenRowKeepsLog(w: World, a: Action)
    requires LockInv(w) && SlotInv(w) && RowInv(w) && LogInv(w) && Enabled(w, a) && a.OpenRow?
    ensures LogInv(Apply(w, a))
  {
  }

  lemma DropKeepsLog(w: World, a: Action)
    requires LockInv(w) && SlotInv(w) && RowInv(w) && LogInv(w) && Enabled(w, a) && a.DropRequest?
    ensures LogInv(Apply(w, a))
  {
  }

  lemma WorkingKeepsLog(w: World, a: Action)
    requires LockInv(w) && SlotInv(w) && RowInv(w) && LogInv(w) && Enabled(w, a) && Working(a)
    ensures LogInv(Apply(w, a))
  {
  }

  lemma ClosingKeepsLog(w: World, a: Action)
    requires LockInv(w) && SlotInv(w) && RowInv(w) && LogInv(w) && Enabled(w, a) && a.CloseRow?
    ensures LogInv(Apply(w, a))
  {
  }

  lemma FinishingKeepsLog(w: World, a: Action)
    requires LockInv(w) && SlotInv(w) && RowInv(w) && LogInv(w) && Enabled(w, a) && a.Finish?
    ensures LogInv(Apply(w, a))
  {
  }

  lemma SpeakingKeepsLog(w: World, a: Action)
    requires LockInv(w) && SlotInv(w) && RowInv(w) && LogInv(w) && Enabled(w, a) && Speaking(a)
    ensures LogInv(Apply(w, a))
  {
  }

  lemma KeepsLog(w: World, a: Action)
    requires LockInv(w) && SlotInv(w) && RowInv(w) && LogInv(w) && Enabled(w, a)
    ensures LogInv(Apply(w, a))
  {
    if Coming(a) {
      ComingKeepsLog(w, a);
    } else if Trying(a) {
      TryingKeepsLog(w, a);
    } else if a.OpenRow? {
      OpenRowKeepsLog(w, a);
    } else if a.DropRequest? {
      DropKeepsLog(w, a);
    } else if Working(a) {
      WorkingKeepsLog(w, a);
    } else if Speaking(a) {
      SpeakingKeepsLog(w, a);
    } else if a.CloseRow? {
      ClosingKeepsLog(w, a);
    } else {
      FinishingKeepsLog(w, a);
    }
  }

  lemma WriteKeepsWrites(w: World, t: TaskId)
    requires LockInv(w) && WriteInv(w) && Enabled(w, Write(t))
    ensures WriteInv(Apply(w, Write(t)))
  {
  }

  lemma OthersWriteNothing(w: World, a: Action)
    requires Enabled(w, a) && !a.Write?
    ensures Apply(w, a).writes == w.writes
  {
  }

  lemma JournalsGrow(w: World, a: Action)
    requires Enabled(w, a)
    ensures forall t | t in w.journal :: t in Apply(w, a).journal
  {
  }

  lemma TasksAreNew(w: World, a: Action)
    requires LockInv(w) && Enabled(w, a)
    ensures forall t | t in Apply(w, a).tasks && t in w.journal :: t in w.tasks
  {
  }

  lemma LockStays(w: World, a: Action, t: TaskId)
    requires LockInv(w) && Enabled(w, a) && w.lock == Some(t) && t in Apply(w, a).tasks
    ensures Apply(w, a).lock == Some(t)
  {
  }

  lemma KeepsWrites(w: World, a: Action)
    requires LockInv(w) && WriteInv(w) && Enabled(w, a)
    ensures WriteInv(Apply(w, a))
  {
    if a.Write? {
      WriteKeepsWrites(w, a.task);
    } else {
      OthersWriteNothing(w, a);
      JournalsGrow(w, a);
      TasksAreNew(w, a);
      KeepsLock(w, a);
      forall t | t in Apply(w, a).tasks && w.lock == Some(t) ensures Apply(w, a).lock == Some(t) {
        LockStays(w, a, t);
      }
      StillLast(w, Apply(w, a));
    }
  }

  lemma StillLast(w: World, next: World)
    requires LockInv(w) && WriteInv(w) && LockInv(next) && next.writes == w.writes
    requires forall t | t in w.journal :: t in next.journal
    requires forall t | t in next.tasks && t in w.journal :: t in w.tasks && (w.lock == Some(t) ==> next.lock == Some(t))
    ensures WriteInv(next)
  {
  }

  lemma NextKeepsInv(w: World, a: Action)
    requires Inv(w)
    ensures Inv(Next(w, a))
  {
    if Enabled(w, a) {
      KeepsLock(w, a);
      KeepsSlot(w, a);
      KeepsId(w, a);
      KeepsRow(w, a);
      KeepsLog(w, a);
      KeepsWrites(w, a);
    }
  }
}
