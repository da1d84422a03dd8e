// The one in-memory slot of a serving process: src/web/runner.rs.
module RunSlot {
  import opened Base
  import Lines

  type RowId = nat

  // Uuid::nil(): the run has no row yet.
  const NIL: RowId := 0

  datatype Live = Live(id: RowId, trigger: string, log: seq<string>, finished: bool, failed: bool, summary: Option<string>)

  type Slot = Option<Live>

  // --------------------------------------------------------------------------
  // What each operation does to the slot
  // --------------------------------------------------------------------------

  predicate InFlight(slot: Slot) {
    slot.Some? && !slot.value.finished
  }

  function Fresh(trigger: string, line: string): Slot {
    Some(Live(NIL, trigger, [line], false, false, None))
  }

  function Stamped(slot: Slot, id: RowId): Slot {
    if slot.None? then None else Some(slot.value.(id := id))
  }

  function Pushed(slot: Slot, line: string): Slot {
    if slot.None? then None else Some(slot.value.(log := slot.value.log + [line]))
  }

  function PushedAll(slot: Slot, lines: seq<string>): Slot {
    if lines == [] then slot
    else
      var n := |lines| - 1;
      Pushed(PushedAll(slot, lines[..n]), lines[n])
  }

  function LogText(slot: Slot): string {
    if slot.None? then "" else Lines.Joined(slot.value.log)
  }

  function Done(slot: Slot, text: string, failed: bool): Slot {
    if slot.None? then None else Some(slot.value.(finished := true, failed := failed, summary := Some(text)))
  }

  // --------------------------------------------------------------------------
  // Starting and executing
  // --------------------------------------------------------------------------

  datatype LockAnswer = Acquired | HeldElsewhere | LockFailed(error: string)

  datatype StartError = InProgress | BusyElsewhere | Database(error: string)

  class RunManager {
    var current: Slot

    constructor ()
      ensures current == None
    {
      current := None;
    }

    method IsRunning() returns (running: bool)
      ensures running <==> InFlight(current)
    {
      if current.None? {
        return false;
      }
      return !current.value.finished;
    }

    // The live view of one run, if this process is tracking it.
    method Snapshot(id: RowId) returns (live: Option<Live>)
      ensures live.Some? <==> current.Some? && current.value.id == id
      ensures live.Some? ==> live == current
    {
      if current.Some? && current.value.id == id {
        return current;
      }
      return None;
    }

    method PushLine(line: string)
      modifies this
      ensures current == Pushed(old(current), line)
    {
      if current.Some? {
        current := Some(current.value.(log := current.value.log + [line]));
      }
    }

    method Text() returns (text: string)
      ensures text == LogText(current)
    {
      if current.None? {
        return "";
      }
      text := Lines.Joined(current.value.log);
    }

    method Finish(text: string, failed: bool)
      modifies this
      ensures current == Done(old(current), text, failed)
      ensures current.Some? ==> current.value.finished && (current.value.failed <==> failed) && current.value.summary == Some(text)
      ensures current.Some? ==> old(current).Some? && current.value.log == old(current).value.log && current.value.id == old(current).value.id
    {
      if current.Some? {
        current := Some(current.value.(finished := true, failed := failed, summary := Some(text)));
      }
    }

    // `lock` and `row` are what the database answers, were it asked. A refused
    // start touches nothing; any later failure gives the slot back.
    method Start(trigger: string, line: string, lock: LockAnswer, row: Result<RowId, string>)
      returns (r: Result<RowId, StartError>)
      modifies this
      ensures r.Ok? <==> !InFlight(old(current)) && lock.Acquired? && row.Ok?
      ensures r == Err(InProgress) <==> InFlight(old(current))
      ensures r == Err(InProgress) ==> current == old(current)
      ensures r.Err? && r != Err(InProgress) ==> current == None
      ensures r == Err(BusyElsewhere) <==> !InFlight(old(current)) && lock.HeldElsewhere?
      ensures r.Ok? ==> r.value == row.value && current == Stamped(Fresh(trigger, line), row.value)
      ensures r.Ok? ==> current == Some(Live(row.value, trigger, [line], false, false, None))
      ensures !InFlight(old(current)) && lock.LockFailed? ==> r == Err(Database(lock.error))
      ensures !InFlight(old(current)) && lock.Acquired? && row.Err? ==> r == Err(Database(row.error))
    {
      if current.Some? && !current.value.finished {
        return Err(InProgress);
      }
      current := Fresh(trigger, line);
      match lock {
        case HeldElsewhere =>
          current := None;
          return Err(BusyElsewhere);
        case LockFailed(error) =>
          current := None;
          return Err(Database(error));
        case Acquired =>
      }
      if row.Err? {
        current := None;
        return Err(Database(row.error));
      }
      if current.Some? {
        current := Some(current.value.(id := row.value));
      }
      return Ok(row.value);
    }

    // The run itself, as the slot sees it: the lines the pipeline reports, the
    // closing line, the log handed to the database, and the end of the run.
    method Execute(lines: seq<string>, closing: string, text: string, failed: bool) returns (saved: string)
      modifies this
      ensures var full := Pushed(PushedAll(old(current), lines), closing);
              saved == LogText(full) && current == Done(full, text, failed)
      ensures current.Some? <==> old(current).Some?
      ensures current.Some? ==> current.value.finished && (current.value.failed <==> failed) && current.value.summary == Some(text)
      ensures current.Some? ==> current.value.log == old(current).value.log + lines + [closing] && current.value.id == old(current).value.id
    {
      for k := 0 to |lines|
        invariant current == PushedAll(old(current), lines[..k])
      {
        assert lines[..k + 1][..k] == lines[..k];
        PushLine(lines[k]);
      }
      assert lines[..|lines|] == lines;
      PushLine(closing);
      saved := Text();
      Finish(text, failed);
      PushedAllAppends(old(current), lines);
    }
  }

  lemma {:induction false} PushedAllAppends(slot: Slot, lines: seq<string>)
    ensures PushedAll(slot, lines) == if slot.None? then None else Some(slot.value.(log := slot.value.log + lines))
  {
    if lines == [] {
      assert slot.Some? ==> slot.value.log + lines == slot.value.log;
    } else {
      var n := |lines| - 1;
      PushedAllAppends(slot, lines[..n]);
      assert slot.Some? ==> slot.value.log + lines[..n] + [lines[n]] == slot.value.log + lines;
    }
  }

  // What is saved for a run nobody else writes to: the opening line, then the
  // run's own lines, then the closing one, and nothing else.
  lemma SoloRunSavesItsOwnLog(trigger: string, opening: string, id: RowId, lines: seq<string>, closing: string)
    ensures LogText(Pushed(PushedAll(Stamped(Fresh(trigger, opening), id), lines), closing)) ==
            Lines.Joined([opening] + lines + [closing])
  {
    PushedAllAppends(Stamped(Fresh(trigger, opening), id), lines);
  }
}
