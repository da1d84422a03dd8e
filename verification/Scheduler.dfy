// Daily scheduled backups: the tick loop of src/web/mod.rs and the question it
// asks the database. Clocks are UTC, in microseconds.
module Scheduler {
  import opened Base

  const MINUTE := 60_000_000
  const HOUR := 60 * MINUTE
  const DAY := 24 * HOUR
  const QUIET := 5 * MINUTE

  datatype Schedule = Schedule(hour: int, minute: int)

  // One wake-up: when the clock is read, whether the schedule is enabled and a
  // run already going, and when the start it asks for opens its row, if it does.
  datatype Tick = Tick(now: int, enabled: bool, busy: bool, opens: Option<int>)

  function Day(t: int): int { t / DAY }
  function HourOf(t: int): int { t / HOUR % 24 }
  function MinuteOf(t: int): int { t / MINUTE % 60 }

  // Start times of the scheduled runs recorded so far.
  predicate StartedSince(rows: seq<int>, since: int) {
    exists s | s in rows :: s >= since
  }

  predicate Fires(s: Schedule, rows: seq<int>, t: Tick) {
    && t.enabled
    && HourOf(t.now) == s.hour && MinuteOf(t.now) == s.minute
    && !StartedSince(rows, t.now - QUIET)
    && !t.busy
  }

  // The ticks that opened a run, in order. Nothing else is remembered between
  // ticks, so a restart of the serving process is a gap and no more.
  function Fired(s: Schedule, rows: seq<int>, ticks: seq<Tick>): (fired: seq<Tick>)
    ensures forall t | t in fired :: t.opens.Some? && t in ticks
  {
    if ticks == [] then []
    else
      var n := |ticks| - 1;
      var before := Fired(s, rows, ticks[..n]);
      assert forall t | t in ticks[..n] :: t in ticks;
      if Fires(s, rows + Openings(before), ticks[n]) && ticks[n].opens.Some? then before + [ticks[n]] else before
  }

  function Openings(fired: seq<Tick>): (times: seq<int>)
    requires forall t | t in fired :: t.opens.Some?
    ensures |times| == |fired| && forall i | 0 <= i < |fired| :: times[i] == fired[i].opens.value
  {
    seq(|fired|, i requires 0 <= i < |fired| => fired[i].opens.value)
  }

  class Database {
    var rows: seq<int>

    method SchedulerTick(s: Schedule, t: Tick) returns (started: bool)
      modifies this
      ensures started <==> Fires(s, old(rows), t) && t.opens.Some?
      ensures rows == if started then old(rows) + [t.opens.value] else old(rows)
    {
      if !t.enabled {
        return false;
      }
      if HourOf(t.now) != s.hour || MinuteOf(t.now) != s.minute {
        return false;
      }
      if StartedSince(rows, t.now - QUIET) {
        return false;
      }
      if t.busy {
        return false;
      }
      if t.opens.None? {
        return false;
      }
      rows := rows + [t.opens.value];
      return true;
    }

    method Loop(s: Schedule, ticks: seq<Tick>)
      modifies this
      ensures rows == old(rows) + Openings(Fired(s, old(rows), ticks))
    {
      ghost var start := rows;
      FiredNone(s, start, ticks);
      for i := 0 to |ticks|
        invariant rows == start + Openings(Fired(s, start, ticks[..i]))
      {
        FiredStep(s, start, ticks, i);
        var started := SchedulerTick(s, ticks[i]);
      }
      assert ticks[..|ticks|] == ticks;
    }
  }

  lemma FiredNone(s: Schedule, rows: seq<int>, ticks: seq<Tick>)
    ensures rows + Openings(Fired(s, rows, ticks[..0])) == rows
  {
    assert Fired(s, rows, ticks[..0]) == [];
  }

  // What one more tick adds to the record.
  lemma FiredStep(s: Schedule, rows: seq<int>, ticks: seq<Tick>, i: nat)
    requires i < |ticks|
    ensures var known := rows + Openings(Fired(s, rows, ticks[..i]));
            rows + Openings(Fired(s, rows, ticks[..i + 1])) ==
            if Fires(s, known, ticks[i]) && ticks[i].opens.Some? then known + [ticks[i].opens.value] else known
  {
    assert ticks[..i + 1][..i] == ticks[..i];
    var before := Fired(s, rows, ticks[..i]);
    if Fires(s, rows + Openings(before), ticks[i]) && ticks[i].opens.Some? {
      OpeningsSnoc(before, ticks[i]);
    }
  }

  lemma OpeningsSnoc(fired: seq<Tick>, t: Tick)
    requires t.opens.Some? && forall f | f in fired :: f.opens.Some?
    ensures Openings(fired + [t]) == Openings(fired) + [t.opens.value]
  {
  }

  // --------------------------------------------------------------------------
  // Never twice
  // --------------------------------------------------------------------------

  // The clock never runs backwards, and a row is opened after the clock was read.
  ghost predicate Forward(ticks: seq<Tick>) {
    && (forall i, j | 0 <= i < j < |ticks| :: ticks[i].now <= ticks[j].now)
    && (forall t | t in ticks && t.opens.Some? :: t.opens.value >= t.now)
  }

  ghost predicate Spaced(s: Schedule, rows: seq<int>, fired: seq<Tick>) {
    forall j | 0 <= j < |fired| ::
      && fired[j].opens.Some? && fired[j].opens.value >= fired[j].now
      && HourOf(fired[j].now) == s.hour && MinuteOf(fired[j].now) == s.minute
      && (forall r | r in rows :: fired[j].now - r > QUIET)
      && (forall i | 0 <= i < j :: fired[i].opens.Some? && fired[j].now - fired[i].opens.value > QUIET)
  }

  lemma {:induction false} FiredAreSpaced(s: Schedule, rows: seq<int>, ticks: seq<Tick>)
    requires forall t | t in ticks && t.opens.Some? :: t.opens.value >= t.now
    ensures Spaced(s, rows, Fired(s, rows, ticks))
  {
    if ticks != [] {
      var n := |ticks| - 1;
      assert forall t | t in ticks[..n] :: t in ticks;
      assert ticks[n] in ticks;
      FiredAreSpaced(s, rows, ticks[..n]);
      SpacedStep(s, rows, Fired(s, rows, ticks[..n]), ticks[n]);
    }
  }

  lemma SpacedStep(s: Schedule, rows: seq<int>, before: seq<Tick>, t: Tick)
    requires Spaced(s, rows, before) && forall b | b in before :: b.opens.Some?
    requires t.opens.Some? ==> t.opens.value >= t.now
    ensures Fires(s, rows + Openings(before), t) && t.opens.Some? ==> Spaced(s, rows, before + [t])
  {
    if Fires(s, rows + Openings(before), t) && t.opens.Some? {
      var all := rows + Openings(before);
      forall r | r in rows ensures t.now - r > QUIET {
        assert r in all;
      }
      forall i | 0 <= i < |before| ensures t.now - before[i].opens.value > QUIET {
        assert all[|rows| + i] == before[i].opens.value;
        assert before[i].opens.value in all;
      }
    }
  }

  // Scheduled runs start more than five minutes apart, from each other and
  // from any on record.
  lemma StartsAreApart(s: Schedule, rows: seq<int>, ticks: seq<Tick>, i: nat, j: nat)
    requires Forward(ticks)
    requires i < j < |Fired(s, rows, ticks)|
    ensures var fired := Fired(s, rows, ticks);
            && fired[j].opens.value - fired[i].opens.value > 5 * 60 * 1_000_000
            && forall r | r in rows :: fired[i].opens.value - r > 5 * 60 * 1_000_000
  {
    FiredAreSpaced(s, rows, ticks);
    var fired := Fired(s, rows, ticks);
    assert fired[i] in fired && fired[j] in fired;
  }

  function MinuteStart(s: Schedule, day: int): int {
    day * DAY + s.hour * HOUR + s.minute * MINUTE
  }

  // The hour and minute test is a test for one particular minute of the day.
  lemma InScheduledMinute(s: Schedule, t: int)
    requires 0 <= s.hour < 24 && 0 <= s.minute < 60
    ensures HourOf(t) == s.hour && MinuteOf(t) == s.minute <==>
            MinuteStart(s, Day(t)) <= t < MinuteStart(s, Day(t)) + MINUTE
  {
    var m := t / MINUTE;
    assert t / HOUR == m / 60 && t / DAY == m / 1440;
    assert m == 1440 * (m / 1440) + 60 * (m / 60 % 24) + m % 60;
    assert t == MINUTE * m + t % MINUTE;
  }

  // At most one scheduled run is decided on per UTC day.
  lemma OncePerDay(s: Schedule, rows: seq<int>, ticks: seq<Tick>, i: nat, j: nat)
    requires 0 <= s.hour < 24 && 0 <= s.minute < 60 && Forward(ticks)
    requires i < j < |Fired(s, rows, ticks)|
    ensures var fired := Fired(s, rows, ticks); Day(fired[i].now) < Day(fired[j].now)
  {
    FiredAreSpaced(s, rows, ticks);
    var fired := Fired(s, rows, ticks);
    assert fired[i] in fired;
    DifferentDays(s, fired[i].now, fired[j].now);
  }

  lemma DifferentDays(s: Schedule, a: int, b: int)
    requires 0 <= s.hour < 24 && 0 <= s.minute < 60 && b - a > QUIET
    requires HourOf(a) == HourOf(b) == s.hour && MinuteOf(a) == MinuteOf(b) == s.minute
    ensures Day(a) < Day(b)
  {
    InScheduledMinute(s, a);
    InScheduledMinute(s, b);
  }

  lemma DaysInOrder(a: int, b: int)
    requires a <= b
    ensures Day(a) <= Day(b)
  {
  }

  // Every row is opened within `delay` of the look at the clock.
  ghost predicate Prompt(ticks: seq<Tick>, delay: nat) {
    forall t | t in ticks && t.opens.Some? :: t.opens.value <= t.now + delay
  }

  ghost predicate OneADay(fired: seq<Tick>) {
    forall i, j | 0 <= i < j < |fired| ::
      fired[i].opens.Some? && fired[j].opens.Some? && Day(fired[i].opens.value) != Day(fired[j].opens.value)
  }

  // How far into the day the scheduled minute begins.
  function Offset(s: Schedule): int {
    s.hour * HOUR + s.minute * MINUTE
  }

  // Nothing started in the scheduled minute can slip past midnight, or nothing
  // that did leaves room for that day's own start.
  ghost predicate DaysStayApart(s: Schedule, delay: nat) {
    Offset(s) < QUIET || Offset(s) + MINUTE + delay <= DAY
  }

  // Over all ticks and all earlier rows, at most one scheduled run opens per
  // UTC day exactly for schedules that this bound on the delay leaves room for.
  lemma AtMostOnePerDay(s: Schedule, delay: nat)
    requires 0 <= s.hour < 24 && 0 <= s.minute < 60
    ensures (forall rows: seq<int>, ticks: seq<Tick> | Forward(ticks) && Prompt(ticks, delay) :: OneADay(Fired(s, rows, ticks))) <==>
            DaysStayApart(s, delay)
  {
    if DaysStayApart(s, delay) {
      forall rows: seq<int>, ticks: seq<Tick> | Forward(ticks) && Prompt(ticks, delay) ensures OneADay(Fired(s, rows, ticks)) {
        var fired := Fired(s, rows, ticks);
        forall i, j | 0 <= i < j < |fired|
          ensures fired[i].opens.Some? && fired[j].opens.Some? && Day(fired[i].opens.value) != Day(fired[j].opens.value)
        {
          assert fired[i] in fired && fired[j] in fired;
          OpensOnOwnDay(s, rows, ticks, delay, i, j);
        }
      }
    } else {
      var ticks := SlippedStart(s, delay);
      assert !OneADay(Fired(s, [], ticks));
    }
  }

  lemma OpensOnOwnDay(s: Schedule, rows: seq<int>, ticks: seq<Tick>, delay: nat, i: nat, j: nat)
    requires 0 <= s.hour < 24 && 0 <= s.minute < 60 && Forward(ticks) && Prompt(ticks, delay) && DaysStayApart(s, delay)
    requires i < j < |Fired(s, rows, ticks)|
    ensures var fired := Fired(s, rows, ticks); Day(fired[i].opens.value) != Day(fired[j].opens.value)
  {
    var fired := Fired(s, rows, ticks);
    FiredAreSpaced(s, rows, ticks);
    OncePerDay(s, rows, ticks, i, j);
    assert fired[i] in fired && fired[j] in fired;
    TwoOpenings(s, delay, fired[i].now, fired[i].opens.value, fired[j].now, fired[j].opens.value);
  }

  // Two decisions on different days, five minutes apart from the first opening.
  lemma TwoOpenings(s: Schedule, delay: nat, a: int, x: int, b: int, y: int)
    requires 0 <= s.hour < 24 && 0 <= s.minute < 60 && DaysStayApart(s, delay)
    requires HourOf(a) == HourOf(b) == s.hour && MinuteOf(a) == MinuteOf(b) == s.minute
    requires a <= x <= a + delay && b <= y <= b + delay && b - x > QUIET && Day(a) < Day(b)
    ensures Day(x) != Day(y)
  {
    InScheduledMinute(s, a);
    InScheduledMinute(s, b);
    if Day(x) == Day(y) {
      InDay(x);
      InDay(y);
      InDay(a);
      InDay(b);
      DaysInOrder(x, b);
      DaysInOrder(b, y);
    }
  }

  lemma InDay(t: int)
    ensures Day(t) * DAY <= t < Day(t) * DAY + DAY
  {
  }

  // Otherwise two rows open on one day: a start decided late in its minute,
  // opened after midnight, and the start of the day it ends up on.
  lemma SlippedStart(s: Schedule, delay: nat) returns (ticks: seq<Tick>)
    requires 0 <= s.hour < 24 && 0 <= s.minute < 60 && !DaysStayApart(s, delay)
    ensures Forward(ticks) && Prompt(ticks, delay) && Fired(s, [], ticks) == ticks && !OneADay(ticks)
  {
    var t := Offset(s) + MINUTE - 1;
    var late := Tick(t, true, false, Some(DAY));
    var next := Tick(DAY + t, true, false, Some(DAY + t));
    ticks := [late, next];
    AtMinute(s, 0);
    AtMinute(s, 1);
    RoomToSlip(s, delay);
    FiredOne(s, late);
    FiredTwo(s, late, next);
    SecondDay(t);
    assert ticks[0] == late && ticks[1] == next;
  }

  lemma RoomToSlip(s: Schedule, delay: nat)
    requires 0 <= s.hour < 24 && 0 <= s.minute < 60 && !DaysStayApart(s, delay)
    ensures var t := Offset(s) + MINUTE - 1; 0 <= t < DAY <= t + delay && t > QUIET
  {
  }

  lemma SecondDay(t: int)
    requires 0 <= t < DAY
    ensures Day(DAY) == 1 && Day(DAY + t) == 1
  {
  }

  lemma AtMinute(s: Schedule, day: int)
    requires 0 <= s.hour < 24 && 0 <= s.minute < 60
    ensures var t := day * DAY + Offset(s) + MINUTE - 1; HourOf(t) == s.hour && MinuteOf(t) == s.minute && Day(t) == day
  {
    InsideIsThatDay(s, day, day * DAY + Offset(s) + MINUTE - 1);
  }

  lemma FiredOne(s: Schedule, t: Tick)
    requires Fires(s, [], t) && t.opens.Some?
    ensures Fired(s, [], [t]) == [t]
  {
    assert [t][..0] == [];
    var none: seq<int> := [];
    assert none + Openings([]) == [];
  }

  lemma FiredTwo(s: Schedule, t: Tick, u: Tick)
    requires Fired(s, [], [t]) == [t] && t.opens.Some? && u.opens.Some? && Fires(s, [t.opens.value], u)
    ensures Fired(s, [], [t, u]) == [t, u]
  {
    assert [t, u][..1] == [t];
    var none: seq<int> := [];
    assert none + Openings([t]) == [t.opens.value];
  }

  // --------------------------------------------------------------------------
  // Only when asked to
  // --------------------------------------------------------------------------

  predicate Idle(t: Tick) {
    t.enabled && !t.busy
  }

  // Without the ticks at which the schedule is switched off or a run is going.
  function WhileIdle(ticks: seq<Tick>): seq<Tick> {
    if ticks == [] then []
    else
      var n := |ticks| - 1;
      WhileIdle(ticks[..n]) + if Idle(ticks[n]) then [ticks[n]] else []
  }

  // Whatever happens at the others leaves no trace, wherever they stand: the
  // runs started, and so the rows recorded, are those of the idle ticks alone.
  lemma {:induction false} OnlyIdleTicksCount(s: Schedule, rows: seq<int>, ticks: seq<Tick>)
    ensures Fired(s, rows, ticks) == Fired(s, rows, WhileIdle(ticks))
  {
    if ticks != [] {
      var n := |ticks| - 1;
      OnlyIdleTicksCount(s, rows, ticks[..n]);
      var before := WhileIdle(ticks[..n]);
      if Idle(ticks[n]) {
        assert (before + [ticks[n]])[..|before|] == before;
      } else {
        assert before + [] == before;
      }
    }
  }

  // Every start is asked for: by a schedule that is switched on, in its own
  // minute of some day, with no other run going.
  lemma {:induction false} StartsAreAskedFor(s: Schedule, rows: seq<int>, ticks: seq<Tick>)
    requires 0 <= s.hour < 24 && 0 <= s.minute < 60
    ensures forall t | t in Fired(s, rows, ticks) ::
              t.enabled && !t.busy && t.opens.Some? && exists day :: MinuteStart(s, day) <= t.now < MinuteStart(s, day) + MINUTE
  {
    if ticks != [] {
      var n := |ticks| - 1;
      StartsAreAskedFor(s, rows, ticks[..n]);
      InScheduledMinute(s, ticks[n].now);
      assert MinuteStart(s, Day(ticks[n].now)) == MinuteStart(s, Day(ticks[n].now));
    }
  }

  // And nothing but a recent start holds one back: an idle tick in the minute
  // whose start works starts a run, unless one was started within five minutes.
  lemma NothingElseHoldsBack(s: Schedule, rows: seq<int>, before: seq<Tick>, t: Tick)
    requires 0 <= s.hour < 24 && 0 <= s.minute < 60
    requires Idle(t) && t.opens.Some? && MinuteStart(s, Day(t.now)) <= t.now < MinuteStart(s, Day(t.now)) + MINUTE
    ensures var fired := Fired(s, rows, before);
            if exists r | r in rows + Openings(fired) :: t.now - r <= 5 * 60 * 1_000_000
            then Fired(s, rows, before + [t]) == fired
            else Fired(s, rows, before + [t]) == fired + [t]
  {
    InScheduledMinute(s, t.now);
    assert (before + [t])[..|before|] == before;
    var known := rows + Openings(Fired(s, rows, before));
    assert StartedSince(known, t.now - QUIET) <==> exists r | r in known :: t.now - r <= QUIET;
  }

  // --------------------------------------------------------------------------
  // Never missed
  // --------------------------------------------------------------------------

  ghost predicate Frequent(times: seq<int>) {
    forall i, j | 0 <= i < j < |times| && j == i + 1 :: times[j] - times[i] <= MINUTE
  }

  // Ticks at most a minute apart, from before a minute until after it: one of
  // them falls inside.
  lemma {:induction false} SomeTickInside(times: seq<int>, start: int) returns (k: nat)
    requires |times| >= 2 && times[0] < start && times[|times| - 1] >= start + MINUTE
    requires Frequent(times)
    ensures k < |times| && start <= times[k] < start + MINUTE
  {
    if times[1] >= start {
      k := 1;
    } else {
      k := SomeTickInside(times[1..], start);
      k := k + 1;
    }
  }

  lemma {:induction false} FiredSplits(s: Schedule, rows: seq<int>, before: seq<Tick>, after: seq<Tick>)
    ensures Fired(s, rows, before) <= Fired(s, rows, before + after)
  {
    if after == [] {
      assert before + after == before;
    } else {
      var n := |after| - 1;
      assert (before + after)[..|before| + n] == before + after[..n];
      FiredSplits(s, rows, before, after[..n]);
    }
  }

  function Times(ticks: seq<Tick>): (times: seq<int>)
    ensures |times| == |ticks| && forall i | 0 <= i < |ticks| :: times[i] == ticks[i].now
  {
    seq(|ticks|, i requires 0 <= i < |ticks| => ticks[i].now)
  }

  // A day with an enabled schedule, ticks at most a minute apart around its
  // minute, nothing else running and starts that succeed, gets its run.
  lemma EveryDayGetsItsRun(s: Schedule, rows: seq<int>, ticks: seq<Tick>, day: int) returns (fired: Tick)
    requires 0 <= s.hour < 24 && 0 <= s.minute < 60 && Forward(ticks)
    requires |ticks| >= 2 && ticks[0].now < MinuteStart(s, day) && ticks[|ticks| - 1].now >= MinuteStart(s, day) + MINUTE
    requires Frequent(Times(ticks))
    requires forall t | t in ticks :: t.enabled && !t.busy && t.opens.Some?
    requires forall r | r in rows :: r < MinuteStart(s, day) - QUIET
    requires forall t | t in ticks && Day(t.now) < day :: t.opens.value < MinuteStart(s, day) - QUIET
    ensures fired in Fired(s, rows, ticks) && Day(fired.now) == day
  {
    var k := SomeTickInside(Times(ticks), MinuteStart(s, day));
    var t := ticks[k];
    assert t in ticks;
    InsideIsThatDay(s, day, t.now);
    var before := Fired(s, rows, ticks[..k]);
    KeptUntilTheEnd(s, rows, ticks, k);
    if f :| f in before && Day(f.now) == day {
      fired := f;
    } else {
      fired := t;
      forall f | f in before ensures f.opens.value < MinuteStart(s, day) - QUIET {
        EarlierTick(ticks, k, f);
        DaysInOrder(f.now, t.now);
      }
      NothingRecent(rows, before, t.now - QUIET);
    }
  }

  lemma EarlierTick(ticks: seq<Tick>, k: nat, f: Tick)
    requires Forward(ticks) && k < |ticks| && f in ticks[..k]
    ensures f in ticks && f.now <= ticks[k].now
  {
    var i :| 0 <= i < k && ticks[..k][i] == f;
    assert ticks[i] == f;
  }

  // What fired before tick k, and tick k if it fired, stays on record.
  lemma KeptUntilTheEnd(s: Schedule, rows: seq<int>, ticks: seq<Tick>, k: nat)
    requires k < |ticks|
    ensures var before := Fired(s, rows, ticks[..k]);
            && (forall f | f in before :: f in Fired(s, rows, ticks))
            && (Fires(s, rows + Openings(before), ticks[k]) && ticks[k].opens.Some? ==> ticks[k] in Fired(s, rows, ticks))
  {
    var before, upTo := Fired(s, rows, ticks[..k]), Fired(s, rows, ticks[..k + 1]);
    assert ticks[..k] + ticks[k..] == ticks && ticks[..k + 1] + ticks[k + 1..] == ticks;
    assert ticks[..k + 1][..k] == ticks[..k];
    FiredSplits(s, rows, ticks[..k], ticks[k..]);
    FiredSplits(s, rows, ticks[..k + 1], ticks[k + 1..]);
    assert before + [ticks[k]] == upTo ==> ticks[k] in upTo;
  }

  lemma InsideIsThatDay(s: Schedule, day: int, t: int)
    requires 0 <= s.hour < 24 && 0 <= s.minute < 60
    requires MinuteStart(s, day) <= t < MinuteStart(s, day) + MINUTE
    ensures Day(t) == day && HourOf(t) == s.hour && MinuteOf(t) == s.minute
  {
    assert day * DAY <= t < day * DAY + DAY;
    InScheduledMinute(s, t);
  }

  lemma NothingRecent(rows: seq<int>, fired: seq<Tick>, since: int)
    requires forall r | r in rows :: r < since
    requires forall f | f in fired :: f.opens.Some? && f.opens.value < since
    ensures !StartedSince(rows + Openings(fired), since)
  {
    forall r | r in rows + Openings(fired) ensures r < since {
      if r in Openings(fired) {
        var i :| 0 <= i < |fired| && fired[i].opens.value == r;
        assert fired[i] in fired;
      }
    }
  }
}
