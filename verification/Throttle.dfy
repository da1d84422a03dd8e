// Login throttling: src/db/mod.rs and the login handler of src/web/routes.rs.
// One clock serves the database and the program. It counts in ticks, `second`
// of them to the second, because what is waited for is reported in whole
// seconds.
module Throttle {
  import opened Base
  import opened Text

  datatype Attempt = Attempt(username: string, ip: Option<string>, succeeded: bool, at: int)

  const MAX_PER_USER: nat := 10
  const MAX_PER_IP: nat := 30
  const WINDOW_SECONDS: nat := 15 * 60

  // --------------------------------------------------------------------------
  // Counting failures
  // --------------------------------------------------------------------------

  // Failed attempts that meet `mine`, after `since`.
  predicate Counts(a: Attempt, mine: Attempt -> bool, since: int) {
    mine(a) && !a.succeeded && a.at > since
  }

  function Failures(attempts: seq<Attempt>, mine: Attempt -> bool, since: int): nat {
    if attempts == [] then 0
    else
      var n := |attempts| - 1;
      Failures(attempts[..n], mine, since) + if Counts(attempts[n], mine, since) then 1 else 0
  }

  // The time of the latest of them.
  function Latest(attempts: seq<Attempt>, mine: Attempt -> bool, since: int): Option<int> {
    if attempts == [] then None
    else
      var n := |attempts| - 1;
      var before := Latest(attempts[..n], mine, since);
      if !Counts(attempts[n], mine, since) then before
      else if before.Some? && before.value >= attempts[n].at then before
      else Some(attempts[n].at)
  }

  function ByUser(username: string): Attempt -> bool {
    (a: Attempt) => a.username == username
  }

  function ByIp(ip: Option<string>): Attempt -> bool {
    (a: Attempt) => a.ip == ip
  }

  // --------------------------------------------------------------------------
  // The lockout
  // --------------------------------------------------------------------------

  // Whole seconds left of the window after `last`; none when less than one is.
  function Remaining(last: Option<int>, now: int, second: nat): Option<nat>
    requires second > 0
  {
    if last.None? then None
    else
      var left := last.value + WINDOW_SECONDS * second - now;
      if left >= second then Some(left / second) else None
  }

  function Longer(a: Option<nat>, b: Option<nat>): Option<nat> {
    if a.None? then b else if b.None? || b.value <= a.value then a else b
  }

  // One limit: asked at `asked`, and measured at `now`.
  function Limit(attempts: seq<Attempt>, mine: Attempt -> bool, limit: nat, asked: int, now: int, second: nat): Option<nat>
    requires second > 0
  {
    var since := asked - WINDOW_SECONDS * second;
    if Failures(attempts, mine, since) >= limit then Remaining(Latest(attempts, mine, since), now, second) else None
  }

  function Lockout(attempts: seq<Attempt>, username: string, ip: Option<string>, asked: int, now: int, second: nat): Option<nat>
    requires second > 0
  {
    Longer(Limit(attempts, ByUser(Trim(username)), MAX_PER_USER, asked, now, second),
           Limit(attempts, ByIp(ip), MAX_PER_IP, asked, now, second))
  }

  // Without the failures of one username.
  function Cleared(attempts: seq<Attempt>, username: string): seq<Attempt> {
    if attempts == [] then []
    else
      var n := |attempts| - 1;
      Cleared(attempts[..n], username) +
      if attempts[n].username == username && !attempts[n].succeeded then [] else [attempts[n]]
  }

  function Recorded(attempts: seq<Attempt>, a: Attempt): seq<Attempt> {
    if a.succeeded then Cleared(attempts + [a], a.username) else attempts + [a]
  }

  // --------------------------------------------------------------------------
  // The login handler
  // --------------------------------------------------------------------------

  // What checking the password gives; an error ends the request there.
  datatype Verdict = Right | Wrong | Broken

  // One sign-in request, with the times of its three looks at the clock.
  datatype Login = Login(username: string, ip: Option<string>, verdict: Verdict, asked: int, measured: int, recorded: int)

  datatype Answer = TooMany(seconds: nat) | Welcome | Denied | Unavailable

  function Handled(attempts: seq<Attempt>, l: Login, second: nat): (seq<Attempt>, Answer)
    requires second > 0
  {
    match Lockout(attempts, l.username, l.ip, l.asked, l.measured, second)
    case Some(seconds) => (attempts, TooMany(seconds))
    case None =>
      if l.verdict.Broken? then (attempts, Unavailable)
      else
        (Recorded(attempts, Attempt(Trim(l.username), l.ip, l.verdict.Right?, l.recorded)),
         if l.verdict.Right? then Welcome else Denied)
  }

  function After(attempts: seq<Attempt>, logins: seq<Login>, second: nat): seq<Attempt>
    requires second > 0
  {
    if logins == [] then attempts
    else
      var n := |logins| - 1;
      Handled(After(attempts, logins[..n], second), logins[n], second).0
  }

  class LoginAttempts {
    var rows: seq<Attempt>

    method CountRecent(mine: Attempt -> bool, since: int) returns (count: nat, last: Option<int>)
      ensures count == Failures(rows, mine, since) && last == Latest(rows, mine, since)
    {
      count, last := 0, None;
      for i := 0 to |rows|
        invariant count == Failures(rows[..i], mine, since) && last == Latest(rows[..i], mine, since)
      {
        assert rows[..i + 1][..i] == rows[..i];
        if Counts(rows[i], mine, since) {
          count := count + 1;
          if last.None? || last.value < rows[i].at {
            last := Some(rows[i].at);
          }
        }
      }
      assert rows[..|rows|] == rows;
    }

    method LoginLockout(username: string, ip: Option<string>, asked: int, now: int, second: nat) returns (wait: Option<nat>)
      requires second > 0
      ensures wait == Lockout(rows, username, ip, asked, now, second)
    {
      var since := asked - WINDOW_SECONDS * second;
      var userFailures, userLast := CountRecent(ByUser(Trim(username)), since);
      var ipFailures, ipLast := CountRecent(ByIp(ip), since);
      wait := None;
      if userFailures >= MAX_PER_USER {
        wait := Remaining(userLast, now, second);
      }
      if ipFailures >= MAX_PER_IP {
        wait := Longer(wait, Remaining(ipLast, now, second));
      }
    }

    method RecordLoginAttempt(username: string, ip: Option<string>, succeeded: bool, at: int)
      modifies this
      ensures rows == Recorded(old(rows), Attempt(Trim(username), ip, succeeded, at))
    {
      rows := rows + [Attempt(Trim(username), ip, succeeded, at)];
      if succeeded {
        rows := Cleared(rows, Trim(username));
      }
    }

    method HandleLogin(l: Login, second: nat) returns (answer: Answer)
      requires second > 0
      modifies this
      ensures (rows, answer) == Handled(old(rows), l, second)
    {
      var wait := LoginLockout(l.username, l.ip, l.asked, l.measured, second);
      if wait.Some? {
        return TooMany(wait.value);
      }
      if l.verdict.Broken? {
        return Unavailable;
      }
      RecordLoginAttempt(l.username, l.ip, l.verdict.Right?, l.recorded);
      answer := if l.verdict.Right? then Welcome else Denied;
    }
  }

  // --------------------------------------------------------------------------
  // The bound
  // --------------------------------------------------------------------------

  // Failures in the `length` ticks up to and including `end`.
  function Within(attempts: seq<Attempt>, mine: Attempt -> bool, length: int, end: int): nat {
    if attempts == [] then 0
    else
      var n := |attempts| - 1;
      Within(attempts[..n], mine, length, end) +
      if Counts(attempts[n], mine, end - length) && attempts[n].at <= end then 1 else 0
  }

  ghost predicate Bounded(attempts: seq<Attempt>, mine: Attempt -> bool, limit: nat, length: int) {
    forall end :: Within(attempts, mine, length, end) <= limit
  }

  lemma {:induction false} WithinIsFewer(attempts: seq<Attempt>, mine: Attempt -> bool, length: int, end: int, since: int)
    requires since <= end - length
    ensures Within(attempts, mine, length, end) <= Failures(attempts, mine, since)
  {
    if attempts != [] {
      WithinIsFewer(attempts[..|attempts| - 1], mine, length, end, since);
    }
  }

  lemma {:induction false} LaterIsFewer(attempts: seq<Attempt>, mine: Attempt -> bool, since: int, later: int)
    requires since <= later
    ensures Failures(attempts, mine, later) <= Failures(attempts, mine, since)
  {
    if attempts != [] {
      LaterIsFewer(attempts[..|attempts| - 1], mine, since, later);
    }
  }

  // Nothing counts after the latest that counts.
  lemma {:induction false} NoneAfterLatest(attempts: seq<Attempt>, mine: Attempt -> bool, since: int, later: int)
    requires since <= later
    requires Latest(attempts, mine, since).None? || Latest(attempts, mine, since).value <= later
    ensures Failures(attempts, mine, later) == 0
  {
    if attempts != [] {
      NoneAfterLatest(attempts[..|attempts| - 1], mine, since, later);
    }
  }

  // The longest window the limits hold for: the full quarter of an hour, less
  // the part of a second that reporting whole seconds rounds away.
  function Held(second: nat): int {
    WINDOW_SECONDS * second - second + 1
  }

  // One more failure that passed a limit keeps within it.
  lemma OneMoreFailure(attempts: seq<Attempt>, mine: Attempt -> bool, limit: nat, asked: int, now: int, second: nat, a: Attempt)
    requires second > 0 && limit > 0 && asked <= now <= a.at
    requires Bounded(attempts, mine, limit, Held(second)) && Limit(attempts, mine, limit, asked, now, second).None?
    ensures Bounded(attempts + [a], mine, limit, Held(second))
  {
    var length := Held(second);
    var since := asked - WINDOW_SECONDS * second;
    assert (attempts + [a])[..|attempts|] == attempts;
    forall end ensures Within(attempts + [a], mine, length, end) <= limit {
      assert Within(attempts, mine, length, end) <= limit;
      if a.at <= end && end - length < a.at {
        WithinIsFewer(attempts, mine, length, end, end - length);
        if Failures(attempts, mine, since) < limit {
          LaterIsFewer(attempts, mine, since, end - length);
        } else {
          NoneAfterLatest(attempts, mine, since, end - length);
        }
      }
    }
  }

  lemma {:induction false} ClearingIsFewer(attempts: seq<Attempt>, username: string, mine: Attempt -> bool, length: int, end: int)
    ensures Within(Cleared(attempts, username), mine, length, end) <= Within(attempts, mine, length, end)
  {
    if attempts != [] {
      var n := |attempts| - 1;
      ClearingIsFewer(attempts[..n], username, mine, length, end);
      var front := Cleared(attempts[..n], username);
      assert (front + [attempts[n]])[..|front|] == front;
      assert front + [] == front;
    }
  }

  lemma SuccessKeepsBound(attempts: seq<Attempt>, mine: Attempt -> bool, limit: nat, length: int, a: Attempt)
    requires Bounded(attempts, mine, limit, length) && a.succeeded
    ensures Bounded(Recorded(attempts, a), mine, limit, length)
  {
    assert (attempts + [a])[..|attempts|] == attempts;
    forall end ensures Within(Recorded(attempts, a), mine, length, end) <= limit {
      ClearingIsFewer(attempts + [a], a.username, mine, length, end);
      assert Within(attempts, mine, length, end) <= limit;
    }
  }

  // A failure of somebody else.
  lemma ForeignFailure(attempts: seq<Attempt>, mine: Attempt -> bool, limit: nat, length: int, a: Attempt)
    requires Bounded(attempts, mine, limit, length) && !mine(a)
    ensures Bounded(attempts + [a], mine, limit, length)
  {
    assert (attempts + [a])[..|attempts|] == attempts;
    forall end ensures Within(attempts + [a], mine, length, end) <= limit {
      assert Within(attempts, mine, length, end) <= limit;
    }
  }

  ghost predicate Timely(l: Login) {
    l.asked <= l.measured <= l.recorded
  }

  // Every request keeps the bound of every username and of every address.
  lemma LoginKeepsBounds(attempts: seq<Attempt>, l: Login, second: nat, username: string, ip: Option<string>)
    requires second > 0 && Timely(l)
    requires Bounded(attempts, ByUser(username), MAX_PER_USER, Held(second)) && Bounded(attempts, ByIp(ip), MAX_PER_IP, Held(second))
    ensures var next := Handled(attempts, l, second).0;
            Bounded(next, ByUser(username), MAX_PER_USER, Held(second)) && Bounded(next, ByIp(ip), MAX_PER_IP, Held(second))
  {
    var a := Attempt(Trim(l.username), l.ip, l.verdict.Right?, l.recorded);
    if Handled(attempts, l, second).0 != attempts {
      if a.succeeded {
        SuccessKeepsBound(attempts, ByUser(username), MAX_PER_USER, Held(second), a);
        SuccessKeepsBound(attempts, ByIp(ip), MAX_PER_IP, Held(second), a);
      } else {
        if a.username == username {
          OneMoreFailure(attempts, ByUser(username), MAX_PER_USER, l.asked, l.measured, second, a);
        } else {
          ForeignFailure(attempts, ByUser(username), MAX_PER_USER, Held(second), a);
        }
        if a.ip == ip {
          OneMoreFailure(attempts, ByIp(ip), MAX_PER_IP, l.asked, l.measured, second, a);
        } else {
          ForeignFailure(attempts, ByIp(ip), MAX_PER_IP, Held(second), a);
        }
      }
    }
  }

  // With logins handled one at a time, there are never more than 10 uncleared
  // failures per username, nor 30 per address, in any window of Held(second)
  // ticks. On a clock of whole seconds that is any quarter of an hour.
  lemma {:induction false} FailuresAreBounded(logins: seq<Login>, second: nat, username: string, ip: Option<string>)
    requires second > 0 && forall l | l in logins :: Timely(l)
    ensures Bounded(After([], logins, second), ByUser(username), 10, 900 * second - second + 1)
    ensures Bounded(After([], logins, second), ByIp(ip), 30, 900 * second - second + 1)
  {
    if logins != [] {
      var n := |logins| - 1;
      assert logins[n] in logins;
      assert forall l | l in logins[..n] :: l in logins;
      FailuresAreBounded(logins[..n], second, username, ip);
      LoginKeepsBounds(After([], logins[..n], second), logins[n], second, username, ip);
    }
  }

  lemma WholeSecondClock()
    ensures Held(1) == 15 * 60
  {
  }

  // --------------------------------------------------------------------------
  // The bound is sharp
  // --------------------------------------------------------------------------

  function Repeated(a: Attempt, n: nat): seq<Attempt> {
    if n == 0 then [] else Repeated(a, n - 1) + [a]
  }

  lemma RepeatedSnoc(a: Attempt, n: nat)
    ensures Repeated(a, n + 1)[..|Repeated(a, n)|] == Repeated(a, n) && |Repeated(a, n + 1)| == |Repeated(a, n)| + 1
    ensures Repeated(a, n + 1)[|Repeated(a, n)|] == a
  {
  }

  lemma {:induction false} FailuresRepeated(a: Attempt, n: nat, mine: Attempt -> bool, since: int)
    ensures Failures(Repeated(a, n), mine, since) == if Counts(a, mine, since) then n else 0
    ensures Latest(Repeated(a, n), mine, since) == if n > 0 && Counts(a, mine, since) then Some(a.at) else None
  {
    if n > 0 {
      FailuresRepeated(a, n - 1, mine, since);
      RepeatedSnoc(a, n - 1);
    }
  }

  lemma {:induction false} WithinRepeated(a: Attempt, n: nat, mine: Attempt -> bool, length: int, end: int)
    ensures Within(Repeated(a, n), mine, length, end) == if Counts(a, mine, end - length) && a.at <= end then n else 0
  {
    if n > 0 {
      WithinRepeated(a, n - 1, mine, length, end);
      RepeatedSnoc(a, n - 1);
    }
  }

  // After ten failures at one moment, an eleventh attempt is let through one
  // tick short of a window longer than Held: the remaining part of a second is
  // reported as none.
  lemma LongerWindowsCanOverflow(second: nat, username: string, ip: Option<string>)
    requires second > 0 && Trim(username) == username
    ensures var f := Attempt(username, ip, false, 0);
            var l := Login(username, ip, Wrong, Held(second), Held(second), Held(second));
            var next := Handled(Repeated(f, 10), l, second).0;
            Within(next, ByUser(username), Held(second) + 1, Held(second)) == 11
  {
    var f := Attempt(username, ip, false, 0);
    var length := Held(second);
    var since := length - WINDOW_SECONDS * second;
    FailuresRepeated(f, 10, ByUser(username), since);
    FailuresRepeated(f, 10, ByIp(ip), since);
    WithinRepeated(f, 10, ByUser(username), length + 1, length);
    var a := Attempt(username, ip, false, length);
    assert (Repeated(f, 10) + [a])[..|Repeated(f, 10)|] == Repeated(f, 10);
  }

  function Failed(username: string, ip: Option<string>, time: int): Login {
    Login(username, ip, Wrong, time, time, time)
  }

  function TenFailed(username: string, ip: Option<string>, n: nat): seq<Login> {
    if n == 0 then [] else TenFailed(username, ip, n - 1) + [Failed(username, ip, 0)]
  }

  lemma LetThrough(username: string, ip: Option<string>, n: nat, second: nat)
    requires second > 0 && n < 10 && Trim(username) == username
    ensures var f := Attempt(username, ip, false, 0);
            Handled(Repeated(f, n), Failed(username, ip, 0), second).0 == Repeated(f, n + 1)
  {
    var f := Attempt(username, ip, false, 0);
    FailuresRepeated(f, n, ByUser(username), 0 - WINDOW_SECONDS * second);
    FailuresRepeated(f, n, ByIp(ip), 0 - WINDOW_SECONDS * second);
  }

  // Ten failed sign-ins at one moment are all let through and recorded.
  lemma {:induction false} TenAreRecorded(username: string, ip: Option<string>, n: nat, second: nat)
    requires second > 0 && n <= 10 && Trim(username) == username
    ensures After([], TenFailed(username, ip, n), second) == Repeated(Attempt(username, ip, false, 0), n)
    ensures forall l | l in TenFailed(username, ip, n) :: Timely(l)
  {
    if n > 0 {
      TenAreRecorded(username, ip, n - 1, second);
      LetThrough(username, ip, n - 1, second);
      AfterLast([], TenFailed(username, ip, n - 1), Failed(username, ip, 0), second);
    }
  }

  lemma {:induction false} ShorterIsFewer(attempts: seq<Attempt>, mine: Attempt -> bool, length: int, longer: int, end: int)
    requires length <= longer
    ensures Within(attempts, mine, length, end) <= Within(attempts, mine, longer, end)
  {
    if attempts != [] {
      ShorterIsFewer(attempts[..|attempts| - 1], mine, length, longer, end);
    }
  }

  // The eleventh failure, as the end of a run from nothing.
  lemma ElevenInALongerWindow(second: nat, username: string, ip: Option<string>, length: int) returns (logins: seq<Login>)
    requires second > 0 && Trim(username) == username && length > Held(second)
    ensures forall l | l in logins :: Timely(l)
    ensures !Bounded(After([], logins, second), ByUser(username), MAX_PER_USER, length)
  {
    var ten := TenFailed(username, ip, 10);
    logins := ten + [Failed(username, ip, Held(second))];
    TenAreRecorded(username, ip, 10, second);
    AfterLast([], ten, Failed(username, ip, Held(second)), second);
    LongerWindowsCanOverflow(second, username, ip);
    var next := After([], logins, second);
    ShorterIsFewer(next, ByUser(username), Held(second) + 1, length, Held(second));
    assert Within(next, ByUser(username), length, Held(second)) >= 11;
  }

  // So the limit holds for windows of a length, over every run, exactly when
  // that length is at most Held(second).
  lemma WindowsThatHold(second: nat, username: string, length: int)
    requires second > 0 && Trim(username) == username
    ensures (forall logins: seq<Login> | (forall l | l in logins :: Timely(l)) ::
               Bounded(After([], logins, second), ByUser(username), 10, length)) <==> length <= 900 * second - second + 1
  {
    if length <= Held(second) {
      forall logins: seq<Login> | (forall l | l in logins :: Timely(l))
        ensures Bounded(After([], logins, second), ByUser(username), MAX_PER_USER, length)
      {
        FailuresAreBounded(logins, second, username, None);
        var attempts := After([], logins, second);
        forall end ensures Within(attempts, ByUser(username), length, end) <= MAX_PER_USER {
          ShorterIsFewer(attempts, ByUser(username), length, Held(second), end);
          assert Within(attempts, ByUser(username), Held(second), end) <= MAX_PER_USER;
        }
      }
    } else {
      var logins := ElevenInALongerWindow(second, username, None, length);
      assert !Bounded(After([], logins, second), ByUser(username), MAX_PER_USER, length);
    }
  }

  // --------------------------------------------------------------------------
  // The limit of an address is as sharp
  // --------------------------------------------------------------------------

  // A spray: every failure at another username.
  function Sprayed(i: nat): string {
    if i == 0 then "u" else Sprayed(i - 1) + "u"
  }

  lemma {:induction false} SprayedNames(i: nat)
    ensures |Sprayed(i)| == i + 1 && Sprayed(i)[0] == 'u' && Sprayed(i)[i] == 'u'
    ensures Trim(Sprayed(i)) == Sprayed(i)
  {
    if i > 0 {
      SprayedNames(i - 1);
    }
  }

  function SprayRows(ip: Option<string>, n: nat): seq<Attempt> {
    if n == 0 then [] else SprayRows(ip, n - 1) + [Attempt(Sprayed(n - 1), ip, false, 0)]
  }

  function Spray(ip: Option<string>, n: nat): seq<Login> {
    if n == 0 then [] else Spray(ip, n - 1) + [Failed(Sprayed(n - 1), ip, 0)]
  }

  lemma {:induction false} SprayFailures(ip: Option<string>, n: nat, i: nat, since: int)
    requires n <= i
    ensures Failures(SprayRows(ip, n), ByIp(ip), since) == (if since < 0 then n else 0)
    ensures Failures(SprayRows(ip, n), ByUser(Sprayed(i)), since) == 0
    ensures Latest(SprayRows(ip, n), ByIp(ip), since) == if n > 0 && since < 0 then Some(0) else None
  {
    if n > 0 {
      SprayFailures(ip, n - 1, i, since);
      SprayedNames(n - 1);
      SprayedNames(i);
      SpraySnoc(ip, n - 1);
    }
  }

  lemma SpraySnoc(ip: Option<string>, n: nat)
    ensures var rows, more := SprayRows(ip, n), SprayRows(ip, n + 1);
            |more| == |rows| + 1 && more[..|rows|] == rows && more[|rows|] == Attempt(Sprayed(n), ip, false, 0)
  {
  }

  // One more failure from the address is recorded while fewer than thirty are,
  // and once the rest of its fifteen minutes is rounded away.
  lemma SprayGoesOn(ip: Option<string>, n: nat, at: int, second: nat)
    requires second > 0 && (n < 30 || at == Held(second))
    ensures Handled(SprayRows(ip, n), Failed(Sprayed(n), ip, at), second).0 == SprayRows(ip, n) + [Attempt(Sprayed(n), ip, false, at)]
  {
    SprayFailures(ip, n, n, at - WINDOW_SECONDS * second);
    SprayedNames(n);
  }

  lemma {:induction false} SprayIsRecorded(ip: Option<string>, n: nat, second: nat)
    requires second > 0 && n <= 30
    ensures After([], Spray(ip, n), second) == SprayRows(ip, n) && forall l | l in Spray(ip, n) :: Timely(l)
  {
    if n > 0 {
      SprayIsRecorded(ip, n - 1, second);
      SprayGoesOn(ip, n - 1, 0, second);
      AfterLast([], Spray(ip, n - 1), Failed(Sprayed(n - 1), ip, 0), second);
    }
  }

  lemma {:induction false} SprayWithin(ip: Option<string>, n: nat, length: int, end: int)
    requires 0 <= end < length
    ensures Within(SprayRows(ip, n), ByIp(ip), length, end) == n
  {
    if n > 0 {
      SprayWithin(ip, n - 1, length, end);
      SpraySnoc(ip, n - 1);
    }
  }

  // A thirty-first failure from one address, as the end of a run from nothing.
  lemma ThirtyOneFromOneAddress(second: nat, ip: Option<string>, length: int) returns (logins: seq<Login>)
    requires second > 0 && length > Held(second)
    ensures forall l | l in logins :: Timely(l)
    ensures !Bounded(After([], logins, second), ByIp(ip), 30, length)
  {
    logins := OneTooMany(second, ip, length, 30);
  }

  lemma OneMoreWithin(attempts: seq<Attempt>, a: Attempt, mine: Attempt -> bool, length: int, end: int)
    requires Counts(a, mine, end - length) && a.at <= end
    ensures Within(attempts + [a], mine, length, end) == Within(attempts, mine, length, end) + 1
  {
    assert (attempts + [a])[..|attempts|] == attempts;
  }

  lemma OneTooMany(second: nat, ip: Option<string>, length: int, n: nat) returns (logins: seq<Login>)
    requires second > 0 && length > Held(second) && n <= 30
    ensures forall l | l in logins :: Timely(l)
    ensures !Bounded(After([], logins, second), ByIp(ip), n, length)
  {
    var last := Failed(Sprayed(n), ip, Held(second));
    logins := Spray(ip, n) + [last];
    SprayIsRecorded(ip, n, second);
    SprayEnds(second, ip, n);
    TooManyWithin(second, ip, length, n);
    assert !Bounded(After([], logins, second), ByIp(ip), n, length);
  }

  lemma SprayEnds(second: nat, ip: Option<string>, n: nat)
    requires second > 0 && n <= 30
    ensures After([], Spray(ip, n) + [Failed(Sprayed(n), ip, Held(second))], second) ==
            SprayRows(ip, n) + [Attempt(Sprayed(n), ip, false, Held(second))]
  {
    SprayIsRecorded(ip, n, second);
    AfterLast([], Spray(ip, n), Failed(Sprayed(n), ip, Held(second)), second);
    SprayGoesOn(ip, n, Held(second), second);
  }

  lemma TooManyWithin(second: nat, ip: Option<string>, length: int, n: nat)
    requires second > 0 && length > Held(second)
    ensures !Bounded(SprayRows(ip, n) + [Attempt(Sprayed(n), ip, false, Held(second))], ByIp(ip), n, length)
  {
    var at := Held(second);
    SprayWithin(ip, n, length, at);
    OneMoreWithin(SprayRows(ip, n), Attempt(Sprayed(n), ip, false, at), ByIp(ip), length, at);
  }

  // The per-address limit too holds, over every run, for windows of exactly
  // these lengths.
  lemma AddressWindowsThatHold(second: nat, ip: Option<string>, length: int)
    requires second > 0
    ensures (forall logins: seq<Login> | (forall l | l in logins :: Timely(l)) ::
               Bounded(After([], logins, second), ByIp(ip), 30, length)) <==> length <= 900 * second - second + 1
  {
    if length <= Held(second) {
      forall logins: seq<Login> | (forall l | l in logins :: Timely(l))
        ensures Bounded(After([], logins, second), ByIp(ip), 30, length)
      {
        FailuresAreBounded(logins, second, "", ip);
        var attempts := After([], logins, second);
        forall end ensures Within(attempts, ByIp(ip), length, end) <= 30 {
          ShorterIsFewer(attempts, ByIp(ip), length, Held(second), end);
          assert Within(attempts, ByIp(ip), Held(second), end) <= 30;
        }
      }
    } else {
      var logins := ThirtyOneFromOneAddress(second, ip, length);
      assert !Bounded(After([], logins, second), ByIp(ip), 30, length);
    }
  }

  // --------------------------------------------------------------------------
  // Waiting
  // --------------------------------------------------------------------------

  lemma {:induction false} LatestLater(attempts: seq<Attempt>, mine: Attempt -> bool, since: int, later: int)
    requires since <= later
    ensures Latest(attempts, mine, later).Some? ==>
              Latest(attempts, mine, since).Some? && Latest(attempts, mine, later).value <= Latest(attempts, mine, since).value
  {
    if attempts != [] {
      LatestLater(attempts[..|attempts| - 1], mine, since, later);
    }
  }

  lemma LimitEnds(attempts: seq<Attempt>, mine: Attempt -> bool, limit: nat, asked: int, now: int, second: nat,
                  seconds: nat, askedAgain: int, nowAgain: int)
    requires second > 0 && asked <= askedAgain && now + seconds * second <= nowAgain
    requires var wait := Limit(attempts, mine, limit, asked, now, second); wait.Some? ==> wait.value <= seconds
    ensures Limit(attempts, mine, limit, askedAgain, nowAgain, second).None?
  {
    var since, sinceAgain := asked - WINDOW_SECONDS * second, askedAgain - WINDOW_SECONDS * second;
    LaterIsFewer(attempts, mine, since, sinceAgain);
    LatestLater(attempts, mine, since, sinceAgain);
    if Failures(attempts, mine, sinceAgain) >= limit && Latest(attempts, mine, sinceAgain).Some? {
      var last, lastAgain := Latest(attempts, mine, since).value, Latest(attempts, mine, sinceAgain).value;
      var left := last + WINDOW_SECONDS * second - now;
      LessThanOneSecond(left, second, seconds);
      assert lastAgain + WINDOW_SECONDS * second - nowAgain <= left - seconds * second;
    }
  }

  lemma LessThanOneSecond(left: int, second: nat, seconds: nat)
    requires second > 0 && (left >= second ==> left / second <= seconds)
    ensures left - seconds * second < second
  {
    if left >= second {
      assert left == second * (left / second) + left % second;
      assert second * (left / second) <= second * seconds;
    } else {
      assert seconds * second >= 0;
    }
  }

  // Waiting the reported number of seconds always unlocks, if nothing is
  // recorded meanwhile.
  lemma WaitingUnlocks(attempts: seq<Attempt>, username: string, ip: Option<string>, asked: int, now: int, second: nat,
                       askedAgain: int, nowAgain: int)
    requires second > 0 && Lockout(attempts, username, ip, asked, now, second).Some?
    requires asked <= askedAgain && now + Lockout(attempts, username, ip, asked, now, second).value * second <= nowAgain
    ensures Lockout(attempts, username, ip, askedAgain, nowAgain, second).None?
  {
    var seconds := Lockout(attempts, username, ip, asked, now, second).value;
    LimitEnds(attempts, ByUser(Trim(username)), MAX_PER_USER, asked, now, second, seconds, askedAgain, nowAgain);
    LimitEnds(attempts, ByIp(ip), MAX_PER_IP, asked, now, second, seconds, askedAgain, nowAgain);
  }

  lemma {:induction false} LatestStays(attempts: seq<Attempt>, mine: Attempt -> bool, since: int, later: int)
    requires since <= later && Latest(attempts, mine, since).Some? && later < Latest(attempts, mine, since).value
    ensures Latest(attempts, mine, later) == Latest(attempts, mine, since)
  {
    if attempts != [] {
      var n := |attempts| - 1;
      var before := Latest(attempts[..n], mine, since);
      if before.Some? && later < before.value {
        LatestStays(attempts[..n], mine, since, later);
      } else {
        LatestLater(attempts[..n], mine, since, later);
        LatestIsAfter(attempts[..n], mine, later);
      }
    }
  }

  lemma {:induction false} LatestIsAfter(attempts: seq<Attempt>, mine: Attempt -> bool, since: int)
    ensures Latest(attempts, mine, since).Some? ==> Latest(attempts, mine, since).value > since
    ensures Failures(attempts, mine, since) > 0 <==> Latest(attempts, mine, since).Some?
  {
    if attempts != [] {
      LatestIsAfter(attempts[..|attempts| - 1], mine, since);
    }
  }

  // The reported wait of one limit is exact, nothing being recorded meanwhile,
  // if and only if it was rounded by all but nothing and enough of the failures
  // lie in the last second before, and at, the latest. Otherwise failures drop
  // out of the window first.
  lemma ReportedWaitIsExact(attempts: seq<Attempt>, mine: Attempt -> bool, limit: nat, now: int, second: nat)
    requires second > 0 && Limit(attempts, mine, limit, now, now, second).Some?
    ensures var wait := Limit(attempts, mine, limit, now, now, second).value;
            var last := Latest(attempts, mine, now - WINDOW_SECONDS * second).value;
            var left := last + WINDOW_SECONDS * second - now;
            (forall t | now <= t < now + wait * second :: Limit(attempts, mine, limit, t, t, second).Some?) <==>
            left % second == second - 1 && Failures(attempts, mine, last - second) >= limit
  {
    var window := WINDOW_SECONDS * second;
    var wait := Limit(attempts, mine, limit, now, now, second).value;
    var last := Latest(attempts, mine, now - window).value;
    var left := last + window - now;
    WholeSeconds(left, second);
    var end := now + wait * second - 1;
    assert end == last + window - left % second - 1;
    if forall t | now <= t < now + wait * second :: Limit(attempts, mine, limit, t, t, second).Some? {
      assert Limit(attempts, mine, limit, end, end, second).Some?;
      LatestLater(attempts, mine, now - window, end - window);
    }
    if left % second == second - 1 && Failures(attempts, mine, last - second) >= limit {
      forall t | now <= t < now + wait * second ensures Limit(attempts, mine, limit, t, t, second).Some? {
        LaterIsFewer(attempts, mine, t - window, last - second);
        LatestStays(attempts, mine, now - window, t - window);
      }
    }
  }

  lemma WholeSeconds(left: int, second: nat)
    requires second > 0 && left >= second
    ensures left / second * second == left - left % second && 0 <= left % second < second && left / second * second >= second
  {
    assert left == second * (left / second) + left % second;
    assert left / second >= 1;
    assert (left / second - 1) * second >= 0;
  }

  // On a clock of whole seconds, both limits together: the lockout lasts as
  // long as reported exactly if one of them still has all its failures in the
  // window at the end, that is, recorded in the very second the wait counts from.
  lemma LockoutLastsAsReported(attempts: seq<Attempt>, username: string, ip: Option<string>, now: int)
    requires Lockout(attempts, username, ip, now, now, 1).Some?
    ensures var wait := Lockout(attempts, username, ip, now, now, 1).value;
            var last := now + wait - WINDOW_SECONDS;
            (forall t | now <= t < now + wait :: Lockout(attempts, username, ip, t, t, 1).Some?) <==>
            || Failures(attempts, ByUser(Trim(username)), last - 1) >= MAX_PER_USER
            || Failures(attempts, ByIp(ip), last - 1) >= MAX_PER_IP
  {
    var wait := Lockout(attempts, username, ip, now, now, 1).value;
    var end := now + wait - 1;
    var user := ByUser(Trim(username));
    LimitUntil(attempts, user, MAX_PER_USER, end);
    LimitUntil(attempts, ByIp(ip), MAX_PER_IP, end);
    if forall t | now <= t < now + wait :: Lockout(attempts, username, ip, t, t, 1).Some? {
      assert Lockout(attempts, username, ip, end, end, 1).Some?;
    }
  }

  // One limit on a clock of whole seconds, at an instant and before it.
  lemma LimitUntil(attempts: seq<Attempt>, mine: Attempt -> bool, limit: nat, end: int)
    requires limit > 0
    ensures Limit(attempts, mine, limit, end, end, 1).Some? <==> Failures(attempts, mine, end - WINDOW_SECONDS) >= limit
    ensures Limit(attempts, mine, limit, end, end, 1).Some? ==> forall t | t <= end :: Limit(attempts, mine, limit, t, t, 1).Some?
  {
    LatestIsAfter(attempts, mine, end - WINDOW_SECONDS);
    forall t | t <= end && Limit(attempts, mine, limit, end, end, 1).Some? ensures Limit(attempts, mine, limit, t, t, 1).Some? {
      LaterIsFewer(attempts, mine, t - WINDOW_SECONDS, end - WINDOW_SECONDS);
      LatestIsAfter(attempts, mine, t - WINDOW_SECONDS);
    }
  }

  // So it can end earlier, as sign-ins can come: nine failures at once and a
  // tenth a while later. The wait counts from the tenth, the lockout ends with
  // the nine.
  lemma UnlocksEarlier(username: string, ip: Option<string>, gap: int, now: int) returns (logins: seq<Login>)
    requires Trim(username) == username && 0 < gap <= now < WINDOW_SECONDS
    ensures forall l | l in logins :: Timely(l)
    ensures var attempts := After([], logins, 1);
            && Lockout(attempts, username, ip, now, now, 1) == Some(gap + WINDOW_SECONDS - now)
            && now < WINDOW_SECONDS < now + (gap + WINDOW_SECONDS - now)
            && Lockout(attempts, username, ip, WINDOW_SECONDS, WINDOW_SECONDS, 1) == None
  {
    logins := TenFailed(username, ip, 9) + [Failed(username, ip, gap)];
    TenAreRecorded(username, ip, 9, 1);
    AfterLast([], TenFailed(username, ip, 9), Failed(username, ip, gap), 1);
    TenthIsRecorded(username, ip, gap);
    LockoutOfTen(username, ip, gap, now);
    LockoutOfTen(username, ip, gap, WINDOW_SECONDS);
  }

  lemma TenthIsRecorded(username: string, ip: Option<string>, gap: int)
    requires Trim(username) == username
    ensures var f, g := Attempt(username, ip, false, 0), Attempt(username, ip, false, gap);
            Handled(Repeated(f, 9), Failed(username, ip, gap), 1).0 == Repeated(f, 9) + [g]
  {
    var f := Attempt(username, ip, false, 0);
    FailuresRepeated(f, 9, ByUser(username), gap - WINDOW_SECONDS);
    FailuresRepeated(f, 9, ByIp(ip), gap - WINDOW_SECONDS);
  }

  lemma LockoutOfTen(username: string, ip: Option<string>, gap: int, now: int)
    requires Trim(username) == username && 0 < gap <= now <= WINDOW_SECONDS
    ensures var attempts := Repeated(Attempt(username, ip, false, 0), 9) + [Attempt(username, ip, false, gap)];
            Lockout(attempts, username, ip, now, now, 1) == if now < WINDOW_SECONDS then Some(gap + WINDOW_SECONDS - now) else None
  {
    var f, g := Attempt(username, ip, false, 0), Attempt(username, ip, false, gap);
    NineAndOne(f, g, ByUser(username), now - WINDOW_SECONDS);
    NineAndOne(f, g, ByIp(ip), now - WINDOW_SECONDS);
  }

  lemma NineAndOne(f: Attempt, g: Attempt, mine: Attempt -> bool, since: int)
    ensures Failures(Repeated(f, 9), mine, since) == if Counts(f, mine, since) then 9 else 0
    ensures Failures(Repeated(f, 9) + [g], mine, since) == (if Counts(f, mine, since) then 9 else 0) + if Counts(g, mine, since) then 1 else 0
    ensures Counts(g, mine, since) && f.at <= g.at ==> Latest(Repeated(f, 9) + [g], mine, since) == Some(g.at)
  {
    FailuresRepeated(f, 9, mine, since);
    assert (Repeated(f, 9) + [g])[..|Repeated(f, 9)|] == Repeated(f, 9);
  }

  // --------------------------------------------------------------------------
  // Guessing while locked out
  // --------------------------------------------------------------------------

  predicate Refused(attempts: seq<Attempt>, l: Login, second: nat)
    requires second > 0
  {
    Lockout(attempts, l.username, l.ip, l.asked, l.measured, second).Some?
  }

  // The requests that were not refused when their turn came.
  function Heard(attempts: seq<Attempt>, logins: seq<Login>, second: nat): seq<Login>
    requires second > 0
  {
    if logins == [] then []
    else
      var n := |logins| - 1;
      Heard(attempts, logins[..n], second) + if Refused(After(attempts, logins[..n], second), logins[n], second) then [] else [logins[n]]
  }

  // Refused requests leave no trace, wherever they stand among others: any
  // sequence of requests has the effect of those that were heard, none of which
  // is refused when the others are left out.
  lemma {:induction false} RefusalsLeaveNoTrace(attempts: seq<Attempt>, logins: seq<Login>, second: nat)
    requires second > 0
    ensures After(attempts, logins, second) == After(attempts, Heard(attempts, logins, second), second)
    ensures Heard(attempts, Heard(attempts, logins, second), second) == Heard(attempts, logins, second)
  {
    if logins != [] {
      var n := |logins| - 1;
      RefusalsLeaveNoTrace(attempts, logins[..n], second);
      var heard := Heard(attempts, logins[..n], second);
      if Refused(After(attempts, logins[..n], second), logins[n], second) {
        assert heard + [] == heard;
      } else {
        assert (heard + [logins[n]])[..|heard|] == heard;
      }
    }
  }

  lemma {:induction false} AfterConcat(attempts: seq<Attempt>, first: seq<Login>, more: seq<Login>, second: nat)
    requires second > 0
    ensures After(attempts, first + more, second) == After(After(attempts, first, second), more, second)
  {
    if more == [] {
      assert first + more == first;
    } else {
      var front, l := more[..|more| - 1], more[|more| - 1];
      assert more == front + [l];
      AfterConcat(attempts, first, front, second);
      AfterConcatStep(attempts, first, front, l, second);
    }
  }

  lemma AfterConcatStep(attempts: seq<Attempt>, first: seq<Login>, front: seq<Login>, l: Login, second: nat)
    requires second > 0 && After(attempts, first + front, second) == After(After(attempts, first, second), front, second)
    ensures After(attempts, first + (front + [l]), second) == After(After(attempts, first, second), front + [l], second)
  {
    AfterLast(attempts, first + front, l, second);
    AfterLast(After(attempts, first, second), front, l, second);
    assert first + (front + [l]) == first + front + [l];
  }

  lemma AfterLast(attempts: seq<Attempt>, logins: seq<Login>, l: Login, second: nat)
    requires second > 0
    ensures After(attempts, logins + [l], second) == Handled(After(attempts, logins, second), l, second).0
  {
    assert (logins + [l])[..|logins|] == logins;
  }

  // Guessing while locked out never prolongs the lockout, nor changes anything
  // else: however many guesses are refused in between, every later sign-in and
  // every later lockout is as if they had not been made.
  lemma GuessingChangesNothing(before: seq<Login>, guesses: seq<Login>, after: seq<Login>, second: nat)
    requires second > 0 && Heard(After([], before, second), guesses, second) == []
    ensures After([], before + guesses + after, second) == After([], before + after, second)
    ensures forall username, ip, asked, now ::
              Lockout(After([], before + guesses, second), username, ip, asked, now, second) ==
              Lockout(After([], before, second), username, ip, asked, now, second)
  {
    var s := After([], before, second);
    RefusalsLeaveNoTrace(s, guesses, second);
    AfterConcat([], before, guesses, second);
    AfterConcat([], before + guesses, after, second);
    AfterConcat([], before, after, second);
  }

  lemma {:induction false} ClearedUserHasNone(attempts: seq<Attempt>, username: string, since: int)
    ensures Failures(Cleared(attempts, username), ByUser(username), since) == 0
  {
    if attempts != [] {
      var n := |attempts| - 1;
      ClearedUserHasNone(attempts[..n], username, since);
      var front := Cleared(attempts[..n], username);
      assert (front + [attempts[n]])[..|front|] == front;
      assert front + [] == front;
    }
  }

  // After a successful sign-in the username starts from nothing.
  lemma SuccessStartsOver(attempts: seq<Attempt>, l: Login, second: nat, since: int)
    requires second > 0 && Handled(attempts, l, second).1.Welcome?
    ensures Failures(Handled(attempts, l, second).0, ByUser(Trim(l.username)), since) == 0
  {
    SuccessClears(attempts, Attempt(Trim(l.username), l.ip, true, l.recorded), since);
  }

  lemma SuccessClears(attempts: seq<Attempt>, a: Attempt, since: int)
    requires a.succeeded
    ensures Failures(Recorded(attempts, a), ByUser(a.username), since) == 0
  {
    ClearedUserHasNone(attempts + [a], a.username, since);
  }
}
