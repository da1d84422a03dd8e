// What the sign-in form answers, and what its table holds, told by the answers
// given so far: the login handler of src/web/routes.rs.
module LoginAnswers {
  import opened Base
  import opened Text
  import opened Throttle

  // --------------------------------------------------------------------------
  // The answer to one request
  // --------------------------------------------------------------------------

  // Failure `a` counts against request `l` under a limit that is used up.
  ghost predicate UsesUp(attempts: seq<Attempt>, l: Login, second: nat, mine: Attempt -> bool, limit: nat, a: Attempt) {
    var since := l.asked - 900 * second;
    a in attempts && Counts(a, mine, since) && Failures(attempts, mine, since) >= limit
  }

  // Ten failures of the username, or thirty from the address, within the
  // fifteen minutes before the request.
  ghost predicate Blocks(attempts: seq<Attempt>, l: Login, second: nat, a: Attempt) {
    || UsesUp(attempts, l, second, ByUser(Trim(l.username)), 10, a)
    || UsesUp(attempts, l, second, ByIp(l.ip), 30, a)
  }

  // What is left of the fifteen minutes after a failure.
  function Left(a: Attempt, l: Login, second: nat): int {
    a.at + 900 * second - l.measured
  }

  lemma {:induction false} LatestIsLatest(attempts: seq<Attempt>, mine: Attempt -> bool, since: int)
    ensures var last := Latest(attempts, mine, since);
            && (last.Some? ==> exists a | a in attempts && Counts(a, mine, since) :: a.at == last.value)
            && forall a | a in attempts && Counts(a, mine, since) :: last.Some? && a.at <= last.value
  {
    if attempts != [] {
      var n := |attempts| - 1;
      LatestIsLatest(attempts[..n], mine, since);
      assert attempts == attempts[..n] + [attempts[n]];
      assert attempts[n] in attempts;
    }
  }

  // A limit asks to wait for the whole seconds left after the latest failure
  // that uses it up, if at least one is left.
  lemma LimitTells(attempts: seq<Attempt>, l: Login, second: nat, mine: Attempt -> bool, limit: nat)
    requires second > 0
    ensures var wait := Limit(attempts, mine, limit, l.asked, l.measured, second);
            && (wait.Some? <==> exists a | UsesUp(attempts, l, second, mine, limit, a) :: Left(a, l, second) >= second)
            && (wait.Some? ==> wait.value > 0)
            && (wait.Some? ==> exists a | UsesUp(attempts, l, second, mine, limit, a) :: Left(a, l, second) >= wait.value * second)
            && (wait.Some? ==> forall a | UsesUp(attempts, l, second, mine, limit, a) :: Left(a, l, second) < (wait.value + 1) * second)
  {
    var since := l.asked - 900 * second;
    LatestIsLatest(attempts, mine, since);
    var last := Latest(attempts, mine, since);
    if Failures(attempts, mine, since) >= limit && last.Some? {
      var a :| a in attempts && Counts(a, mine, since) && a.at == last.value;
      assert UsesUp(attempts, l, second, mine, limit, a);
      if Left(a, l, second) >= second {
        SecondsLeft(Left(a, l, second), second);
      }
    }
  }

  lemma SecondsLeft(left: int, second: nat)
    requires 0 < second <= left
    ensures left / second > 0 && left / second * second <= left < (left / second + 1) * second
  {
    WholeSeconds(left, second);
    assert (left / second + 1) * second == left / second * second + second;
  }

  // Over every table: too many exactly if some blocking failure leaves at least
  // a second, and then for as many whole seconds as the latest of them leaves.
  // Otherwise the password decides, and only then.
  lemma AnswerTells(attempts: seq<Attempt>, l: Login, second: nat)
    requires second > 0
    ensures var answer := Handled(attempts, l, second).1;
            && (answer.TooMany? <==> exists a | Blocks(attempts, l, second, a) :: Left(a, l, second) >= second)
            && (answer.TooMany? ==> answer.seconds > 0)
            && (answer.TooMany? ==> exists a | Blocks(attempts, l, second, a) :: Left(a, l, second) >= answer.seconds * second)
            && (answer.TooMany? ==> forall a | Blocks(attempts, l, second, a) :: Left(a, l, second) < (answer.seconds + 1) * second)
            && (!answer.TooMany? ==> (answer.Welcome? <==> l.verdict.Right?))
            && (!answer.TooMany? ==> (answer.Denied? <==> l.verdict.Wrong?))
            && (!answer.TooMany? ==> (answer.Unavailable? <==> l.verdict.Broken?))
  {
    var user, address := ByUser(Trim(l.username)), ByIp(l.ip);
    LimitTells(attempts, l, second, user, 10);
    LimitTells(attempts, l, second, address, 30);
    var one := Limit(attempts, user, 10, l.asked, l.measured, second);
    var other := Limit(attempts, address, 30, l.asked, l.measured, second);
    assert Lockout(attempts, l.username, l.ip, l.asked, l.measured, second) == Longer(one, other);
    forall a | Blocks(attempts, l, second, a) && Longer(one, other).Some?
      ensures Left(a, l, second) < (Longer(one, other).value + 1) * second
    {
      LongerIsLonger(one, other, second);
      if UsesUp(attempts, l, second, user, 10, a) {
        NotBeyond(attempts, l, second, user, 10, a);
      } else {
        NotBeyond(attempts, l, second, address, 30, a);
      }
    }
    if one.Some? {
      var a :| UsesUp(attempts, l, second, user, 10, a) && Left(a, l, second) >= one.value * second;
      assert Blocks(attempts, l, second, a);
    }
    if other.Some? {
      var a :| UsesUp(attempts, l, second, address, 30, a) && Left(a, l, second) >= other.value * second;
      assert Blocks(attempts, l, second, a);
    }
  }

  lemma NotBeyond(attempts: seq<Attempt>, l: Login, second: nat, mine: Attempt -> bool, limit: nat, a: Attempt)
    requires second > 0 && UsesUp(attempts, l, second, mine, limit, a)
    ensures var wait := Limit(attempts, mine, limit, l.asked, l.measured, second);
            Left(a, l, second) < if wait.Some? then (wait.value + 1) * second else second
  {
    LimitTells(attempts, l, second, mine, limit);
  }

  lemma LongerIsLonger(a: Option<nat>, b: Option<nat>, second: nat)
    requires a.Some? || b.Some?
    ensures a.Some? ==> (a.value + 1) * second <= (Longer(a, b).value + 1) * second
    ensures b.Some? ==> (b.value + 1) * second <= (Longer(a, b).value + 1) * second
    ensures second <= (Longer(a, b).value + 1) * second
  {
    var n := Longer(a, b).value;
    Scaled(0, n, second);
    if a.Some? {
      Scaled(a.value, n, second);
    }
    if b.Some? {
      Scaled(b.value, n, second);
    }
  }

  lemma Scaled(m: nat, n: nat, second: nat)
    requires m <= n
    ensures (m + 1) * second <= (n + 1) * second
  {
  }

  // --------------------------------------------------------------------------
  // The table, told by the answers
  // --------------------------------------------------------------------------

  function Answers(attempts: seq<Attempt>, logins: seq<Login>, second: nat): (answers: seq<Answer>)
    requires second > 0
    ensures |answers| == |logins|
  {
    if logins == [] then []
    else
      var n := |logins| - 1;
      Answers(attempts, logins[..n], second) + [Handled(After(attempts, logins[..n], second), logins[n], second).1]
  }

  // Request `k` was a failure, and its username has not been let in since.
  ghost predicate Standing(logins: seq<Login>, answers: seq<Answer>, k: nat)
    requires k < |logins| == |answers|
  {
    && answers[k].Denied?
    && forall j | k < j < |logins| && answers[j].Welcome? :: Trim(logins[j].username) != Trim(logins[k].username)
  }

  ghost function RowAt(logins: seq<Login>, answers: seq<Answer>, k: nat): seq<Attempt>
    requires k < |logins| == |answers|
  {
    if answers[k].Welcome? || Standing(logins, answers, k)
    then [Attempt(Trim(logins[k].username), logins[k].ip, answers[k].Welcome?, logins[k].recorded)] else []
  }

  ghost function RowsAt(logins: seq<Login>, answers: seq<Answer>): (rows: seq<seq<Attempt>>)
    requires |logins| == |answers|
    ensures |rows| == |logins| && forall k | 0 <= k < |rows| :: rows[k] == RowAt(logins, answers, k)
  {
    seq(|logins|, k requires 0 <= k < |logins| => RowAt(logins, answers, k))
  }

  function Flat(rows: seq<seq<Attempt>>): seq<Attempt> {
    if rows == [] then [] else Flat(rows[..|rows| - 1]) + rows[|rows| - 1]
  }

  // One row for every success and for every standing failure, in order.
  ghost function Table(logins: seq<Login>, answers: seq<Answer>): seq<Attempt>
    requires |logins| == |answers|
  {
    Flat(RowsAt(logins, answers))
  }

  lemma StandsOn(logins: seq<Login>, answers: seq<Answer>, l: Login, answer: Answer, k: nat)
    requires k < |logins| == |answers|
    ensures Standing(logins + [l], answers + [answer], k) <==>
            Standing(logins, answers, k) && (answer.Welcome? ==> Trim(l.username) != Trim(logins[k].username))
  {
    var more, told := logins + [l], answers + [answer];
    assert more[|logins|] == l && told[|logins|] == answer;
    assert forall j | 0 <= j < |logins| :: more[j] == logins[j] && told[j] == answers[j];
  }

  // What becomes of one row when one more request is answered.
  ghost predicate RowFollows(row: seq<Attempt>, next: seq<Attempt>, welcome: bool, username: string) {
    |row| <= 1 && next == if welcome then Cleared(row, username) else row
  }

  lemma RowStays(logins: seq<Login>, answers: seq<Answer>, l: Login, answer: Answer, k: nat)
    requires k < |logins| == |answers|
    ensures RowFollows(RowAt(logins, answers, k), RowAt(logins + [l], answers + [answer], k), answer.Welcome?, Trim(l.username))
  {
    StandsOn(logins, answers, l, answer, k);
    assert (logins + [l])[k] == logins[k] && (answers + [answer])[k] == answers[k];
    var row := RowAt(logins, answers, k);
    if row != [] {
      assert row == [row[0]];
      ClearedOne(row[0], Trim(l.username));
    }
  }

  lemma {:induction false} FlatFollows(rows: seq<seq<Attempt>>, next: seq<seq<Attempt>>, welcome: bool, username: string)
    requires |rows| == |next| && forall k | 0 <= k < |rows| :: RowFollows(rows[k], next[k], welcome, username)
    ensures Flat(next) == if welcome then Cleared(Flat(rows), username) else Flat(rows)
  {
    if rows != [] {
      var n := |rows| - 1;
      FlatFollows(rows[..n], next[..n], welcome, username);
      assert RowFollows(rows[n], next[n], welcome, username);
      ClearedConcat(Flat(rows[..n]), rows[n], username);
    }
  }

  lemma ClearedConcat(front: seq<Attempt>, row: seq<Attempt>, username: string)
    requires |row| <= 1
    ensures Cleared(front + row, username) == Cleared(front, username) + Cleared(row, username)
  {
    if row == [] {
      NothingAdded(front);
      NothingAdded(Cleared(front, username));
    } else {
      var last := row[0];
      assert row == [last];
      ClearedSnoc(front, last, username);
      ClearedOne(last, username);
    }
  }

  lemma ClearedOne(row: Attempt, username: string)
    ensures Cleared([row], username) == if row.username == username && !row.succeeded then [] else [row]
  {
    assert [row][..0] == [];
  }

  lemma ClearedSnoc(front: seq<Attempt>, row: Attempt, username: string)
    ensures Cleared(front + [row], username) ==
            Cleared(front, username) + if row.username == username && !row.succeeded then [] else [row]
  {
    assert (front + [row])[..|front|] == front;
  }

  ghost predicate ToldByAnswers(logins: seq<Login>, second: nat)
    requires second > 0
  {
    After([], logins, second) == Table(logins, Answers([], logins, second))
  }

  // Over every history: the table holds the successes, and the failures whose
  // username has not been let in since. Nothing that was refused, or went
  // wrong, is in it, and no one's success clears another's failures.
  lemma {:induction false} TableFromAnswers(logins: seq<Login>, second: nat)
    requires second > 0
    ensures ToldByAnswers(logins, second)
  {
    if logins == [] {
      NothingTold(second);
    } else {
      var n := |logins| - 1;
      TableFromAnswers(logins[..n], second);
      TableGrows(logins[..n], logins[n], second);
      assert logins == logins[..n] + [logins[n]];
    }
  }

  lemma NothingTold(second: nat)
    requires second > 0
    ensures ToldByAnswers([], second)
  {
  }

  lemma TableGrows(front: seq<Login>, l: Login, second: nat)
    requires second > 0 && ToldByAnswers(front, second)
    ensures ToldByAnswers(front + [l], second)
  {
    var answers := Answers([], front, second);
    var answer := Handled(After([], front, second), l, second).1;
    AnswersSnoc([], front, l, second);
    AfterLast([], front, l, second);
    LastRow(front, answers, l, answer);
    RowsAfter(After([], front, second), l, second);
  }

  lemma AnswersSnoc(attempts: seq<Attempt>, front: seq<Login>, l: Login, second: nat)
    requires second > 0
    ensures Answers(attempts, front + [l], second) ==
            Answers(attempts, front, second) + [Handled(After(attempts, front, second), l, second).1]
  {
    assert (front + [l])[..|front|] == front;
  }

  // What one request does to the rows, by its answer.
  lemma RowsAfter(attempts: seq<Attempt>, l: Login, second: nat)
    requires second > 0
    ensures var (next, answer) := Handled(attempts, l, second);
            var row := Attempt(Trim(l.username), l.ip, answer.Welcome?, l.recorded);
            next == (if answer.Welcome? then Cleared(attempts, Trim(l.username)) else attempts) +
                    (if answer.Welcome? || answer.Denied? then [row] else [])
  {
    ClearedSnoc(attempts, Attempt(Trim(l.username), l.ip, true, l.recorded), Trim(l.username));
    assert attempts + [] == attempts;
  }

  // One more answer clears the earlier rows of its username, or leaves them,
  // and adds its own.
  lemma LastRow(front: seq<Login>, answers: seq<Answer>, l: Login, answer: Answer)
    requires |front| == |answers|
    ensures Table(front + [l], answers + [answer]) ==
            (if answer.Welcome? then Cleared(Table(front, answers), Trim(l.username)) else Table(front, answers)) +
            (if answer.Welcome? || answer.Denied? then [Attempt(Trim(l.username), l.ip, answer.Welcome?, l.recorded)] else [])
  {
    var logins, told, n := front + [l], answers + [answer], |front|;
    var rows, next := RowsAt(front, answers), RowsAt(logins, told);
    forall k | 0 <= k < n ensures RowFollows(rows[k], next[..n][k], answer.Welcome?, Trim(l.username)) {
      RowStays(front, answers, l, answer, k);
    }
    FlatFollows(rows, next[..n], answer.Welcome?, Trim(l.username));
    assert logins[n] == l && told[n] == answer;
    assert Standing(logins, told, n) <==> answer.Denied?;
  }

  // --------------------------------------------------------------------------
  // Waiting, and guessing instead
  // --------------------------------------------------------------------------

  // After a refusal, the same username and address are not refused again once
  // the seconds they were told have passed, however often they, or others,
  // were refused meanwhile.
  lemma WaitedEnough(logins: seq<Login>, l: Login, guesses: seq<Login>, again: Login, second: nat)
    requires second > 0 && Handled(After([], logins, second), l, second).1.TooMany?
    requires Heard(After([], logins, second), guesses, second) == []
    requires Trim(again.username) == Trim(l.username) && again.ip == l.ip && l.asked <= again.asked
    requires l.measured + Handled(After([], logins, second), l, second).1.seconds * second <= again.measured
    ensures !Handled(After([], logins + [l] + guesses, second), again, second).1.TooMany?
  {
    var attempts := After([], logins, second);
    RefusedThenGuesses(logins, l, guesses, second);
    WaitingUnlocks(attempts, l.username, l.ip, l.asked, l.measured, second, again.asked, again.measured);
  }

  lemma RefusedThenGuesses(logins: seq<Login>, l: Login, guesses: seq<Login>, second: nat)
    requires second > 0 && Handled(After([], logins, second), l, second).1.TooMany?
    requires Heard(After([], logins, second), guesses, second) == []
    ensures After([], logins + [l] + guesses, second) == After([], logins, second)
  {
    AfterLast([], logins, l, second);
    AfterConcat([], logins + [l], guesses, second);
    RefusalsLeaveNoTrace(After([], logins, second), guesses, second);
  }

  function NotRefusals(answers: seq<Answer>): seq<Answer> {
    if answers == [] then []
    else
      var n := |answers| - 1;
      NotRefusals(answers[..n]) + if answers[n].TooMany? then [] else [answers[n]]
  }

  // Refused requests take nothing from the others: leave them out, and the
  // rest are answered as they were.
  lemma {:induction false} HeardAreAnsweredAlike(attempts: seq<Attempt>, logins: seq<Login>, second: nat)
    requires second > 0
    ensures Answers(attempts, Heard(attempts, logins, second), second) == NotRefusals(Answers(attempts, logins, second))
  {
    if logins != [] {
      var n := |logins| - 1;
      HeardAreAnsweredAlike(attempts, logins[..n], second);
      RefusalsLeaveNoTrace(attempts, logins[..n], second);
      AnswersSnoc(attempts, Heard(attempts, logins[..n], second), logins[n], second);
      NotRefusalsSnoc(Answers(attempts, logins[..n], second), Handled(After(attempts, logins[..n], second), logins[n], second).1);
      NothingAdded(Heard(attempts, logins[..n], second));
    }
  }

  lemma NotRefusalsSnoc(answers: seq<Answer>, answer: Answer)
    ensures NotRefusals(answers + [answer]) == NotRefusals(answers) + if answer.TooMany? then [] else [answer]
  {
    assert (answers + [answer])[..|answers|] == answers;
  }

  lemma NothingAdded<T>(s: seq<T>)
    ensures s + [] == s
  {
  }
}
