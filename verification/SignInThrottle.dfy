/**
 The progressive delay on failed sign-ins: the wait owed after n failures, the table that
 keeps the counts, and how many failures it lets through in any stretch of time.
 */
module SignInThrottle {

  // Time is counted in nanoseconds.
  const SECOND: int := 1_000_000_000
  const FORGET: int := 900 * SECOND

  // ----- the wait owed -----

  function Pow2(n: nat): (r: int)
    ensures r >= 1
  {
    if n == 0 then 1 else 2 * Pow2(n - 1)
  }

  // In seconds; the shift is cut off at 30 before the cap is applied.
  function RequiredWait(n: int): int {
    if n <= 0 then 0
    else
      var shift := if n - 1 > 30 then 30 else n - 1;
      if Pow2(shift) > 60 then 60 else Pow2(shift)
  }

  lemma {:induction false} Pow2Grows(m: nat, n: nat)
    requires m <= n
    ensures Pow2(m) <= Pow2(n)
  {
    if m < n {
      Pow2Grows(m, n - 1);
    }
  }

  // The schedule the source promises, for every count: min(60, 2^(n-1)) seconds.
  lemma RequiredWaitIs(n: int)
    requires n >= 1
    ensures RequiredWait(n) == if Pow2(n - 1) <= 60 then Pow2(n - 1) else 60
    ensures n >= 7 ==> RequiredWait(n) == 60
  {
    assert Pow2(6) == 64;
    if n >= 7 {
      Pow2Grows(6, n - 1);
      Pow2Grows(6, if n - 1 > 30 then 30 else n - 1);
    }
  }

  function CeilSeconds(d: int): int {
    if d % SECOND == 0 then d / SECOND else d / SECOND + 1
  }

  // What is still to be waited, in whole seconds and never more than 60. It is nothing
  // exactly when the required wait has passed.
  function RemainingWait(n: int, last: int, now: int): (r: int)
    ensures 0 <= r <= 60
    ensures n > 0 ==> (r == 0 <==> now - last >= RequiredWait(n) * SECOND)
  {
    if n <= 0 then 0
    else
      var remaining := RequiredWait(n) * SECOND - (now - last);
      if remaining <= 0 then 0
      else if CeilSeconds(remaining) > 60 then 60
      else CeilSeconds(remaining)
  }

  // ----- the table -----

  datatype Failure = Failure(count: int, last: int)

  type Table = map<string, Failure>

  // A row past its time counts for nothing, and is deleted when it is looked at.
  function Consulted(t: Table, user: string, now: int): Table {
    if user in t && now - t[user].last > FORGET then t - {user} else t
  }

  function WaitFor(t: Table, user: string, now: int): int {
    if user !in t || now - t[user].last > FORGET then 0 else RemainingWait(t[user].count, t[user].last, now)
  }

  function Swept(t: Table, now: int): Table {
    map u | u in t && t[u].last >= now - FORGET :: t[u]
  }

  function Recorded(t: Table, user: string, now: int): Table {
    var s := Swept(t, now);
    s[user := Failure(if user in s then s[user].count + 1 else 1, now)]
  }

  // ----- one sign-in request -----

  // What the account table says: no such account, a wrong password, an account that is
  // switched off, or all in order.
  datatype Attempt = NoAccount | WrongPassword | Inactive | Accepted

  datatype Request = Request(user: string, now: int, attempt: Attempt)

  // Whether this request adds a failure for its user.
  predicate Counts(t: Table, r: Request) {
    WaitFor(t, r.user, r.now) == 0 && (r.attempt.NoAccount? || r.attempt.WrongPassword?)
  }

  // A switched-off account neither records a failure nor clears the record.
  function Handled(t: Table, r: Request): Table {
    var c := Consulted(t, r.user, r.now);
    if WaitFor(t, r.user, r.now) > 0 then c
    else
      match r.attempt
      case NoAccount => Recorded(c, r.user, r.now)
      case WrongPassword => Recorded(c, r.user, r.now)
      case Inactive => c
      case Accepted => c - {r.user}
  }

  function Run(t: Table, rs: seq<Request>): Table {
    if rs == [] then t else Handled(Run(t, rs[..|rs| - 1]), rs[|rs| - 1])
  }

  // The failures recorded for one user along a run.
  function Failures(t: Table, rs: seq<Request>, user: string): nat {
    if rs == [] then 0
    else
      var last := rs[|rs| - 1];
      Failures(t, rs[..|rs| - 1], user) +
      (if last.user == user && Counts(Run(t, rs[..|rs| - 1]), last) then 1 else 0)
  }

  // One clock, never turned back, with every request between `from` and `to`.
  ghost predicate Timed(rs: seq<Request>, from: int, to: int) {
    && from <= to
    && (forall i :: 0 <= i < |rs| ==> from <= rs[i].now <= to)
    && (forall i, j :: 0 <= i < j < |rs| ==> rs[i].now <= rs[j].now)
  }

  // No request of this user got through.
  ghost predicate NoSuccess(t: Table, rs: seq<Request>, user: string) {
    forall i :: 0 <= i < |rs| && rs[i].user == user && rs[i].attempt.Accepted? ==>
      WaitFor(Run(t, rs[..i]), user, rs[i].now) > 0
  }

  // ----- the bound -----

  // How many seconds' worth of failures a count of n has had in advance, at one a minute.
  function Advance(n: int): (r: int)
    requires n >= 1
    ensures 60 <= r <= 357
  {
    if n == 1 then 60 else if n == 2 then 119 else if n == 3 then 177 else if n == 4 then 233
    else if n == 5 then 285 else if n == 6 then 329 else 357
  }

  lemma AdvanceStep(n: int)
    requires n >= 1
    ensures Advance(n + 1) + RequiredWait(n) == Advance(n) + 60
  {
    RequiredWaitIs(n);
    assert Pow2(0) == 1 && Pow2(1) == 2 && Pow2(2) == 4 && Pow2(3) == 8 && Pow2(4) == 16 && Pow2(5) == 32;
  }

  // Rows a run can have made by the time `now`.
  ghost predicate TableOk(t: Table, now: int) {
    forall u :: u in t ==> t[u].count >= 1 && t[u].last <= now
  }

  // The book kept on one user over a window that began at `from`: so many failures, the
  // latest at `last`, and they are paid for - by the time since `from` and the advance of
  // the present count, or by the time since alone if the row has been forgotten.
  ghost predicate Booked(t: Table, user: string, now: int, from: int, failures: nat, last: int) {
    TableOk(t, now) && from <= now &&
    (failures > 0 ==>
      && from <= last <= now
      && if user in t
           then t[user].last == last && 60 * failures * SECOND <= (last - from) + Advance(t[user].count) * SECOND
         else now - last >= FORGET && 60 * failures * SECOND <= (last - from) + 357 * SECOND)
  }

  lemma FailureIsBooked(t: Table, user: string, now: int, from: int, failures: nat, last: int, later: int)
    requires Booked(t, user, now, from, failures, last) && now <= later && WaitFor(t, user, later) == 0
    ensures Booked(Recorded(Consulted(t, user, later), user, later), user, later, from, failures + 1, later)
  {
    var t' := Recorded(Consulted(t, user, later), user, later);
    assert forall u :: u in t' ==> u == user || (u in t && t'[u] == t[u]);
    if user in t && later - t[user].last <= FORGET {
      AdvanceStep(t[user].count);
      assert t'[user] == Failure(t[user].count + 1, later);
    } else {
      assert t'[user] == Failure(1, later);
    }
  }

  lemma OthersAreBooked(t: Table, user: string, now: int, from: int, failures: nat, last: int, later: int, t': Table)
    requires Booked(t, user, now, from, failures, last) && now <= later && TableOk(t', later)
    requires user in t' ==> user in t && t'[user] == t[user]
    requires user in t && user !in t' && failures > 0 ==> later - t[user].last >= FORGET
    ensures Booked(t', user, later, from, failures, last)
  {
  }

  lemma HandledIsOk(t: Table, r: Request, now: int)
    requires TableOk(t, now) && now <= r.now
    ensures TableOk(Handled(t, r), r.now)
  {
  }

  lemma RequestIsBooked(t: Table, user: string, now: int, from: int, failures: nat, last: int, r: Request)
    requires Booked(t, user, now, from, failures, last) && now <= r.now
    requires r.user == user && r.attempt.Accepted? ==> WaitFor(t, user, r.now) > 0
    ensures var counts := r.user == user && Counts(t, r);
            Booked(Handled(t, r), user, r.now, from, failures + (if counts then 1 else 0),
              if counts then r.now else last)
  {
    HandledIsOk(t, r, now);
    if r.user == user && Counts(t, r) {
      FailureIsBooked(t, user, now, from, failures, last, r.now);
    } else {
      OthersAreBooked(t, user, now, from, failures, last, r.now, Handled(t, r));
    }
  }

  lemma NoSuccessBefore(t: Table, rs: seq<Request>, user: string, n: nat)
    requires n <= |rs| && NoSuccess(t, rs, user)
    ensures NoSuccess(t, rs[..n], user)
  {
    forall i | 0 <= i < n && rs[..n][i].user == user && rs[..n][i].attempt.Accepted?
      ensures WaitFor(Run(t, rs[..n][..i]), user, rs[..n][i].now) > 0
    {
      assert rs[..n][..i] == rs[..i];
    }
  }

  lemma {:induction false} RunIsBooked(t: Table, rs: seq<Request>, user: string, from: int, to: int) returns (last: int)
    requires TableOk(t, from) && Timed(rs, from, to) && NoSuccess(t, rs, user)
    ensures Booked(Run(t, rs), user, if rs == [] then from else rs[|rs| - 1].now, from, Failures(t, rs, user), last)
  {
    if rs == [] {
      last := from;
    } else {
      var n := |rs| - 1;
      var init, r := rs[..n], rs[n];
      NoSuccessBefore(t, rs, user, n);
      last := RunIsBooked(t, init, user, from, to);
      var now := if init == [] then from else init[n - 1].now;
      RequestIsBooked(Run(t, init), user, now, from, Failures(t, init, user), last, r);
      last := if r.user == user && Counts(Run(t, init), r) then r.now else last;
    }
  }

  lemma {:induction false} ReachableTablesAreOk(rs: seq<Request>, from: int, to: int)
    requires Timed(rs, from, to)
    ensures TableOk(Run(map[], rs), if rs == [] then from else rs[|rs| - 1].now)
  {
    if rs != [] {
      ReachableTablesAreOk(rs[..|rs| - 1], from, to);
      HandledIsOk(Run(map[], rs[..|rs| - 1]), rs[|rs| - 1],
                  if |rs| == 1 then from else rs[|rs| - 2].now);
    }
  }

  // After any history, in any window in which one user does not get in - whatever the others
  // do meanwhile, and counting the fifteen-minute forgetting - the failures recorded for
  // that user come to less than six and one a minute.
  lemma FailuresAreBounded(history: seq<Request>, window: seq<Request>, user: string, start: int, from: int, to: int)
    requires Timed(history, start, from) && Timed(window, from, to)
    requires NoSuccess(Run(map[], history), window, user)
    ensures 60 * Failures(Run(map[], history), window, user) * SECOND <= (to - from) + 357 * SECOND
  {
    ReachableTablesAreOk(history, start, from);
    var t := Run(map[], history);
    assert TableOk(t, from);
    var last := RunIsBooked(t, window, user, from, to);
  }

  // ----- and it is tight -----

  // The moment of the n-th failure of somebody who never waits longer than asked.
  function Moment(n: nat): int
    requires n >= 1
  {
    if n == 1 then 0 else Moment(n - 1) + RequiredWait(n - 1) * SECOND
  }

  function Impatient(user: string, n: nat): seq<Request> {
    if n == 0 then [] else Impatient(user, n - 1) + [Request(user, Moment(n), WrongPassword)]
  }

  lemma {:induction false} MomentIs(n: nat)
    requires n >= 1
    ensures Moment(n) == (60 * n - Advance(n)) * SECOND
  {
    if n > 1 {
      MomentIs(n - 1);
      AdvanceStep(n - 1);
    }
  }

  // Each of those attempts is let in and recorded, so for every n the bound is met exactly.
  lemma {:induction false} ImpatientIsRecorded(user: string, n: nat)
    ensures |Impatient(user, n)| == n && Failures(map[], Impatient(user, n), user) == n
    ensures Run(map[], Impatient(user, n)) == if n == 0 then map[] else map[user := Failure(n, Moment(n))]
  {
    if n > 0 {
      var rs := Impatient(user, n);
      ImpatientIsRecorded(user, n - 1);
      assert rs[..n - 1] == Impatient(user, n - 1) && rs[n - 1] == Request(user, Moment(n), WrongPassword);
      NextIsRecorded(user, n, if n == 1 then map[] else map[user := Failure(n - 1, Moment(n - 1))]);
    }
  }

  lemma NextIsRecorded(user: string, n: nat, t: Table)
    requires n >= 1 && t == if n == 1 then map[] else map[user := Failure(n - 1, Moment(n - 1))]
    ensures var r := Request(user, Moment(n), WrongPassword);
            Counts(t, r) && Handled(t, r) == map[user := Failure(n, Moment(n))]
  {
    if n > 1 {
      RequiredWaitIs(n - 1);
      assert Swept(t, Moment(n)) == t;
    }
  }

  lemma {:induction false} MomentsGrow(i: nat, j: nat)
    requires 1 <= i <= j
    ensures 0 <= Moment(i) <= Moment(j)
    decreases j
  {
    if i < j {
      MomentsGrow(i, j - 1);
      RequiredWaitIs(j - 1);
    } else if i > 1 {
      MomentsGrow(i - 1, i - 1);
      RequiredWaitIs(i - 1);
    }
  }

  lemma {:induction false} ImpatientAt(user: string, n: nat, i: nat)
    requires i < n
    ensures |Impatient(user, n)| == n && Impatient(user, n)[i] == Request(user, Moment(i + 1), WrongPassword)
  {
    if i < n - 1 {
      ImpatientAt(user, n - 1, i);
    } else if n > 1 {
      ImpatientAt(user, n - 1, 0);
    }
  }

  lemma ImpatientIsTimed(user: string, n: nat)
    requires n >= 1
    ensures Timed(Impatient(user, n), 0, Moment(n)) && NoSuccess(map[], Impatient(user, n), user)
  {
    var rs := Impatient(user, n);
    ImpatientAt(user, n, 0);
    MomentsGrow(1, n);
    forall i | 0 <= i < |rs| ensures 0 <= rs[i].now <= Moment(n) && rs[i].attempt.WrongPassword? {
      ImpatientAt(user, n, i);
      MomentsGrow(i + 1, n);
    }
    forall i, j | 0 <= i < j < |rs| ensures rs[i].now <= rs[j].now {
      ImpatientAt(user, n, i);
      ImpatientAt(user, n, j);
      MomentsGrow(i + 1, j + 1);
    }
  }

  lemma TightCount(n: nat, failures: nat)
    requires n >= 7 && failures == n && Moment(n) == (60 * n - 357) * SECOND
    ensures 60 * failures * SECOND == (Moment(n) - 0) + 357 * SECOND
  {
  }

  lemma TightRun(user: string, n: nat, t: Table)
    requires n >= 1 && t == map[]
    ensures Timed(Impatient(user, n), 0, Moment(n)) && NoSuccess(t, Impatient(user, n), user)
    ensures Failures(t, Impatient(user, n), user) == n
  {
    ImpatientIsTimed(user, n);
    ImpatientIsRecorded(user, n);
  }

  // A run the bound speaks of - of one clock, without a success - that meets it exactly.
  lemma TheBoundIsTight(user: string, n: nat)
    requires n >= 7
    ensures Timed(Impatient(user, n), 0, Moment(n)) && NoSuccess(Run(map[], []), Impatient(user, n), user)
    ensures 60 * Failures(Run(map[], []), Impatient(user, n), user) * SECOND == (Moment(n) - 0) + 357 * SECOND
    ensures Failures(map[], Impatient(user, n), user) == n
  {
    TightRun(user, n, Run(map[], []));
    MomentIs(n);
    TightCount(n, Failures(Run(map[], []), Impatient(user, n), user));
  }

  // ----- the code -----

  class DelaySchedule {
    var table: Table

    constructor ()
      ensures table == map[]
    {
      table := map[];
    }

    method Consult(user: string, now: int) returns (wait: int)
      modifies this
      ensures wait == WaitFor(old(table), user, now) && table == Consulted(old(table), user, now)
    {
      if user !in table {
        return 0;
      }
      var row := table[user];
      if now - row.last > FORGET {
        table := table - {user};
        return 0;
      }
      wait := RemainingWait(row.count, row.last, now);
    }

    method RecordFailure(user: string, now: int)
      modifies this
      ensures table == Recorded(old(table), user, now)
    {
      table := map u | u in table && table[u].last >= now - FORGET :: table[u];
      if user in table {
        table := table[user := Failure(table[user].count + 1, now)];
      } else {
        table := table[user := Failure(1, now)];
      }
    }

    method Reset(user: string)
      modifies this
      ensures table == old(table) - {user}
    {
      table := table - {user};
    }
  }
}
