/**
 What the throttle remembers of a user: the failures recorded since that user last got in, or
 since they were last forgotten - and what each request adds to that or takes away.
 */
module SignInHistory {
  import opened Basics
  import opened SignInThrottle

  // ----- one request -----

  predicate LetIn(t: Table, r: Request) {
    WaitFor(t, r.user, r.now) == 0
  }

  predicate GetsIn(t: Table, r: Request) {
    LetIn(t, r) && r.attempt.Accepted?
  }

  // What a row says, if it still counts for anything.
  function Standing(t: Table, user: string, now: int): nat {
    if user in t && now - t[user].last <= FORGET && t[user].count >= 0 then t[user].count else 0
  }

  // The wait still owed is rounded up to whole seconds.
  lemma RemainingWaitIs(n: int, last: int, now: int)
    requires n > 0 && last <= now < last + RequiredWait(n) * SECOND
    ensures var r := RemainingWait(n, last, now);
            now + (r - 1) * SECOND < last + RequiredWait(n) * SECOND <= now + r * SECOND
  {
    RequiredWaitIs(n);
  }

  // Getting in clears the user's record and nobody else's.
  lemma SuccessClears(t: Table, r: Request)
    requires GetsIn(t, r)
    ensures Handled(t, r) == t - {r.user}
  {
  }

  // A failure adds one to what still counts. Of the others it drops what is past its time.
  lemma FailureAddsOne(t: Table, r: Request)
    requires Counts(t, r) && TableOk(t, r.now)
    ensures var t' := Handled(t, r);
            && r.user in t' && t'[r.user] == Failure(Standing(t, r.user, r.now) + 1, r.now)
            && forall u :: u != r.user ==>
                 (u in t' <==> u in t && r.now - t[u].last <= FORGET) && (u in t' ==> t'[u] == t[u])
  {
  }

  // Anything else - sent away too soon, or a switched-off account - changes nothing but that
  // a row past its time may go.
  lemma OtherwiseNothing(t: Table, r: Request)
    requires !Counts(t, r) && !GetsIn(t, r)
    ensures Handled(t, r) == if r.user in t && r.now - t[r.user].last > FORGET then t - {r.user} else t
  {
  }

  // A record lasts fifteen minutes to the nanosecond: after that the next failure is a first one.
  lemma ForgottenExactly(t: Table, r: Request)
    requires Counts(t, r) && TableOk(t, r.now) && r.user in t
    ensures Handled(t, r)[r.user] ==
            Failure(if r.now - t[r.user].last <= 900_000_000_000 then t[r.user].count + 1 else 1, r.now)
  {
  }

  // The waits after one failure, two, and so on.
  lemma Schedule(n: int)
    ensures RequiredWait(n) ==
            if n <= 0 then 0
            else if n == 1 then 1 else if n == 2 then 2 else if n == 3 then 4
            else if n == 4 then 8 else if n == 5 then 16 else if n == 6 then 32
            else 60
  {
    assert Pow2(0) == 1 && Pow2(1) == 2 && Pow2(2) == 4 && Pow2(3) == 8 && Pow2(4) == 16 && Pow2(5) == 32;
    if n >= 7 {
      RequiredWaitIs(n);
    }
  }

  // The first failure of a user without a record costs one second.
  lemma FirstFailureCostsASecond(t: Table, r: Request)
    requires r.user !in t && (r.attempt.WrongPassword? || r.attempt.NoAccount?)
    ensures var t' := Handled(t, r);
            && r.user in t' && t'[r.user] == Failure(1, r.now)
            && WaitFor(t', r.user, r.now) == 1 && WaitFor(t', r.user, r.now + SECOND) == 0
            && forall at :: r.now <= at < r.now + SECOND ==> WaitFor(t', r.user, at) > 0
  {
    RequiredWaitIs(1);
    assert Pow2(0) == 1;
    var t' := Handled(t, r);
    forall at | r.now <= at < r.now + SECOND ensures WaitFor(t', r.user, at) > 0 {
      RemainingWaitIs(1, r.now, at);
    }
  }

  // ----- whole histories -----

  // The moment of the latest failure recorded for a user.
  function LastFailure(rs: seq<Request>, user: string): Option<int> {
    if rs == [] then None
    else
      var init, last := rs[..|rs| - 1], rs[|rs| - 1];
      if last.user == user && Counts(Run(map[], init), last) then Some(last.now) else LastFailure(init, user)
  }

  // The failures recorded since the user last got in, or since more than fifteen minutes
  // went by after one.
  function Tally(rs: seq<Request>, user: string): nat {
    if rs == [] then 0
    else
      var init, last := rs[..|rs| - 1], rs[|rs| - 1];
      if last.user != user then Tally(init, user)
      else if GetsIn(Run(map[], init), last) then 0
      else if !Counts(Run(map[], init), last) then Tally(init, user)
      else if LastFailure(init, user).Some? && last.now - LastFailure(init, user).value <= FORGET
      then Tally(init, user) + 1
      else 1
  }

  // The row of a user, if there is one, says exactly that; if there is none, there is
  // nothing to say any more.
  ghost predicate Remembers(t: Table, user: string, tally: nat, last: Option<int>, now: int) {
    && TableOk(t, now)
    && (user in t ==> last.Some? && t[user] == Failure(tally, last.value))
    && (user !in t ==> tally == 0 || (last.Some? && now - last.value > FORGET))
  }

  lemma OwnRequest(t: Table, r: Request, tally: nat, last: Option<int>, now: int, tally': nat, last': Option<int>)
    requires Remembers(t, r.user, tally, last, now) && now <= r.now
    requires last' == if Counts(t, r) then Some(r.now) else last
    requires tally' == if GetsIn(t, r) then 0
                       else if !Counts(t, r) then tally
                       else if last.Some? && r.now - last.value <= FORGET then tally + 1 else 1
    requires last.Some? ==> last.value <= now
    ensures Remembers(Handled(t, r), r.user, tally', last', r.now)
  {
    HandledIsOk(t, r, now);
    if Counts(t, r) {
      FailureAddsOne(t, r);
    } else if GetsIn(t, r) {
      SuccessClears(t, r);
    } else {
      OtherwiseNothing(t, r);
    }
  }

  lemma OthersRequest(t: Table, r: Request, user: string, tally: nat, last: Option<int>, now: int)
    requires Remembers(t, user, tally, last, now) && now <= r.now && r.user != user
    ensures Remembers(Handled(t, r), user, tally, last, r.now)
  {
    HandledIsOk(t, r, now);
    if Counts(t, r) {
      FailureAddsOne(t, r);
    } else if GetsIn(t, r) {
      SuccessClears(t, r);
    } else {
      OtherwiseNothing(t, r);
    }
  }

  // In every history, whatever the other users do meanwhile.
  lemma {:induction false} TallyIsKept(rs: seq<Request>, user: string, from: int, to: int)
    requires Timed(rs, from, to)
    ensures var now := if rs == [] then from else rs[|rs| - 1].now;
            && Remembers(Run(map[], rs), user, Tally(rs, user), LastFailure(rs, user), now)
            && (LastFailure(rs, user).Some? ==> LastFailure(rs, user).value <= now)
  {
    if rs != [] {
      var init, r := rs[..|rs| - 1], rs[|rs| - 1];
      TallyIsKept(init, user, from, to);
      var now := if init == [] then from else init[|init| - 1].now;
      if r.user == user {
        OwnRequest(Run(map[], init), r, Tally(init, user), LastFailure(init, user), now,
                   Tally(rs, user), LastFailure(rs, user));
      } else {
        OthersRequest(Run(map[], init), r, user, Tally(init, user), LastFailure(init, user), now);
      }
    }
  }

  predicate FailsAt(rs: seq<Request>, user: string, i: nat)
    requires i < |rs|
  {
    rs[i].user == user && Counts(Run(map[], rs[..i]), rs[i])
  }

  predicate GetsInAt(rs: seq<Request>, user: string, i: nat)
    requires i < |rs|
  {
    rs[i].user == user && GetsIn(Run(map[], rs[..i]), rs[i])
  }

  lemma {:induction false} NothingSinceSuccess(rs: seq<Request>, user: string, a: nat, k: nat)
    requires a < k <= |rs| && GetsInAt(rs, user, a) && forall i :: a < i < k ==> !FailsAt(rs, user, i)
    ensures Tally(rs[..k], user) == 0
    decreases k
  {
    assert rs[..k][..k - 1] == rs[..k - 1];
    if a < k - 1 {
      NothingSinceSuccess(rs, user, a, k - 1);
      assert !FailsAt(rs, user, k - 1);
    }
  }

  // Whatever came before it, the first failure after a success is a first failure.
  lemma FirstAfterSuccess(rs: seq<Request>, user: string, from: int, to: int, a: nat, b: nat)
    requires Timed(rs, from, to) && a < b < |rs| && GetsInAt(rs, user, a) && FailsAt(rs, user, b)
    requires forall i :: a < i < b ==> !FailsAt(rs, user, i)
    ensures var t := Run(map[], rs[..b + 1]);
            user in t && t[user] == Failure(1, rs[b].now) && WaitFor(t, user, rs[b].now) == 1
  {
    NothingSinceSuccess(rs, user, a, b);
    assert rs[..b + 1][..b] == rs[..b];
    TallyIsKept(rs[..b + 1], user, from, to);
    FailureIsThere(Run(map[], rs[..b]), rs[b]);
    RequiredWaitIs(1);
    assert Pow2(0) == 1;
  }

  lemma FailureIsThere(t: Table, r: Request)
    requires Counts(t, r)
    ensures r.user in Handled(t, r)
  {
  }
}
