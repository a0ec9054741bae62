/**
 The sign-in request: the delay consulted, the account and the password checked, a session
 issued, and what is written to the audit log.
 */
module SignIn {
  import opened Basics
  import Throttle = SignInThrottle
  import Sessions

  datatype Account = Account(id: Sessions.AccountId, active: bool)

  datatype Answer = TooSoon(wait: int) | Refused | SignedIn(session: Sessions.SessionId)

  datatype Entry = UnknownUser(user: string) | BadPassword(id: Sessions.AccountId)
    | Deactivated(id: Sessions.AccountId) | Succeeded(id: Sessions.AccountId)

  // What the account table and the password check come to.
  function AttemptOf(account: Option<Account>, passwordOk: bool): Throttle.Attempt {
    if account.None? then Throttle.NoAccount
    else if !passwordOk then Throttle.WrongPassword
    else if !account.value.active then Throttle.Inactive
    else Throttle.Accepted
  }

  function EntryOf(user: string, account: Option<Account>, passwordOk: bool): Entry {
    if account.None? then UnknownUser(user)
    else if !passwordOk then BadPassword(account.value.id)
    else if !account.value.active then Deactivated(account.value.id)
    else Succeeded(account.value.id)
  }

  // What the audit row says follows the order of the checks, and only the last says "succeeded".
  lemma EntriesAre(user: string, account: Option<Account>, passwordOk: bool)
    ensures var e := EntryOf(user, account, passwordOk);
            && (account.None? ==> e == UnknownUser(user))
            && (account.Some? && !passwordOk ==> e == BadPassword(account.value.id))
            && (account.Some? && passwordOk && !account.value.active ==> e == Deactivated(account.value.id))
            && (account.Some? && passwordOk && account.value.active ==> e == Succeeded(account.value.id))
  {
  }

  lemma IssuedIsFound(table: Sessions.Table, id: Sessions.SessionId, account: Sessions.AccountId,
      hash: Sessions.TokenHash, now: int)
    requires id !in table && forall other :: other in table ==> table[other].hash != hash
    ensures Sessions.Lookup(Sessions.Next(table, Sessions.Issue(id, account, hash, now)), hash, now) == Some(id)
  {
    var after := Sessions.Next(table, Sessions.Issue(id, account, hash, now));
    assert Sessions.Carries(after, id, hash) && Sessions.Live(after[id], now);
  }

  class Handler {
    const delay: Throttle.DelaySchedule
    const sessions: Sessions.SessionTable
    var log: seq<Entry>

    constructor (delay: Throttle.DelaySchedule, sessions: Sessions.SessionTable)
      ensures this.delay == delay && this.sessions == sessions && log == []
    {
      this.delay, this.sessions, log := delay, sessions, [];
    }

    // The wait first, then the account, the password, and last whether the account is active.
    // A request sent away too soon leaves no trace; any other leaves one row.
    method HandleSignIn(user: string, now: int, account: Option<Account>, passwordOk: bool,
                        id: Sessions.SessionId, hash: Sessions.TokenHash)
      returns (answer: Answer)
      requires id !in sessions.table && forall other :: other in sessions.table ==> sessions.table[other].hash != hash
      modifies this, delay, sessions
      ensures var wait := Throttle.WaitFor(old(delay.table), user, now);
              answer == if wait > 0 then TooSoon(wait)
                        else if account.Some? && passwordOk && account.value.active then SignedIn(id)
                        else Refused
      ensures delay.table ==
              Throttle.Handled(old(delay.table), Throttle.Request(user, now, AttemptOf(account, passwordOk)))
      ensures log == old(log) + if answer.TooSoon? then [] else [EntryOf(user, account, passwordOk)]
      ensures if answer.SignedIn?
              then sessions.table == Sessions.Next(old(sessions.table), Sessions.Issue(id, account.value.id, hash, now))
              else sessions.table == old(sessions.table)
      ensures answer.SignedIn? ==> Sessions.Lookup(sessions.table, hash, now) == Some(id)
      ensures answer.SignedIn? ==> user !in delay.table && delay.table == old(delay.table) - {user}
      ensures answer == Refused && !(account.Some? && passwordOk) ==>
                && user in delay.table && delay.table[user].last == now
                && (user !in old(delay.table) ==> delay.table[user].count == 1)
    {
      var wait := delay.Consult(user, now);
      if wait > 0 {
        return TooSoon(wait);
      }
      if account.None? {
        delay.RecordFailure(user, now);
        log := log + [UnknownUser(user)];
        return Refused;
      }
      if !passwordOk {
        delay.RecordFailure(user, now);
        log := log + [BadPassword(account.value.id)];
        return Refused;
      }
      if !account.value.active {
        log := log + [Deactivated(account.value.id)];
        return Refused;
      }
      IssuedIsFound(sessions.table, id, account.value.id, hash, now);
      sessions.IssueSession(id, account.value.id, hash, now);
      delay.Reset(user);
      log := log + [Succeeded(account.value.id)];
      answer := SignedIn(id);
    }
  }
}
