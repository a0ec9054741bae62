/**
 Sign-in sessions: issued, looked up and touched, revoked, and swept. The sweeper only
 removes what no request could use any more, so no answer ever depends on it.
 */
module Sessions {
  import opened Basics

  type SessionId = nat
  type AccountId = nat
  type TokenHash = nat   // the SHA-256 that stands for a token

  // Time is counted in nanoseconds.
  const MINUTE: int := 60_000_000_000
  const IDLE: int := 30 * MINUTE
  const LIFETIME: int := 480 * MINUTE

  datatype Session = Session(account: AccountId, hash: TokenHash, createdAt: int, lastSeen: int, revoked: bool)

  type Table = map<SessionId, Session>

  predicate Live(s: Session, now: int) {
    !s.revoked && now - s.lastSeen <= IDLE && now - s.createdAt <= LIFETIME
  }

  // Half an hour without a request, or eight hours in all, to the nanosecond.
  lemma LiveIs(s: Session, now: int)
    ensures Live(s, now) <==>
            !s.revoked && now <= s.lastSeen + 1_800_000_000_000 && now <= s.createdAt + 28_800_000_000_000
  {
  }

  // At most one row has a given token: the unique constraint.
  ghost predicate Unique(t: Table) {
    forall a, b :: a in t && b in t && t[a].hash == t[b].hash ==> a == b
  }

  ghost predicate Carries(t: Table, id: SessionId, hash: TokenHash) {
    id in t && t[id].hash == hash
  }

  // The live session of a token.
  ghost function Lookup(t: Table, hash: TokenHash, now: int): Option<SessionId> {
    if exists id :: Carries(t, id, hash) && Live(t[id], now) then
      var id :| Carries(t, id, hash) && Live(t[id], now);
      Some(id)
    else None
  }

  // ----- steps -----

  // A request looks its session up and touches it in one transaction.
  datatype Step =
    | Issue(id: SessionId, account: AccountId, hash: TokenHash, now: int)
    | Request(hash: TokenHash, now: int)
    | SignOut(id: SessionId, now: int)
    | RevokeAll(account: AccountId, now: int)
    | Sweep(now: int)

  function Touched(t: Table, id: SessionId, now: int): Table {
    if id in t && !t[id].revoked then t[id := t[id].(lastSeen := now)] else t
  }

  function Revoked(t: Table, id: SessionId): Table {
    if id in t then t[id := t[id].(revoked := true)] else t
  }

  function AllRevoked(t: Table, account: AccountId): Table {
    map id | id in t :: if t[id].account == account then t[id].(revoked := true) else t[id]
  }

  function Swept(t: Table, now: int): Table {
    map id | id in t && !t[id].revoked && !(t[id].lastSeen < now - IDLE) && !(t[id].createdAt < now - LIFETIME) :: t[id]
  }

  ghost function Next(t: Table, step: Step): Table {
    match step
    case Issue(id, account, hash, now) => t[id := Session(account, hash, now, now, false)]
    case Request(hash, now) =>
      var found := Lookup(t, hash, now);
      if found.Some? then Touched(t, found.value, now) else t
    case SignOut(id, _) => Revoked(t, id)
    case RevokeAll(account, _) => AllRevoked(t, account)
    case Sweep(now) => Swept(t, now)
  }

  ghost function Run(t: Table, steps: seq<Step>): Table {
    if steps == [] then t else Next(Run(t, steps[..|steps| - 1]), steps[|steps| - 1])
  }

  // What the requests of a run are told, in order.
  ghost function Answers(t: Table, steps: seq<Step>): seq<Option<SessionId>> {
    if steps == [] then []
    else
      var init, last := steps[..|steps| - 1], steps[|steps| - 1];
      Answers(t, init) + if last.Request? then [Lookup(Run(t, init), last.hash, last.now)] else []
  }

  function Unswept(steps: seq<Step>): seq<Step> {
    if steps == [] then []
    else
      var init, last := steps[..|steps| - 1], steps[|steps| - 1];
      if last.Sweep? then Unswept(init) else Unswept(init) + [last]
  }

  // One clock, never turned back.
  ghost predicate Timed(steps: seq<Step>) {
    forall i, j :: 0 <= i < j < |steps| ==> steps[i].now <= steps[j].now
  }

  // No session id and no token is ever issued twice.
  ghost predicate FreshlyIssued(steps: seq<Step>) {
    forall i, j :: 0 <= i < j < |steps| && steps[i].Issue? && steps[j].Issue? ==>
      steps[i].id != steps[j].id && steps[i].hash != steps[j].hash
  }

  // ----- the sweeper is invisible -----

  // The swept table is the full one less some sessions that are past use.
  ghost predicate Hides(t: Table, full: Table, now: int) {
    && (forall id :: id in t ==> id in full && t[id] == full[id])
    && (forall id :: id in full && id !in t ==> !Live(full[id], now))
  }

  // Only live sessions count, so both tables give the same one.
  lemma SameLookup(t: Table, full: Table, hash: TokenHash, now: int)
    requires Hides(t, full, now) && Unique(full)
    ensures Lookup(t, hash, now) == Lookup(full, hash, now)
    ensures Lookup(full, hash, now).Some? ==> Lookup(full, hash, now).value in t
  {
    if id :| Carries(full, id, hash) && Live(full[id], now) {
      assert Carries(t, id, hash) && Live(t[id], now);
    }
    if id :| Carries(t, id, hash) && Live(t[id], now) {
      assert Carries(full, id, hash) && Live(full[id], now);
    }
  }

  // What is past use stays so.
  lemma HidesLater(t: Table, full: Table, now: int, later: int)
    requires Hides(t, full, now) && now <= later
    ensures Hides(t, full, later)
  {
  }

  lemma SweepHides(t: Table, full: Table, now: int)
    requires Hides(t, full, now)
    ensures Hides(Swept(t, now), full, now)
  {
  }

  lemma StepHides(t: Table, full: Table, step: Step)
    requires Hides(t, full, step.now) && Unique(full) && !step.Sweep?
    requires step.Issue? ==> step.id !in full && forall id :: id in full ==> full[id].hash != step.hash
    ensures Hides(Next(t, step), Next(full, step), step.now) && Unique(Next(full, step))
  {
    if step.Request? {
      SameLookup(t, full, step.hash, step.now);
    }
  }

  // Every row of an unswept run was issued in it, with its token.
  ghost predicate Issued(steps: seq<Step>, id: SessionId, hash: TokenHash) {
    exists i :: 0 <= i < |steps| && steps[i].Issue? && steps[i].id == id && steps[i].hash == hash
  }

  lemma IssuedLater(steps: seq<Step>, last: Step, id: SessionId, hash: TokenHash)
    requires Issued(steps, id, hash)
    ensures Issued(steps + [last], id, hash)
  {
    var i :| 0 <= i < |steps| && steps[i].Issue? && steps[i].id == id && steps[i].hash == hash;
    assert (steps + [last])[i] == steps[i];
  }

  lemma IssuedNow(steps: seq<Step>, last: Step)
    requires last.Issue?
    ensures Issued(steps + [last], last.id, last.hash)
  {
    assert (steps + [last])[|steps|] == last;
  }

  lemma {:induction false} RowsWereIssued(steps: seq<Step>, id: SessionId)
    requires id in Run(map[], steps)
    ensures Issued(steps, id, Run(map[], steps)[id].hash)
  {
    var init, last := steps[..|steps| - 1], steps[|steps| - 1];
    assert steps == init + [last];
    if last.Issue? && last.id == id {
      IssuedNow(init, last);
    } else {
      RowsWereIssued(init, id);
      IssuedLater(init, last, id, Run(map[], init)[id].hash);
    }
  }

  lemma {:induction false} UnsweptIsPart(steps: seq<Step>, id: SessionId, hash: TokenHash)
    requires Issued(Unswept(steps), id, hash)
    ensures Issued(steps, id, hash)
  {
    var init, last := steps[..|steps| - 1], steps[|steps| - 1];
    assert steps == init + [last];
    if Issued(Unswept(init), id, hash) {
      UnsweptIsPart(init, id, hash);
      IssuedLater(init, last, id, hash);
    } else {
      var i :| 0 <= i < |Unswept(steps)| && Unswept(steps)[i].Issue? && Unswept(steps)[i].id == id
          && Unswept(steps)[i].hash == hash;
      assert i == |Unswept(init)| && !last.Sweep? && Unswept(steps)[i] == last;
      IssuedNow(init, last);
    }
  }

  lemma IssueIsFresh(steps: seq<Step>)
    requires steps != [] && FreshlyIssued(steps) && steps[|steps| - 1].Issue?
    ensures var full := Run(map[], Unswept(steps[..|steps| - 1]));
            steps[|steps| - 1].id !in full && forall id :: id in full ==> full[id].hash != steps[|steps| - 1].hash
  {
    var init, last := steps[..|steps| - 1], steps[|steps| - 1];
    var full := Run(map[], Unswept(init));
    forall id | id in full ensures id != last.id && full[id].hash != last.hash {
      RowsWereIssued(Unswept(init), id);
      UnsweptIsPart(init, id, full[id].hash);
    }
  }

  lemma {:induction false} SweptRunHides(steps: seq<Step>)
    requires Timed(steps) && FreshlyIssued(steps)
    ensures var now := if steps == [] then 0 else steps[|steps| - 1].now;
            && Hides(Run(map[], steps), Run(map[], Unswept(steps)), now)
            && Unique(Run(map[], Unswept(steps)))
            && Answers(map[], steps) == Answers(map[], Unswept(steps))
  {
    if steps != [] {
      var init, last := steps[..|steps| - 1], steps[|steps| - 1];
      SweptRunHides(init);
      var t, full := Run(map[], init), Run(map[], Unswept(init));
      if init == [] {
        assert t == map[] && full == map[];
      } else {
        HidesLater(t, full, init[|init| - 1].now, last.now);
      }
      if last.Sweep? {
        SweepHides(t, full, last.now);
      } else {
        SweptRunStep(steps, init, last, t, full);
      }
    }
  }

  lemma SweptRunStep(steps: seq<Step>, init: seq<Step>, last: Step, t: Table, full: Table)
    requires steps == init + [last] && FreshlyIssued(steps) && !last.Sweep?
    requires t == Run(map[], init) && full == Run(map[], Unswept(init))
    requires Hides(t, full, last.now) && Unique(full)
    requires Answers(map[], init) == Answers(map[], Unswept(init))
    ensures Hides(Run(map[], steps), Run(map[], Unswept(steps)), last.now) && Unique(Run(map[], Unswept(steps)))
    ensures Answers(map[], steps) == Answers(map[], Unswept(steps))
  {
    assert steps[..|steps| - 1] == init;
    if last.Issue? {
      IssueIsFresh(steps);
    }
    StepHides(t, full, last);
    var u := Unswept(steps);
    assert u == Unswept(init) + [last] && u[..|u| - 1] == Unswept(init);
    if last.Request? {
      SameLookup(t, full, last.hash, last.now);
    }
  }

  // However often and whenever the sweeper runs, every request gets the answer it would have
  // got had it never run.
  lemma SweepingIsInvisible(steps: seq<Step>)
    requires Timed(steps) && FreshlyIssued(steps)
    ensures Answers(map[], steps) == Answers(map[], Unswept(steps))
  {
    SweptRunHides(steps);
  }

  // ----- what a request is told, from the history alone -----

  // The step that issued a session.
  function Born(steps: seq<Step>, id: SessionId): Option<Step> {
    if steps == [] then None
    else
      var last := steps[|steps| - 1];
      if last.Issue? && last.id == id then Some(last) else Born(steps[..|steps| - 1], id)
  }

  // Whether it has been revoked since, by itself or with its account.
  predicate Ended(steps: seq<Step>, id: SessionId) {
    if steps == [] then false
    else
      var init, last := steps[..|steps| - 1], steps[|steps| - 1];
      if last.Issue? && last.id == id then false
      else if last.SignOut? && last.id == id then true
      else if last.RevokeAll? && Born(init, id).Some? && Born(init, id).value.Issue?
          && Born(init, id).value.account == last.account
      then true
      else Ended(init, id)
  }

  // When it was issued or last answered.
  ghost function LastUse(steps: seq<Step>, id: SessionId): int {
    if steps == [] then 0
    else
      var init, last := steps[..|steps| - 1], steps[|steps| - 1];
      if last.Issue? && last.id == id then last.now
      else if last.Request? && Lookup(Run(map[], init), last.hash, last.now) == Some(id) then last.now
      else LastUse(init, id)
  }

  // Issued for this token, not ended, used within half an hour, issued within eight hours.
  ghost predicate Good(steps: seq<Step>, id: SessionId, hash: TokenHash, now: int) {
    && Born(steps, id).Some? && Born(steps, id).value.Issue? && Born(steps, id).value.hash == hash
    && !Ended(steps, id) && now - LastUse(steps, id) <= IDLE && now - Born(steps, id).value.now <= LIFETIME
  }

  // The row of a session, in the table of a run without sweeps, says what its history says.
  ghost predicate RowTells(steps: seq<Step>, full: Table, id: SessionId) {
    var born := Born(steps, id);
    && (id in full <==> born.Some?)
    && (born.Some? ==>
          && born.value.Issue?
          && full[id] ==
               Session(born.value.account, born.value.hash, born.value.now, full[id].lastSeen, Ended(steps, id))
          && (!Ended(steps, id) ==> full[id].lastSeen == LastUse(steps, id)))
  }

  lemma {:induction false} RowsTellTheHistory(steps: seq<Step>, id: SessionId)
    requires Timed(steps) && FreshlyIssued(steps)
    ensures RowTells(steps, Run(map[], Unswept(steps)), id)
  {
    if steps != [] {
      var init, last := steps[..|steps| - 1], steps[|steps| - 1];
      RowsTellTheHistory(init, id);
      SweptRunHides(init);
      var t, full := Run(map[], init), Run(map[], Unswept(init));
      if !last.Sweep? {
        var u := Unswept(steps);
        assert u == Unswept(init) + [last] && u[..|u| - 1] == Unswept(init);
        if last.Request? {
          if init != [] {
            HidesLater(t, full, init[|init| - 1].now, last.now);
          } else {
            assert t == map[] && full == map[];
          }
          SameLookup(t, full, last.hash, last.now);
        }
      }
    }
  }

  // A request is answered exactly with the session its history makes good, however the
  // sweeper ran: used within the last half hour, issued within the last eight, not revoked.
  lemma AnsweredExactly(steps: seq<Step>, id: SessionId, hash: TokenHash, now: int)
    requires Timed(steps) && FreshlyIssued(steps) && (steps != [] ==> steps[|steps| - 1].now <= now)
    ensures Lookup(Run(map[], steps), hash, now) == Some(id) <==> Good(steps, id, hash, now)
  {
    var t, full := Run(map[], steps), Run(map[], Unswept(steps));
    SweptRunHides(steps);
    if steps != [] {
      HidesLater(t, full, steps[|steps| - 1].now, now);
    } else {
      assert t == map[] && full == map[];
    }
    SameLookup(t, full, hash, now);
    RowsTellTheHistory(steps, id);
    if Good(steps, id, hash, now) {
      assert Carries(full, id, hash) && Live(full[id], now);
    }
  }

  // ----- revocation is final -----

  ghost predicate Out(t: Table, id: SessionId) {
    id in t ==> t[id].revoked
  }

  // A revoked session is never answered again, swept or not.
  lemma {:induction false} RevokedIsFinal(t: Table, steps: seq<Step>, id: SessionId)
    requires Out(t, id) && forall step :: step in steps && step.Issue? ==> step.id != id
    ensures Out(Run(t, steps), id) && Some(id) !in Answers(t, steps)
  {
    if steps != [] {
      var init, last := steps[..|steps| - 1], steps[|steps| - 1];
      assert last in steps && forall step :: step in init ==> step in steps;
      RevokedIsFinal(t, init, id);
    }
  }

  // Cutting an account off ends every session it has at that moment.
  lemma RevokeAllEndsSessions(t: Table, account: AccountId, now: int, steps: seq<Step>, id: SessionId)
    requires id in t && t[id].account == account
    requires forall step :: step in steps && step.Issue? ==> step.id != id
    ensures Some(id) !in Answers(Next(t, RevokeAll(account, now)), steps)
  {
    RevokedIsFinal(Next(t, RevokeAll(account, now)), steps, id);
  }

  // ----- the code -----

  class SessionTable {
    var table: Table

    constructor ()
      ensures table == map[]
    {
      table := map[];
    }

    method IssueSession(id: SessionId, account: AccountId, hash: TokenHash, now: int)
      requires id !in table && forall other :: other in table ==> table[other].hash != hash
      modifies this
      ensures table == Next(old(table), Issue(id, account, hash, now))
      ensures old(Unique(table)) ==> Unique(table)
    {
      table := table[id := Session(account, hash, now, now, false)];
    }

    // The row with the token, if there is one; then the limits, in the source's order.
    method LookupSession(hash: TokenHash, now: int) returns (found: Option<SessionId>)
      requires Unique(table)
      ensures found == Lookup(table, hash, now)
    {
      var ids := table.Keys;
      while ids != {}
        invariant ids <= table.Keys
        invariant forall id :: Carries(table, id, hash) ==> id in ids
        decreases |ids|
      {
        var id :| id in ids;
        if table[id].hash == hash {
          assert Carries(table, id, hash);
          if table[id].revoked {
            return None;
          }
          if now - table[id].lastSeen > IDLE {
            return None;
          }
          if now - table[id].createdAt > LIFETIME {
            return None;
          }
          return Some(id);
        }
        ids := ids - {id};
      }
      found := None;
    }

    method TouchSession(id: SessionId, now: int)
      modifies this
      ensures table == Touched(old(table), id, now)
    {
      if id in table && !table[id].revoked {
        table := table[id := table[id].(lastSeen := now)];
      }
    }

    // requireSession: look up, ask for the account, touch.
    method RequireSession(hash: TokenHash, now: int, accounts: set<AccountId>) returns (found: Option<SessionId>)
      requires Unique(table)
      modifies this
      ensures var s := Lookup(old(table), hash, now);
              if s.Some? && s.value in old(table) && old(table)[s.value].account in accounts
              then found == s && table == Next(old(table), Request(hash, now))
              else found == None && table == old(table)
      ensures Unique(table)
    {
      found := LookupSession(hash, now);
      if found.None? {
        return;
      }
      if table[found.value].account !in accounts {
        return None;
      }
      TouchSession(found.value, now);
    }

    method RevokeSession(id: SessionId, now: int)
      modifies this
      ensures table == Next(old(table), SignOut(id, now))
    {
      if id in table && !table[id].revoked {
        table := table[id := table[id].(revoked := true)];
      }
    }

    method RevokeAllForAccount(account: AccountId, now: int)
      modifies this
      ensures table == Next(old(table), RevokeAll(account, now))
    {
      table := map id | id in table ::
        if table[id].account == account && !table[id].revoked then table[id].(revoked := true) else table[id];
    }

    method SweepExpired(now: int)
      modifies this
      ensures table == Next(old(table), Sweep(now))
      ensures forall id :: id in table <==> id in old(table) && Live(old(table)[id], now)
    {
      table := map id | id in table
          && !(table[id].revoked || table[id].lastSeen < now - IDLE || table[id].createdAt < now - LIFETIME) ::
        table[id];
    }
  }
}
