/**
 The rule that one active administrator always remains, as concurrent transactions see it.
 Every statement reads what is committed when it starts; a locking scan then takes its rows
 one by one, waits for whoever holds them, and drops the rows that no longer qualify.
 */
module LastAdmin {
  import opened Basics

  type AccountId = nat
  type TxId = nat

  datatype Role = Admin | Manager

  datatype Account = Account(role: Role, active: bool)

  // One update request; the caller's identity was settled before the transaction began.
  datatype Change = Change(target: AccountId, self: AccountId, role: Option<Role>, active: Option<bool>)

  // Passed and Written remember whether the change had to be checked, and the rows it locked.
  datatype Phase =
    | Started
    | Decided
    | Scanning(todo: set<AccountId>, seen: seq<AccountId>)
    | Passed(checked: bool, seen: seq<AccountId>)
    | Written(checked: bool, seen: seq<AccountId>, row: Account)

  datatype Tx = Tx(change: Change, phase: Phase)

  // Committed rows, row locks and open transactions.
  datatype State = State(rows: map<AccountId, Account>, locks: map<AccountId, TxId>, txs: map<TxId, Tx>)

  predicate IsActiveAdmin(a: Account) {
    a.role == Admin && a.active
  }

  function ActiveAdmins(rows: map<AccountId, Account>): set<AccountId> {
    set id | id in rows && IsActiveAdmin(rows[id])
  }

  // ----- the check -----

  datatype Verdict = Safe | SelfTarget | LastAdminLeft

  // Whether a change with these outcomes must be checked at all.
  predicate MustCheck(postRole: Role, postActive: bool) {
    !postActive || postRole == Manager
  }

  ghost predicate Distinct(ids: seq<AccountId>) {
    forall i, j :: 0 <= i < j < |ids| ==> ids[i] != ids[j]
  }

  // The count over the rows the scan returned: refused exactly when the target is the only
  // one of them.
  method CountLocked(rows: seq<AccountId>, target: AccountId) returns (v: Verdict)
    requires Distinct(rows)
    ensures v == if rows == [target] then LastAdminLeft else Safe
  {
    var activeAdmins, targetWasAdmin := 0, false;
    for i := 0 to |rows|
      invariant activeAdmins == i
      invariant targetWasAdmin <==> target in rows[..i]
    {
      activeAdmins := activeAdmins + 1;
      if rows[i] == target {
        targetWasAdmin := true;
      }
    }
    assert rows[..|rows|] == rows;
    if !targetWasAdmin {
      return Safe;
    }
    if activeAdmins <= 1 {
      return LastAdminLeft;
    }
    return Safe;
  }

  // ----- the steps -----

  datatype Move = ReadCurrent | Scan | LockRow(row: AccountId) | Check | Write | Commit | Rollback

  datatype Step =
    | Begin(tx: TxId, change: Change)
    | Go(tx: TxId, move: Move)
    | Insert(id: AccountId, account: Account)

  // UPDATE sets only what the request names.
  function Applied(a: Account, c: Change): Account {
    Account(if c.role.Some? then c.role.value else a.role, if c.active.Some? then c.active.value else a.active)
  }

  predicate Free(s: State, row: AccountId, tx: TxId) {
    row in s.locks ==> s.locks[row] == tx
  }

  function Released(s: State, tx: TxId): State {
    s.(locks := map r | r in s.locks && s.locks[r] != tx :: s.locks[r], txs := s.txs - {tx})
  }

  function Enter(s: State, tx: TxId, phase: Phase): State
    requires tx in s.txs
  {
    s.(txs := s.txs[tx := s.txs[tx].(phase := phase)])
  }

  // None: the step cannot be taken now. New accounts are active.
  function Next(s: State, step: Step): Option<State> {
    match step
    case Insert(id, a) => if id in s.rows || !a.active then None else Some(s.(rows := s.rows[id := a]))
    case Begin(tx, c) => if tx in s.txs then None else Some(s.(txs := s.txs[tx := Tx(c, Started)]))
    case Go(tx, move) => if tx in s.txs then Moved(s, tx, s.txs[tx].change, s.txs[tx].phase, move) else None
  }

  function Moved(s: State, tx: TxId, c: Change, phase: Phase, move: Move): Option<State>
    requires tx in s.txs
  {
    match move
    case ReadCurrent => if phase.Started? then Some(AfterRead(s, tx, c)) else None
    case Scan => if phase.Decided? then Some(Enter(s, tx, Scanning(ActiveAdmins(s.rows), []))) else None
    case LockRow(row) =>
      if phase.Scanning? && row in phase.todo && Free(s, row, tx) then Some(AfterLock(s, tx, row, phase)) else None
    case Check => if phase.Scanning? && phase.todo == {} then Some(AfterCheck(s, tx, c, phase)) else None
    case Write => if phase.Passed? && Free(s, c.target, tx) then Some(AfterWrite(s, tx, c, phase)) else None
    case Commit => if phase.Written? then Some(AfterCommit(s, tx, c, phase)) else None
    case Rollback => Some(Released(s, tx))
  }

  // FindByID, the effective values after the change, and the checks that need no lock.
  function AfterRead(s: State, tx: TxId, c: Change): State
    requires tx in s.txs
  {
    if c.target !in s.rows || c.target == c.self then Released(s, tx)
    else
      var post := Applied(s.rows[c.target], c);
      Enter(s, tx, if MustCheck(post.role, post.active) then Decided else Passed(false, []))
  }

  // A row that stopped being an active administrator while the scan waited is dropped,
  // though its lock is kept.
  function AfterLock(s: State, tx: TxId, row: AccountId, phase: Phase): State
    requires tx in s.txs && phase.Scanning?
  {
    var kept := if row in s.rows && IsActiveAdmin(s.rows[row]) then [row] else [];
    Enter(s.(locks := s.locks[row := tx]), tx, Scanning(phase.todo - {row}, phase.seen + kept))
  }

  function AfterCheck(s: State, tx: TxId, c: Change, phase: Phase): State
    requires tx in s.txs && phase.Scanning?
  {
    if phase.seen == [c.target] then Released(s, tx) else Enter(s, tx, Passed(true, phase.seen))
  }

  function AfterWrite(s: State, tx: TxId, c: Change, phase: Phase): State
    requires tx in s.txs && phase.Passed?
  {
    if c.target !in s.rows then Released(s, tx)
    else Enter(s.(locks := s.locks[c.target := tx]), tx,
               Written(phase.checked, phase.seen, Applied(s.rows[c.target], c)))
  }

  function AfterCommit(s: State, tx: TxId, c: Change, phase: Phase): State
    requires phase.Written?
  {
    Released(s.(rows := s.rows[c.target := phase.row]), tx)
  }

  // Every interleaving: the state after a sequence of steps, if each could be taken.
  function Run(s: State, steps: seq<Step>): Option<State> {
    if steps == [] then Some(s)
    else
      var before := Run(s, steps[..|steps| - 1]);
      if before.None? then None else Next(before.value, steps[|steps| - 1])
  }

  function Quiet(rows: map<AccountId, Account>): State {
    State(rows, map[], map[])
  }

  // ----- what every interleaving keeps -----

  // The rows a transaction counted are locked by it and still active administrators.
  ghost predicate Holds(s: State, tx: TxId, seen: seq<AccountId>) {
    && Distinct(seen)
    && forall r :: r in seen ==> r in s.locks && s.locks[r] == tx && r in s.rows && IsActiveAdmin(s.rows[r])
  }

  // A change that went unchecked can only raise an account.
  predicate OnlyRaises(c: Change) {
    c.role != Some(Manager) && c.active != Some(false)
  }

  // A checked change leaves some counted row other than its target, if it counted any.
  ghost predicate Spares(c: Change, checked: bool, seen: seq<AccountId>) {
    if checked then seen == [] || exists r :: r in seen && r != c.target else OnlyRaises(c)
  }

  ghost predicate TxOk(s: State, tx: TxId, t: Tx) {
    match t.phase
    case Started => true
    case Decided => true
    case Scanning(todo, seen) => Holds(s, tx, seen) && forall r :: r in seen ==> r !in todo
    case Passed(checked, seen) => Holds(s, tx, seen) && Spares(t.change, checked, seen)
    case Written(checked, seen, row) =>
      && Holds(s, tx, seen) && Spares(t.change, checked, seen)
      && t.change.target in s.rows && row == Applied(s.rows[t.change.target], t.change)
      && t.change.target in s.locks && s.locks[t.change.target] == tx
  }

  ghost predicate Inv(s: State) {
    forall tx :: tx in s.txs ==> TxOk(s, tx, s.txs[tx])
  }

  // Between `s` and `s'` nothing that `tx` relies on has moved.
  ghost predicate Undisturbed(s: State, s': State, tx: TxId) {
    forall r :: r in s.locks && s.locks[r] == tx ==>
      r in s'.locks && s'.locks[r] == tx && (r in s.rows ==> r in s'.rows && s'.rows[r] == s.rows[r])
  }

  lemma TxStaysOk(s: State, s': State, tx: TxId, t: Tx)
    requires TxOk(s, tx, t) && Undisturbed(s, s', tx)
    ensures TxOk(s', tx, t)
  {
  }

  lemma OthersStayOk(s: State, s': State, tx: TxId)
    requires Inv(s)
    requires forall other :: other in s'.txs && other != tx ==>
               other in s.txs && s'.txs[other] == s.txs[other] && Undisturbed(s, s', other)
    requires tx in s'.txs ==> TxOk(s', tx, s'.txs[tx])
    ensures Inv(s')
  {
    forall other | other in s'.txs ensures TxOk(s', other, s'.txs[other]) {
      if other != tx {
        TxStaysOk(s, s', other, s.txs[other]);
      }
    }
  }

  lemma ReleaseKeepsInv(s: State, tx: TxId)
    requires Inv(s)
    ensures Inv(Released(s, tx))
  {
    OthersStayOk(s, Released(s, tx), tx);
  }

  lemma ReadKeepsInv(s: State, tx: TxId)
    requires Inv(s) && tx in s.txs
    ensures Inv(AfterRead(s, tx, s.txs[tx].change))
  {
    var c := s.txs[tx].change;
    if c.target !in s.rows || c.target == c.self {
      ReleaseKeepsInv(s, tx);
    } else {
      OthersStayOk(s, AfterRead(s, tx, c), tx);
    }
  }

  lemma LockKeepsInv(s: State, tx: TxId, row: AccountId)
    requires Inv(s) && tx in s.txs && s.txs[tx].phase.Scanning? && row in s.txs[tx].phase.todo && Free(s, row, tx)
    ensures Inv(AfterLock(s, tx, row, s.txs[tx].phase))
  {
    OthersStayOk(s, AfterLock(s, tx, row, s.txs[tx].phase), tx);
  }

  lemma CheckKeepsInv(s: State, tx: TxId)
    requires Inv(s) && tx in s.txs && s.txs[tx].phase.Scanning?
    ensures Inv(AfterCheck(s, tx, s.txs[tx].change, s.txs[tx].phase))
  {
    var c, seen := s.txs[tx].change, s.txs[tx].phase.seen;
    if seen == [c.target] {
      ReleaseKeepsInv(s, tx);
    } else {
      if seen != [] {
        assert seen[0] in seen && (|seen| > 1 ==> seen[1] in seen);
      }
      OthersStayOk(s, AfterCheck(s, tx, c, s.txs[tx].phase), tx);
    }
  }

  lemma WriteKeepsInv(s: State, tx: TxId)
    requires Inv(s) && tx in s.txs && s.txs[tx].phase.Passed? && Free(s, s.txs[tx].change.target, tx)
    ensures Inv(AfterWrite(s, tx, s.txs[tx].change, s.txs[tx].phase))
  {
    var c := s.txs[tx].change;
    if c.target !in s.rows {
      ReleaseKeepsInv(s, tx);
    } else {
      OthersStayOk(s, AfterWrite(s, tx, c, s.txs[tx].phase), tx);
    }
  }

  lemma CommitKeepsInv(s: State, tx: TxId)
    requires Inv(s) && tx in s.txs && s.txs[tx].phase.Written?
    ensures Inv(AfterCommit(s, tx, s.txs[tx].change, s.txs[tx].phase))
  {
    OthersStayOk(s, AfterCommit(s, tx, s.txs[tx].change, s.txs[tx].phase), tx);
  }

  lemma StepKeepsInv(s: State, step: Step)
    requires Inv(s) && Next(s, step).Some?
    ensures Inv(Next(s, step).value)
  {
    match step
    case Begin(tx, c) => OthersStayOk(s, Next(s, step).value, tx);
    case Insert(id, a) =>
      var s' := Next(s, step).value;
      forall tx | tx in s'.txs ensures TxOk(s', tx, s'.txs[tx]) {
        TxStaysOk(s, s', tx, s.txs[tx]);
      }
    case Go(tx, move) =>
      match move {
        case ReadCurrent => ReadKeepsInv(s, tx);
        case Scan => OthersStayOk(s, Next(s, step).value, tx);
        case LockRow(row) => LockKeepsInv(s, tx, row);
        case Check => CheckKeepsInv(s, tx);
        case Write => WriteKeepsInv(s, tx);
        case Commit => CommitKeepsInv(s, tx);
        case Rollback => ReleaseKeepsInv(s, tx);
      }
  }

  // ----- the rule -----

  ghost predicate HasAdmin(rows: map<AccountId, Account>) {
    exists id :: id in rows && IsActiveAdmin(rows[id])
  }

  // A check about to pass on a scan that found no row at all.
  predicate EmptyHanded(s: State, step: Step) {
    && step.Go? && step.move.Check? && step.tx in s.txs
    && s.txs[step.tx].phase.Scanning? && s.txs[step.tx].phase.seen == []
  }

  // No check in the run passes that way.
  predicate Careful(s: State, steps: seq<Step>) {
    steps != [] ==>
      var before := Run(s, steps[..|steps| - 1]);
      Careful(s, steps[..|steps| - 1]) && (before.Some? ==> !EmptyHanded(before.value, steps[|steps| - 1]))
  }

  // Every open checked change counted somebody.
  predicate Counted(t: Tx) {
    && (t.phase.Passed? && t.phase.checked ==> t.phase.seen != [])
    && (t.phase.Written? && t.phase.checked ==> t.phase.seen != [])
  }

  ghost predicate AllCounted(s: State) {
    forall tx :: tx in s.txs ==> Counted(s.txs[tx])
  }

  lemma CommitKeepsAnAdmin(s: State, tx: TxId)
    requires Inv(s) && HasAdmin(s.rows) && tx in s.txs && s.txs[tx].phase.Written? && Counted(s.txs[tx])
    ensures HasAdmin(AfterCommit(s, tx, s.txs[tx].change, s.txs[tx].phase).rows)
  {
    var c, phase := s.txs[tx].change, s.txs[tx].phase;
    var rows := AfterCommit(s, tx, c, phase).rows;
    assert TxOk(s, tx, s.txs[tx]);
    if phase.checked {
      var r :| r in phase.seen && r != c.target;
      assert r in rows && IsActiveAdmin(rows[r]);
    } else {
      var id :| id in s.rows && IsActiveAdmin(s.rows[id]);
      assert id in rows && IsActiveAdmin(rows[id]);
    }
  }

  lemma StepKeepsAnAdmin(s: State, step: Step)
    requires Inv(s) && AllCounted(s) && HasAdmin(s.rows) && Next(s, step).Some? && !EmptyHanded(s, step)
    ensures AllCounted(Next(s, step).value) && HasAdmin(Next(s, step).value.rows)
  {
    match step
    case Insert(id, a) =>
      var old_id :| old_id in s.rows && IsActiveAdmin(s.rows[old_id]);
      assert Next(s, step).value.rows[old_id] == s.rows[old_id];
    case Begin(tx, c) =>
    case Go(tx, move) =>
      if move.Commit? {
        CommitKeepsAnAdmin(s, tx);
      }
  }

  // Over every interleaving of updates, with any staleness of the caller's identity and of
  // the account read before the check: as long as no check passed on an empty scan, every
  // committed state has an active administrator. (Every prefix of such a run is one.)
  lemma {:induction false} CarefulRunsKeepAnAdmin(rows: map<AccountId, Account>, steps: seq<Step>)
    requires HasAdmin(rows) && Careful(Quiet(rows), steps) && Run(Quiet(rows), steps).Some?
    ensures var s := Run(Quiet(rows), steps).value; Inv(s) && AllCounted(s) && HasAdmin(s.rows)
  {
    if steps != [] {
      var init, last := steps[..|steps| - 1], steps[|steps| - 1];
      CarefulRunsKeepAnAdmin(rows, init);
      var s := Run(Quiet(rows), init).value;
      StepKeepsInv(s, last);
      StepKeepsAnAdmin(s, last);
    }
  }

  // The promise as the source words it: each check is made with every active administrator
  // locked.
  predicate PoolLocked(s: State, step: Step) {
    step.Go? && step.move.Check? && step.tx in s.txs && s.txs[step.tx].phase.Scanning? ==>
      forall id :: id in ActiveAdmins(s.rows) ==> id in s.txs[step.tx].phase.seen
  }

  predicate LocksThePool(s: State, steps: seq<Step>) {
    steps != [] ==>
      var before := Run(s, steps[..|steps| - 1]);
      LocksThePool(s, steps[..|steps| - 1]) && (before.Some? ==> PoolLocked(before.value, steps[|steps| - 1]))
  }

  // A run that keeps that promise is careful, so the rule holds throughout it.
  lemma {:induction false} LockingThePoolIsEnough(rows: map<AccountId, Account>, steps: seq<Step>)
    requires HasAdmin(rows) && LocksThePool(Quiet(rows), steps) && Run(Quiet(rows), steps).Some?
    ensures Careful(Quiet(rows), steps) && HasAdmin(Run(Quiet(rows), steps).value.rows)
  {
    if steps != [] {
      var init, last := steps[..|steps| - 1], steps[|steps| - 1];
      LockingThePoolIsEnough(rows, init);
      var s := Run(Quiet(rows), init).value;
      var id :| id in s.rows && IsActiveAdmin(s.rows[id]);
      assert id in ActiveAdmins(s.rows);
      assert !EmptyHanded(s, last);
      CarefulRunsKeepAnAdmin(rows, steps);
    }
  }

  // An update of an existing account gets past its first reading exactly if the account is
  // not the caller's own - whatever it asks for, be it nothing but a new display name.
  lemma OwnAccountIsRefusedExactly(s: State, tx: TxId)
    requires tx in s.txs && s.txs[tx].phase.Started? && s.txs[tx].change.target in s.rows
    ensures Next(s, Go(tx, ReadCurrent)).Some?
    ensures tx !in Next(s, Go(tx, ReadCurrent)).value.txs <==> s.txs[tx].change.target == s.txs[tx].change.self
  {
  }

  // The documented refusal is of a demotion or a deactivation of oneself; this one is neither.
  lemma ARenameOfOneselfIsRefused() returns (s: State)
    ensures s.rows == map[0 := Account(Admin, true)] && s.txs == map[0 := Tx(Change(0, 0, None, None), Started)]
    ensures 0 !in Next(s, Go(0, ReadCurrent)).value.txs
  {
    s := State(map[0 := Account(Admin, true)], map[], map[0 := Tx(Change(0, 0, None, None), Started)]);
    OwnAccountIsRefusedExactly(s, 0);
  }

  // ----- where the code falls short of it -----

  // A commit about to take away the only active administrator, on the strength of a check
  // that passed over an empty scan.
  predicate TakesTheLast(s: State, tx: TxId) {
    && tx in s.txs && s.txs[tx].phase.Written? && s.txs[tx].phase.checked && s.txs[tx].phase.seen == []
    && s.txs[tx].change.target in s.rows
    && ActiveAdmins(s.rows) == {s.txs[tx].change.target}
    && !IsActiveAdmin(Applied(s.rows[s.txs[tx].change.target], s.txs[tx].change))
  }

  predicate OnlyAdmin(rows: map<AccountId, Account>, target: AccountId) {
    forall id :: id in rows && IsActiveAdmin(rows[id]) ==> id == target
  }

  lemma TheOnlyAdmin(rows: map<AccountId, Account>, target: AccountId)
    requires HasAdmin(rows)
    ensures OnlyAdmin(rows, target) <==> ActiveAdmins(rows) == {target}
  {
    var id :| id in rows && IsActiveAdmin(rows[id]);
    assert id in ActiveAdmins(rows);
    if ActiveAdmins(rows) == {target} {
      forall other | other in rows && IsActiveAdmin(rows[other]) ensures other == target {
        assert other in ActiveAdmins(rows);
      }
    }
    if OnlyAdmin(rows, target) {
      assert ActiveAdmins(rows) == {target};
    }
  }

  lemma OverwriteLosesAdmin(rows: map<AccountId, Account>, target: AccountId, row: Account)
    requires target in rows
    ensures !HasAdmin(rows[target := row]) <==> OnlyAdmin(rows, target) && !IsActiveAdmin(row)
  {
    var after := rows[target := row];
    assert target in after && after[target] == row;
    assert forall id :: id in rows ==> id in after && (id != target ==> after[id] == rows[id]);
  }

  // The rule is lost by a commit of that kind and by no other.
  lemma CommitLosesTheRuleExactly(s: State, tx: TxId)
    requires Inv(s) && HasAdmin(s.rows) && tx in s.txs && s.txs[tx].phase.Written?
    ensures !HasAdmin(AfterCommit(s, tx, s.txs[tx].change, s.txs[tx].phase).rows) <==> TakesTheLast(s, tx)
  {
    var c, phase := s.txs[tx].change, s.txs[tx].phase;
    assert TxOk(s, tx, s.txs[tx]);
    TheOnlyAdmin(s.rows, c.target);
    OverwriteLosesAdmin(s.rows, c.target, Applied(s.rows[c.target], c));
    if Counted(s.txs[tx]) {
      CommitKeepsAnAdmin(s, tx);
    }
  }

  // No step but a commit takes an administrator away.
  lemma StepLosesTheRuleExactly(s: State, step: Step)
    requires Inv(s) && HasAdmin(s.rows) && Next(s, step).Some?
    ensures !HasAdmin(Next(s, step).value.rows) <==> step.Go? && step.move.Commit? && TakesTheLast(s, step.tx)
  {
    match step
    case Insert(id, a) =>
      var old_id :| old_id in s.rows && IsActiveAdmin(s.rows[old_id]);
      assert Next(s, step).value.rows[old_id] == s.rows[old_id];
    case Begin(tx, c) =>
    case Go(tx, move) =>
      if move.Commit? {
        CommitLosesTheRuleExactly(s, tx);
      }
  }

  // No commit of the run is of that kind.
  predicate NeverTakesTheLast(s: State, steps: seq<Step>) {
    steps != [] ==>
      var before, last := Run(s, steps[..|steps| - 1]), steps[|steps| - 1];
      && NeverTakesTheLast(s, steps[..|steps| - 1])
      && (before.Some? && last.Go? && last.move.Commit? ==> !TakesTheLast(before.value, last.tx))
  }

  // Every state the run goes through has an active administrator.
  ghost predicate RuleHolds(s: State, steps: seq<Step>) {
    && (Run(s, steps).Some? ==> HasAdmin(Run(s, steps).value.rows))
    && (steps != [] ==> RuleHolds(s, steps[..|steps| - 1]))
  }

  lemma {:induction false} RunKeepsInv(rows: map<AccountId, Account>, steps: seq<Step>)
    requires Run(Quiet(rows), steps).Some?
    ensures Inv(Run(Quiet(rows), steps).value)
  {
    if steps != [] {
      RunKeepsInv(rows, steps[..|steps| - 1]);
      StepKeepsInv(Run(Quiet(rows), steps[..|steps| - 1]).value, steps[|steps| - 1]);
    }
  }

  // So, of all interleavings from a state with an administrator, those that keep one all the
  // way are exactly those without such a commit.
  lemma {:induction false} RuleHoldsExactly(rows: map<AccountId, Account>, steps: seq<Step>)
    requires HasAdmin(rows) && Run(Quiet(rows), steps).Some?
    ensures RuleHolds(Quiet(rows), steps) <==> NeverTakesTheLast(Quiet(rows), steps)
  {
    if steps != [] {
      var init, last := steps[..|steps| - 1], steps[|steps| - 1];
      RuleHoldsExactly(rows, init);
      if RuleHolds(Quiet(rows), init) {
        RunKeepsInv(rows, init);
        StepLosesTheRuleExactly(Run(Quiet(rows), init).value, last);
      }
    }
  }

  // A run one step longer.
  lemma Take(rows: map<AccountId, Account>, steps: seq<Step>, s: State, step: Step)
    returns (steps': seq<Step>, s': State)
    requires Run(Quiet(rows), steps) == Some(s) && Next(s, step).Some?
    ensures steps' == steps + [step] && Next(s, step) == Some(s') && Run(Quiet(rows), steps') == Some(s')
    ensures !Careful(Quiet(rows), steps) || EmptyHanded(s, step) ==> !Careful(Quiet(rows), steps')
  {
    steps', s' := steps + [step], Next(s, step).value;
    assert steps'[..|steps|] == steps;
  }

  // An administrator, a manager, and a request to deactivate the manager that has come as
  // far as its scan, which saw the administrator alone.
  ghost predicate Waiting(s: State, first: Account, second: Account) {
    && s.rows.Keys == {0, 1} && s.rows[0] == first && s.rows[1] == second && s.locks == map[] && s.txs.Keys == {1}
    && s.txs[1] == Tx(Change(1, 0, None, Some(false)), Scanning({0}, []))
  }

  lemma StartWaiting(rows: map<AccountId, Account>) returns (steps: seq<Step>, s: State)
    requires rows.Keys == {0, 1} && rows[0] == Account(Admin, true) && rows[1] == Account(Manager, true)
    ensures Run(Quiet(rows), steps) == Some(s) && Waiting(s, Account(Admin, true), Account(Manager, true))
  {
    steps, s := [], Quiet(rows);
    steps, s := Take(rows, steps, s, Begin(1, Change(1, 0, None, Some(false))));
    steps, s := Take(rows, steps, s, Go(1, ReadCurrent));
    assert ActiveAdmins(rows) == {0};
    steps, s := Take(rows, steps, s, Go(1, Scan));
  }

  // The promotion of 1, from beginning to end.
  lemma Promote(rows: map<AccountId, Account>, before: seq<Step>, w: State) returns (steps: seq<Step>, s: State)
    requires Run(Quiet(rows), before) == Some(w) && Waiting(w, Account(Admin, true), Account(Manager, true))
    ensures Run(Quiet(rows), steps) == Some(s) && Waiting(s, Account(Admin, true), Account(Admin, true))
  {
    steps, s := Take(rows, before, w, Begin(2, Change(1, 0, Some(Admin), None)));
    steps, s := Take(rows, steps, s, Go(2, ReadCurrent));
    assert s.txs[2].phase == Passed(false, []);
    steps, s := Take(rows, steps, s, Go(2, Write));
    assert s.txs[2].phase == Written(false, [], Account(Admin, true)) && s.locks == map[1 := 2];
    steps, s := Take(rows, steps, s, Go(2, Commit));
  }

  // The deactivation of 0 by the new administrator: both rows are administrators now.
  lemma ScanBoth(rows: map<AccountId, Account>, before: seq<Step>, w: State) returns (steps: seq<Step>, s: State)
    requires Run(Quiet(rows), before) == Some(w) && Waiting(w, Account(Admin, true), Account(Admin, true))
    ensures Run(Quiet(rows), steps) == Some(s) && s.rows == w.rows && s.locks == map[]
    ensures s.txs.Keys == {1, 3} && s.txs[1] == w.txs[1]
    ensures s.txs[3] == Tx(Change(0, 1, None, Some(false)), Scanning({0, 1}, []))
  {
    steps, s := Take(rows, before, w, Begin(3, Change(0, 1, None, Some(false))));
    steps, s := Take(rows, steps, s, Go(3, ReadCurrent));
    assert ActiveAdmins(w.rows) == {0, 1};
    steps, s := Take(rows, steps, s, Go(3, Scan));
  }

  lemma LockBoth(rows: map<AccountId, Account>, before: seq<Step>, w: State) returns (steps: seq<Step>, s: State)
    requires Run(Quiet(rows), before) == Some(w) && Waiting(w, Account(Admin, true), Account(Admin, true))
    ensures Run(Quiet(rows), steps) == Some(s) && s.rows == w.rows && s.locks == map[0 := 3, 1 := 3]
    ensures s.txs.Keys == {1, 3} && s.txs[1] == w.txs[1]
    ensures s.txs[3] == Tx(Change(0, 1, None, Some(false)), Scanning({}, [0, 1]))
  {
    steps, s := ScanBoth(rows, before, w);
    steps, s := Take(rows, steps, s, Go(3, LockRow(0)));
    assert {0, 1} - {0} == {1} && s.txs[3].phase == Scanning({1}, [0]) && s.locks == map[0 := 3];
    steps, s := Take(rows, steps, s, Go(3, LockRow(1)));
    assert {1} - {1} == {} && [0] + [1] == [0, 1] && s.txs[3].phase.seen == [0] + [1];
  }

  lemma Deactivate(rows: map<AccountId, Account>, before: seq<Step>, w: State) returns (steps: seq<Step>, s: State)
    requires Run(Quiet(rows), before) == Some(w) && Waiting(w, Account(Admin, true), Account(Admin, true))
    ensures Run(Quiet(rows), steps) == Some(s) && Waiting(s, Account(Admin, false), Account(Admin, true))
  {
    steps, s := LockBoth(rows, before, w);
    steps, s := Take(rows, steps, s, Go(3, Check));
    assert s.txs[3].phase == Passed(true, [0, 1]);
    steps, s := Take(rows, steps, s, Go(3, Write));
    assert s.txs[3].phase == Written(true, [0, 1], Account(Admin, false)) && s.locks == map[0 := 3, 1 := 3];
    steps, s := Take(rows, steps, s, Go(3, Commit));
  }

  // The waiting request goes on: it drops 0, counts nobody, and passes.
  lemma GoOn(rows: map<AccountId, Account>, before: seq<Step>, w: State) returns (steps: seq<Step>, s: State)
    requires Run(Quiet(rows), before) == Some(w) && Waiting(w, Account(Admin, false), Account(Admin, true))
    ensures Run(Quiet(rows), steps) == Some(s) && !Careful(Quiet(rows), steps) && !HasAdmin(s.rows)
  {
    steps, s := Take(rows, before, w, Go(1, LockRow(0)));
    assert {0} - {0} == {} && s.txs[1].phase == Scanning({}, []);
    steps, s := Take(rows, steps, s, Go(1, Check));
    assert s.txs[1].phase == Passed(true, []) && s.rows == w.rows;
    steps, s := Take(rows, steps, s, Go(1, Write));
    assert s.txs[1].phase == Written(true, [], Account(Admin, false)) && s.rows == w.rows;
    steps, s := Take(rows, steps, s, Go(1, Commit));
    assert s.rows == w.rows[1 := Account(Admin, false)];
    assert forall id :: id in s.rows ==> id == 0 || id == 1;
  }

  // While a deactivation of the manager 1 waits between its scan, which saw only the
  // administrator 0, and its lock on 0, another request promotes 1 and a third deactivates
  // 0, both in order. The waiting scan then drops 0, counts nobody, and passes.
  lemma ThePoolCanEmpty() returns (rows: map<AccountId, Account>, steps: seq<Step>)
    ensures HasAdmin(rows) && Run(Quiet(rows), steps).Some? && !Careful(Quiet(rows), steps)
    ensures !HasAdmin(Run(Quiet(rows), steps).value.rows)
  {
    rows := map[0 := Account(Admin, true), 1 := Account(Manager, true)];
    assert 0 in rows && IsActiveAdmin(rows[0]);
    var s;
    steps, s := StartWaiting(rows);
    steps, s := Promote(rows, steps, s);
    steps, s := Deactivate(rows, steps, s);
    steps, s := GoOn(rows, steps, s);
  }

  // ----- the handler, statement by statement -----

  // The account table and the open transactions; each method is one statement of the
  // update handler, taken while other requests may be at theirs.
  class Accounts {
    var rows: map<AccountId, Account>
    var locks: map<AccountId, TxId>
    var txs: map<TxId, Tx>

    ghost function Current(): State
      reads this
    {
      State(rows, locks, txs)
    }

    constructor (rows: map<AccountId, Account>)
      ensures Current() == Quiet(rows)
    {
      this.rows, locks, txs := rows, map[], map[];
    }

    method Release(tx: TxId)
      modifies this
      ensures Current() == Released(old(Current()), tx)
    {
      locks := map r | r in locks && locks[r] != tx :: locks[r];
      txs := txs - {tx};
    }

    // FindByID, then as much of the check as needs no lock.
    method DecideUpdate(tx: TxId)
      requires tx in txs && txs[tx].phase.Started?
      modifies this
      ensures Some(Current()) == Next(old(Current()), Go(tx, ReadCurrent))
    {
      var c := txs[tx].change;
      if c.target !in rows {
        Release(tx);
        return;
      }
      var postRole, postActive := rows[c.target].role, rows[c.target].active;
      if c.role.Some? {
        postRole := c.role.value;
      }
      if c.active.Some? {
        postActive := c.active.value;
      }
      if c.target == c.self {
        Release(tx);
        return;
      }
      txs := txs[tx := Tx(c, if MustCheck(postRole, postActive) then Decided else Passed(false, []))];
    }

    // One row of the locking scan, once nobody else holds it.
    method LockNext(tx: TxId, row: AccountId)
      requires tx in txs && txs[tx].phase.Scanning? && row in txs[tx].phase.todo && Free(Current(), row, tx)
      modifies this
      ensures Some(Current()) == Next(old(Current()), Go(tx, LockRow(row)))
    {
      var todo, seen := txs[tx].phase.todo - {row}, txs[tx].phase.seen;
      locks := locks[row := tx];
      assert seen + [] == seen;
      if row in rows && IsActiveAdmin(rows[row]) {
        seen := seen + [row];
      }
      txs := txs[tx := Tx(txs[tx].change, Scanning(todo, seen))];
    }

    // The count, and the refusal.
    method Decide(tx: TxId) returns (v: Verdict)
      requires Inv(Current()) && tx in txs && txs[tx].phase.Scanning? && txs[tx].phase.todo == {}
      modifies this
      ensures Some(Current()) == Next(old(Current()), Go(tx, Check))
      ensures v == if old(txs[tx].phase.seen) == [old(txs[tx].change.target)] then LastAdminLeft else Safe
    {
      var c, seen := txs[tx].change, txs[tx].phase.seen;
      assert TxOk(Current(), tx, txs[tx]);
      v := CountLocked(seen, c.target);
      if v == LastAdminLeft {
        Release(tx);
        return;
      }
      txs := txs[tx := Tx(c, Passed(true, seen))];
    }

    // UPDATE account: waits for the row, then sets the named columns of its latest version.
    method UpdateAccount(tx: TxId)
      requires tx in txs && txs[tx].phase.Passed? && Free(Current(), txs[tx].change.target, tx)
      modifies this
      ensures Some(Current()) == Next(old(Current()), Go(tx, Write))
    {
      var c, phase := txs[tx].change, txs[tx].phase;
      if c.target !in rows {
        Release(tx);
        return;
      }
      var row := rows[c.target];
      if c.role.Some? {
        row := row.(role := c.role.value);
      }
      if c.active.Some? {
        row := row.(active := c.active.value);
      }
      locks := locks[c.target := tx];
      txs := txs[tx := Tx(c, Written(phase.checked, phase.seen, row))];
    }

    // COMMIT makes the written row the one everybody reads, and frees the locks.
    method CommitUpdate(tx: TxId)
      requires tx in txs && txs[tx].phase.Written?
      modifies this
      ensures Some(Current()) == Next(old(Current()), Go(tx, Commit))
      ensures old(Inv(Current()) && HasAdmin(rows) && Counted(txs[tx])) ==> Inv(Current()) && HasAdmin(rows)
    {
      if Inv(Current()) && HasAdmin(rows) && Counted(txs[tx]) {
        CommitKeepsAnAdmin(Current(), tx);
        CommitKeepsInv(Current(), tx);
      }
      rows := rows[txs[tx].change.target := txs[tx].phase.row];
      Release(tx);
    }
  }
}
