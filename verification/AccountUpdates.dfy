/**
 An account update that nobody gets in the way of: carried out exactly if the account exists,
 is not the caller's own and an active administrator is left afterwards, and then it sets what
 the request names and nothing else.
 */
module AccountUpdates {
  import opened Basics
  import opened LastAdmin

  // What the request names is set, what it leaves out is kept.
  predicate NamedOnly(before: Account, after: Account, c: Change) {
    && after.role == (match c.role case Some(role) => role case None => before.role)
    && after.active == (match c.active case Some(active) => active case None => before.active)
  }

  lemma AppliedIs(a: Account, c: Change)
    ensures NamedOnly(a, Applied(a, c), c)
    ensures c.active == Some(true) ==> Applied(a, c).active
    ensures c.active == Some(false) ==> !Applied(a, c).active
    ensures c.role == Some(Manager) ==> Applied(a, c).role == Manager
  {
  }

  // A new account is active from the start.
  lemma InsertedExactly(s: State, id: AccountId, a: Account)
    ensures Next(s, Insert(id, a)).Some? <==> id !in s.rows && a.active
    ensures Next(s, Insert(id, a)).Some? ==> Next(s, Insert(id, a)).value.rows == s.rows[id := a]
  {
  }

  predicate Found(rows: map<AccountId, Account>, c: Change) {
    c.target in rows && c.target != c.self
  }

  // Nothing is lost by the change: if there is an active administrator, there is one after it.
  ghost predicate LeavesAnAdmin(rows: map<AccountId, Account>, c: Change)
    requires c.target in rows
  {
    HasAdmin(rows) ==> HasAdmin(rows[c.target := Applied(rows[c.target], c)])
  }

  ghost predicate Allowed(rows: map<AccountId, Account>, c: Change) {
    Found(rows, c) && LeavesAnAdmin(rows, c)
  }

  // One transaction from its beginning on, and no other.
  function Script(tx: TxId, c: Change, moves: seq<Move>): seq<Step> {
    if moves == [] then [Begin(tx, c)] else Script(tx, c, moves[..|moves| - 1]) + [Go(tx, moves[|moves| - 1])]
  }

  function Alone(rows: map<AccountId, Account>, tx: TxId, c: Change, moves: seq<Move>): Option<State> {
    Run(Quiet(rows), Script(tx, c, moves))
  }

  ghost predicate PhaseFits(rows: map<AccountId, Account>, c: Change, phase: Phase) {
    match phase
    case Started => true
    case Decided => Found(rows, c)
    case Scanning(todo, seen) =>
      && Found(rows, c) && Distinct(seen)
      && todo <= ActiveAdmins(rows) && forall r :: r in seen <==> r in ActiveAdmins(rows) && r !in todo
    case Passed(checked, seen) => Allowed(rows, c)
    case Written(checked, seen, row) => Allowed(rows, c) && row == Applied(rows[c.target], c)
  }

  // The state such a transaction leaves when it is through: as it was, or changed as asked.
  ghost predicate Done(rows: map<AccountId, Account>, c: Change, after: map<AccountId, Account>) {
    && Allowed(rows, c) && after.Keys == rows.Keys && NamedOnly(rows[c.target], after[c.target], c)
    && forall id :: id in rows && id != c.target ==> after[id] == rows[id]
  }

  ghost predicate OneAtWork(s: State, rows: map<AccountId, Account>, tx: TxId, c: Change) {
    if tx in s.txs then s.rows == rows && s.txs[tx].change == c && PhaseFits(rows, c, s.txs[tx].phase)
    else s.rows == rows || Done(rows, c, s.rows)
  }

  lemma UncheckedLeavesAnAdmin(rows: map<AccountId, Account>, c: Change)
    requires Found(rows, c)
    requires var post := Applied(rows[c.target], c); !MustCheck(post.role, post.active)
    ensures LeavesAnAdmin(rows, c)
  {
    var after := rows[c.target := Applied(rows[c.target], c)];
    assert c.target in after && IsActiveAdmin(after[c.target]);
  }

  lemma CheckedLeavesAnAdmin(rows: map<AccountId, Account>, c: Change, seen: seq<AccountId>)
    requires Found(rows, c) && Distinct(seen) && forall r :: r in seen <==> r in ActiveAdmins(rows)
    ensures seen != [c.target] ==> LeavesAnAdmin(rows, c)
    ensures seen == [c.target] ==> ActiveAdmins(rows) == {c.target}
  {
    if seen != [c.target] && HasAdmin(rows) {
      var id :| id in rows && IsActiveAdmin(rows[id]);
      assert id in ActiveAdmins(rows) && seen[0] in seen;
      var other := if seen[0] != c.target then seen[0] else seen[1];
      assert other in seen && other != c.target;
      var after := rows[c.target := Applied(rows[c.target], c)];
      assert other in after && IsActiveAdmin(after[other]);
    }
  }

  lemma CommitIsDone(rows: map<AccountId, Account>, c: Change)
    requires Allowed(rows, c)
    ensures Done(rows, c, rows[c.target := Applied(rows[c.target], c)])
  {
    AppliedIs(rows[c.target], c);
  }

  lemma MoveFits(s: State, rows: map<AccountId, Account>, tx: TxId, c: Change, move: Move, s': State)
    requires OneAtWork(s, rows, tx, c) && Next(s, Go(tx, move)) == Some(s')
    ensures OneAtWork(s', rows, tx, c)
  {
    var phase := s.txs[tx].phase;
    match move
    case ReadCurrent =>
      if Found(rows, c) && s'.txs[tx].phase.Passed? {
        UncheckedLeavesAnAdmin(rows, c);
      }
    case LockRow(row) =>
    case Check => CheckedLeavesAnAdmin(rows, c, phase.seen);
    case Commit => CommitIsDone(rows, c);
    case _ =>
  }

  // Wherever it stops: nothing has changed, or it was allowed and has done what was asked.
  lemma {:induction false} AloneIsAllowed(rows: map<AccountId, Account>, tx: TxId, c: Change, moves: seq<Move>,
      s: State)
    requires Alone(rows, tx, c, moves) == Some(s)
    ensures OneAtWork(s, rows, tx, c)
    ensures s.rows == rows || Done(rows, c, s.rows)
    decreases |moves|
  {
    if moves == [] {
      var before := Script(tx, c, moves)[..0];
      assert before == [] && Run(Quiet(rows), before) == Some(Quiet(rows));
    } else {
      var init, last := moves[..|moves| - 1], moves[|moves| - 1];
      assert Script(tx, c, moves)[..|Script(tx, c, init)|] == Script(tx, c, init);
      AloneIsAllowed(rows, tx, c, init, Alone(rows, tx, c, init).value);
      MoveFits(Alone(rows, tx, c, init).value, rows, tx, c, last, s);
    }
  }

  // ----- and what is allowed can be done -----

  lemma OneMore(rows: map<AccountId, Account>, tx: TxId, c: Change, moves: seq<Move>, s: State, move: Move)
    returns (moves': seq<Move>, s': State)
    requires Alone(rows, tx, c, moves) == Some(s) && Next(s, Go(tx, move)).Some?
    ensures moves' == moves + [move] && Next(s, Go(tx, move)) == Some(s') && Alone(rows, tx, c, moves') == Some(s')
  {
    moves', s' := moves + [move], Next(s, Go(tx, move)).value;
    assert moves'[..|moves|] == moves;
    assert Script(tx, c, moves')[..|Script(tx, c, moves)|] == Script(tx, c, moves);
  }

  lemma Opened(rows: map<AccountId, Account>, tx: TxId, c: Change) returns (s: State)
    ensures Alone(rows, tx, c, []) == Some(s) && s == State(rows, map[], map[tx := Tx(c, Started)])
  {
    s := State(rows, map[], map[tx := Tx(c, Started)]);
    var steps := Script(tx, c, []);
    assert steps[..0] == [] && Run(Quiet(rows), steps[..0]) == Some(Quiet(rows));
  }

  ghost predicate NobodyElse(s: State, tx: TxId) {
    (forall r :: r in s.locks ==> s.locks[r] == tx) && (forall t :: t in s.txs ==> t == tx)
  }

  lemma {:induction false} LockAll(rows: map<AccountId, Account>, tx: TxId, c: Change, before: seq<Move>, w: State)
    returns (moves: seq<Move>, s: State)
    requires Alone(rows, tx, c, before) == Some(w) && NobodyElse(w, tx) && tx in w.txs && w.txs[tx].phase.Scanning?
    ensures Alone(rows, tx, c, moves) == Some(s) && NobodyElse(s, tx) && tx in s.txs && s.txs[tx].phase.Scanning?
    ensures s.txs[tx].phase.todo == {}
    decreases |w.txs[tx].phase.todo|
  {
    if w.txs[tx].phase.todo == {} {
      moves, s := before, w;
    } else {
      var row :| row in w.txs[tx].phase.todo;
      moves, s := OneMore(rows, tx, c, before, w, LockRow(row));
      moves, s := LockAll(rows, tx, c, moves, s);
    }
  }

  lemma Cleared(rows: map<AccountId, Account>, tx: TxId, c: Change) returns (moves: seq<Move>, s: State)
    requires Allowed(rows, c)
    ensures Alone(rows, tx, c, moves) == Some(s) && NobodyElse(s, tx) && tx in s.txs && s.txs[tx].phase.Passed?
  {
    moves := [];
    s := Opened(rows, tx, c);
    moves, s := OneMore(rows, tx, c, moves, s, ReadCurrent);
    if s.txs[tx].phase.Decided? {
      moves, s := OneMore(rows, tx, c, moves, s, Scan);
      moves, s := LockAll(rows, tx, c, moves, s);
      AloneIsAllowed(rows, tx, c, moves, s);
      NotTheLast(rows, c, s.txs[tx].phase.seen, Applied(rows[c.target], c));
      moves, s := OneMore(rows, tx, c, moves, s, Check);
    }
  }

  lemma NotTheLast(rows: map<AccountId, Account>, c: Change, seen: seq<AccountId>, post: Account)
    requires Allowed(rows, c) && post == Applied(rows[c.target], c)
    requires Distinct(seen) && forall r :: r in seen <==> r in ActiveAdmins(rows)
    ensures seen == [c.target] ==> !MustCheck(post.role, post.active)
  {
    if seen == [c.target] {
      assert c.target in seen;
      assert c.target in rows && IsActiveAdmin(rows[c.target]);
      var id :| id in rows[c.target := post] && IsActiveAdmin(rows[c.target := post][id]);
      assert id != c.target ==> id in ActiveAdmins(rows) && id in seen;
    }
  }

  // Left alone, every update that is allowed goes through.
  lemma AllowedIsDone(rows: map<AccountId, Account>, tx: TxId, c: Change) returns (moves: seq<Move>, s: State)
    requires Allowed(rows, c)
    ensures Alone(rows, tx, c, moves) == Some(s) && Done(rows, c, s.rows) && s.txs == map[] && s.locks == map[]
  {
    moves, s := Cleared(rows, tx, c);
    AloneIsAllowed(rows, tx, c, moves, s);
    moves, s := OneMore(rows, tx, c, moves, s, Write);
    moves, s := OneMore(rows, tx, c, moves, s, Commit);
    AloneIsAllowed(rows, tx, c, moves, s);
  }
}
