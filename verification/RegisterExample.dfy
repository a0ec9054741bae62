/**
 One run of the register, taken step by step: a code changes hands, and an undo of what was
 recorded about its first holder changes its second.
 */
module RegisterExample {
  import opened Basics
  import opened Text
  import opened RegisterModel
  import opened RegisterViews
  import opened RegisterTheory
  import opened RegisterHistory
  import opened RegisterUndo

  // Text as typed is canonical, and no code reads as an id.
  const PLAIN: Normaliser := Normaliser(s => s, s => None)

  const TWO_LOOKUPS: Schema := Schema(map[], {}, {0}, {0})

  const START: Ledger := Ledger(Empty(TWO_LOOKUPS), [], map[])

  const NOTHING: Values := Values(map[], {})

  const RENAMED: Record :=
    Record(PropertyModified, "AA", Some(AttrPayload(map[Name := Str("HH")])), Some(AttrPayload(map[Name := Str("MM")])),
           None)

  function Named(code: string, name: string, version: int): Row {
    Row(code, code, name, name, 0, 0, version, None, None, None)
  }

  // One row more in the log, reversing nothing.
  predicate Logs(log: seq<Record>, log': seq<Record>) {
    |log'| == |log| + 1 && log'[..|log|] == log && log'[|log|].reverses.None?
  }

  predicate NothingReversed(log: seq<Record>) {
    forall j :: 0 <= j < |log| ==> log[j].reverses.None?
  }

  lemma LogsKeep(log: seq<Record>, log': seq<Record>)
    requires Logs(log, log')
    ensures forall k :: 0 <= k < |log| ==> log'[k] == log[k]
  {
    assert forall k :: 0 <= k < |log| ==> log'[..|log|][k] == log'[k];
  }

  lemma StillNothingReversed(log: seq<Record>, log': seq<Record>)
    requires NothingReversed(log) && Logs(log, log')
    ensures NothingReversed(log')
  {
    forall j | 0 <= j < |log'| ensures log'[j].reverses.None? {
      if j < |log| {
        assert log'[..|log|][j] == log[j];
      }
    }
  }

  predicate TwoLetters(s: string) {
    |s| == 2 && 'A' <= s[0] <= 'Z' && 'A' <= s[1] <= 'Z'
  }

  lemma ShortNamesStay(s: string)
    requires TwoLetters(s)
    ensures Trim(s) == s && WesternDigits(s) == s && NormalisedName(s) == s
  {
    CollapseFixesSingleSpaced(s, false);
    assert s[1..] == [s[1]] && s[1..][1..] == "" && s == [s[0]] + [s[1]];
  }

  // ----- the requests, one by one -----

  lemma CreateGoes(s: State, id: PropertyId, code: string, name: string) returns (step: Step, s': State)
    requires s.schema == TWO_LOOKUPS && id !in s.rows && TwoLetters(code) && TwoLetters(name) && !CodeTaken(s, code)
    ensures !step.DoRedefine? && Owner(PLAIN, s, step) == id && Apply(PLAIN, s, step) == Accepted(s')
    ensures s' == s.(rows := s.rows[id := Named(code, name, 1)], log := s'.log) && Logs(s.log, s'.log)
  {
    step := DoCreate(id, code, [], name, 0, 0, []);
    ShortNamesStay(name);
    ShortNamesStay(code);
    assert ChooseCode(PLAIN, s, code, []) == Coded(code);
    var placed := s.(rows := s.rows[id := Named(code, name, 1)]);
    assert SaveBodies(placed, id, []) == Accepted(placed);
    s' := Apply(PLAIN, s, step).state;
  }

  lemma RenamingIsRecorded(before: Row, after: Row)
    requires before.name != after.name && before.typeId == after.typeId && before.areaId == after.areaId
    ensures DiffKeys(RowAttrs(before), RowAttrs(after)) == {Name}
    ensures DiffSide({Name}, RowAttrs(before)) == map[Name := Str(before.name)]
  {
    assert RowAttrs(before)[Name] != RowAttrs(after)[Name];
  }

  lemma NoValuesNoDifference(custom: map<FieldId, Json>, secret: map<FieldId, string>)
    requires custom == map[] && secret == map[]
    ensures DiffKeys(custom, custom) == {} && DiffSide({}, custom) == map[] && ChangedSecrets(secret, secret) == {}
  {
  }

  lemma RenamingPayloads(s: State, s': State, id: PropertyId)
    requires id in s.rows && s.rows[id] == Named("AA", "HH", 1) && s.schema == TWO_LOOKUPS && s.values == NOTHING
    requires s' == s.(rows := s.rows[id := Named("AA", "MM", 2)])
    ensures Some(ModifiedPayload(s, s', id, s)) == RENAMED.before
    ensures Some(ModifiedPayload(s, s', id, s')) == RENAMED.after
  {
    assert "HH"[0] != "MM"[0];
    RenamingIsRecorded(s.rows[id], s'.rows[id]);
    RenamingIsRecorded(s'.rows[id], s.rows[id]);
    NoValuesNoDifference(map[], map[]);
    assert AuditStateOf(s, id) == AuditState(RowAttrs(s.rows[id]), map[], map[]);
    assert AuditStateOf(s', id) == AuditState(RowAttrs(s'.rows[id]), map[], map[]);
  }

  lemma ReplaceGoes(s: State, updated: State, id: PropertyId) returns (s': State)
    requires id in s.rows && s.rows[id] == Named("AA", "HH", 1) && s.schema == TWO_LOOKUPS && s.values == NOTHING
    requires updated == s.(rows := s.rows[id := Named("AA", "MM", 2)])
    ensures ReplaceAndLog(s, updated, id, []) == Accepted(s') && s' == updated.(log := s'.log)
    ensures Logs(s.log, s'.log) && s'.log[|s.log|] == RENAMED
  {
    assert WithoutProperty(s.values, id) == s.values;
    assert SaveBodies(updated, id, []) == Accepted(updated);
    RenamingPayloads(s, updated, id);
    s' := Logged(updated, RENAMED);
  }

  lemma UpdateGoes(s: State, id: PropertyId) returns (s': State)
    requires s.schema == TWO_LOOKUPS && s.values == NOTHING && id in s.rows && s.rows[id] == Named("AA", "HH", 1)
    ensures UpdateAndLog(PLAIN, s, id, 1, "MM", 0, 0, []) == Accepted(s')
    ensures s' == s.(rows := s.rows[id := Named("AA", "MM", 2)], log := s'.log)
    ensures Logs(s.log, s'.log) && s'.log[|s.log|] == RENAMED
  {
    var updated := s.(rows := s.rows[id := Named("AA", "MM", 2)]);
    assert StoreUpdate(s, id, "MM", "MM", 0, 0, 1) == Accepted(updated);
    s' := ReplaceGoes(s, updated, id);
  }

  lemma ModifyGoes(s: State, id: PropertyId) returns (step: Step, s': State)
    requires s.schema == TWO_LOOKUPS && s.values == NOTHING && id in s.rows && s.rows[id] == Named("AA", "HH", 1)
    ensures !step.DoRedefine? && Owner(PLAIN, s, step) == id && Apply(PLAIN, s, step) == Accepted(s')
    ensures s' == s.(rows := s.rows[id := Named("AA", "MM", 2)], log := s'.log)
    ensures Logs(s.log, s'.log) && s'.log[|s.log|] == RENAMED
  {
    step := DoModify(id, 1, "MM", 0, 0, []);
    ShortNamesStay("MM");
    s' := UpdateGoes(s, id);
  }

  lemma ChangeGoes(s: State, id: PropertyId, version: int, code: string) returns (step: Step, s': State)
    requires id in s.rows && s.rows[id].version == version && s.rows[id].archivedAt.None? && TwoLetters(code)
    requires !CodeTakenByOther(s, id, code)
    ensures !step.DoRedefine? && Owner(PLAIN, s, step) == id && Apply(PLAIN, s, step) == Accepted(s')
    ensures var row := s.rows[id].(code := code, codeNormalized := code, version := version + 1);
            s' == s.(rows := s.rows[id := row], log := s'.log)
    ensures Logs(s.log, s'.log)
  {
    step := DoChangeCode(id, version, code);
    ShortNamesStay(code);
    s' := Apply(PLAIN, s, step).state;
  }

  lemma Taken(l: Ledger, steps: seq<Step>, step: Step, id: PropertyId, s': State)
    returns (l': Ledger, steps': seq<Step>)
    requires l == LedgerRun(PLAIN, START, steps) && !step.DoRedefine? && Apply(PLAIN, l.state, step) == Accepted(s')
    requires id == Owner(PLAIN, l.state, step) && NothingReversed(l.state.log) && Logs(l.state.log, s'.log)
    ensures l' == LedgerRun(PLAIN, START, steps') && l'.state == s' && l'.owners == l.owners + [id]
    ensures NothingReversed(s'.log) && forall k :: 0 <= k < |l.state.log| ==> s'.log[k] == l.state.log[k]
  {
    l', steps' := Advance(PLAIN, l, step), steps + [step];
    LedgerRunAppend(PLAIN, START, steps, step);
    StillNothingReversed(l.state.log, s'.log);
    LogsKeep(l.state.log, s'.log);
  }

  // ----- and one after the other -----

  // Create 0 as "AA" ...
  lemma Created() returns (steps: seq<Step>, l: Ledger)
    ensures l == LedgerRun(PLAIN, START, steps) && l.owners == [0]
    ensures l.state.schema == TWO_LOOKUPS && l.state.values == NOTHING && l.state.rows == map[0 := Named("AA", "HH", 1)]
    ensures |l.state.log| == 1 && NothingReversed(l.state.log)
  {
    var step, s := CreateGoes(START.state, 0, "AA", "HH");
    assert LedgerRun(PLAIN, START, []) == START;
    l, steps := Taken(START, [], step, 0, s);
    assert [] + [0] == [0];
  }

  lemma OnlyRow(rows: map<PropertyId, Row>, before: Row, after: Row)
    requires rows == map[0 := before]
    ensures 0 in rows && rows[0] == before && rows[0 := after] == map[0 := after]
    ensures forall other :: other in rows ==> other == 0
  {
  }

  lemma RenamingGoes(s: State) returns (step: Step, s': State)
    requires s.schema == TWO_LOOKUPS && s.values == NOTHING && s.rows == map[0 := Named("AA", "HH", 1)]
    ensures !step.DoRedefine? && Owner(PLAIN, s, step) == 0 && Apply(PLAIN, s, step) == Accepted(s')
    ensures s' == s.(rows := map[0 := Named("AA", "MM", 2)], log := s'.log) && Logs(s.log, s'.log)
    ensures s'.log[|s.log|] == RENAMED
  {
    OnlyRow(s.rows, Named("AA", "HH", 1), Named("AA", "MM", 2));
    step, s' := ModifyGoes(s, 0);
  }

  // ... modify it ...
  lemma Modified() returns (steps: seq<Step>, l: Ledger)
    ensures l == LedgerRun(PLAIN, START, steps) && l.owners == [0, 0]
    ensures l.state.schema == TWO_LOOKUPS && l.state.values == NOTHING && l.state.rows == map[0 := Named("AA", "MM", 2)]
    ensures |l.state.log| == 2 && NothingReversed(l.state.log) && l.state.log[1] == RENAMED
  {
    steps, l := Created();
    var step, s := RenamingGoes(l.state);
    assert l.owners + [0] == [0, 0];
    l, steps := Taken(l, steps, step, 0, s);
  }

  lemma CodeGoes(s: State) returns (step: Step, s': State)
    requires s.rows == map[0 := Named("AA", "MM", 2)]
    ensures !step.DoRedefine? && Owner(PLAIN, s, step) == 0 && Apply(PLAIN, s, step) == Accepted(s')
    ensures s' == s.(rows := map[0 := Named("BB", "MM", 3)], log := s'.log) && Logs(s.log, s'.log)
  {
    OnlyRow(s.rows, Named("AA", "MM", 2), Named("BB", "MM", 3));
    step, s' := ChangeGoes(s, 0, 2, "BB");
  }

  // ... make its code "BB" ...
  lemma CodeGivenUp() returns (steps: seq<Step>, l: Ledger)
    ensures l == LedgerRun(PLAIN, START, steps) && l.owners == [0, 0, 0]
    ensures l.state.schema == TWO_LOOKUPS && l.state.values == NOTHING && l.state.rows == map[0 := Named("BB", "MM", 3)]
    ensures |l.state.log| == 3 && NothingReversed(l.state.log) && l.state.log[1] == RENAMED
  {
    steps, l := Modified();
    var step, s := CodeGoes(l.state);
    assert l.owners + [0] == [0, 0, 0];
    l, steps := Taken(l, steps, step, 0, s);
  }

  // ... and create 1 as "AA".
  lemma CodeTakenOver() returns (steps: seq<Step>, l: Ledger)
    ensures l == LedgerRun(PLAIN, START, steps) && l.owners == [0, 0, 0, 1]
    ensures l.state.schema == TWO_LOOKUPS && l.state.values == NOTHING
    ensures l.state.rows == map[0 := Named("BB", "MM", 3), 1 := Named("AA", "SS", 1)]
    ensures |l.state.log| == 4 && NothingReversed(l.state.log) && l.state.log[1] == RENAMED
  {
    steps, l := CodeGivenUp();
    assert "BB"[0] != "AA"[0];
    var step, s := CreateGoes(l.state, 1, "AA", "SS");
    assert l.owners + [1] == [0, 0, 0, 1];
    l, steps := Taken(l, steps, step, 1, s);
  }

  lemma TheOtherHolds(s: State, k: nat)
    requires k < |s.log| && s.log[k] == RENAMED
    requires s.rows == map[0 := Named("BB", "MM", 3), 1 := Named("AA", "SS", 1)]
    ensures UndoTarget(PLAIN, s, k) == Resolved(1)
  {
    ShortNamesStay("AA");
    assert s.rows[1].codeNormalized == "AA" && "BB"[0] != "AA"[0];
    assert CodeTaken(s, "AA");
    assert forall id :: id in s.rows ==> id == 0 || id == 1;
  }

  lemma TheUndoGoes(s: State, actor: AccountId, now: int)
    requires |s.log| == 4 && NothingReversed(s.log) && s.log[1] == RENAMED && s.schema == TWO_LOOKUPS
    requires s.rows == map[0 := Named("BB", "MM", 3), 1 := Named("AA", "SS", 1)]
    ensures UndoTarget(PLAIN, s, 1) == Resolved(1) && Undo(PLAIN, s, 1, actor, now).Accepted?
  {
    TheOtherHolds(s, 1);
    assert |"HH"| == 2;
    UndoOfModifyAccepted(PLAIN, s, 1, RENAMED, 1, s, actor, now);
  }

  lemma NothingPatched(m: map<FieldId, Json>, patch: map<FieldId, Json>)
    requires patch == map[]
    ensures PatchMap(m, patch) == m
  {
    assert patch.Keys == {} && m - patch.Keys == m;
  }

  lemma TheNameIsPatched(v: View)
    ensures PatchView(v, RENAMED.before.value) == v.(name := "HH")
  {
    NothingPatched(v.custom, RENAMED.before.value.custom);
  }

  lemma ThePatch(s: State, s': State, k: nat, id: PropertyId)
    requires k < |s.log| && UndoTarget(PLAIN, s, k) == Resolved(id) && s.log[k] == RENAMED && UndoFacts(PLAIN, s, s', k)
    ensures id in s.rows && Views(s') == Views(s)[id := ViewOf(s, id).(name := "HH")]
  {
    TheNameIsPatched(ViewOf(s, id));
  }

  // Record 1 is about property 0. Undoing it goes through, and gives property 1 the name that
  // property 0 had.
  lemma TheUndoIsMisled(s: State, actor: AccountId, now: int) returns (s': State)
    requires Valid(PLAIN, s) && |s.log| == 4 && NothingReversed(s.log) && s.log[1] == RENAMED
    requires s.schema == TWO_LOOKUPS && s.rows == map[0 := Named("BB", "MM", 3), 1 := Named("AA", "SS", 1)]
    ensures UndoTarget(PLAIN, s, 1) == Resolved(1) && Undo(PLAIN, s, 1, actor, now) == Accepted(s')
    ensures Views(s') == Views(s)[1 := ViewOf(s, 1).(name := "HH")]
  {
    TheUndoGoes(s, actor, now);
    UndoIsThreeWayMerge(PLAIN, s, 1, actor, now);
    s' := Undo(PLAIN, s, 1, actor, now).state;
    ThePatch(s, s', 1, 1);
  }

  lemma AMisledUndo(actor: AccountId, now: int) returns (steps: seq<Step>, l: Ledger, s': State)
    ensures SchemaSound(TWO_LOOKUPS) && l == LedgerRun(PLAIN, START, steps)
    ensures l.owners == [0, 0, 0, 1] && |l.state.log| == 4 && l.state.log[1] == RENAMED
    ensures l.state.rows == map[0 := Named("BB", "MM", 3), 1 := Named("AA", "SS", 1)]
    ensures UndoTarget(PLAIN, l.state, 1) == Resolved(1) && Undo(PLAIN, l.state, 1, actor, now) == Accepted(s')
    ensures Views(s') == Views(l.state)[1 := ViewOf(l.state, 1).(name := "HH")]
  {
    steps, l := CodeTakenOver();
    LedgerRunTracks(PLAIN, START, steps);
    EveryReachableStateIsValid(PLAIN, TWO_LOOKUPS, steps);
    s' := TheUndoIsMisled(l.state, actor, now);
  }
}
