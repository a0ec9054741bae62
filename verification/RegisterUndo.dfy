/**
 Undo taken back to the start of a run: each edit's record, undone while the register
 looks as it did right after the edit, is accepted and brings the earlier look back.
 */
module RegisterUndo {
  import opened Basics
  import opened RegisterModel
  import opened RegisterViews
  import opened RegisterTheory
  import opened RegisterHistory

  // ----- each kind of record is accepted -----

  // Record `k` of `t` is the row that the step from `s` to `s'` wrote about `id`: it can
  // still be undone, and the undo finds `id` again, in the state the step left it.
  ghost predicate Undoable(n: Normaliser, t: State, k: nat, r: Record, id: PropertyId, s': State) {
    && id in t.rows && id in s'.rows
    && k < |t.log| && t.log[k] == r && r.reverses.None? && !Undone(t, k)
    && UndoTarget(n, t, k) == Resolved(id)
    && t.rows[id].archivedAt.Some? == s'.rows[id].archivedAt.Some?
  }

  lemma UndoOfArchiveAccepted(n: Normaliser, t: State, k: nat, r: Record, id: PropertyId, s': State, actor: AccountId,
      now: int)
    requires Undoable(n, t, k, r, id, s') && r.action == PropertyArchived && s'.rows[id].archivedAt.Some?
    ensures Undo(n, t, k, actor, now).Accepted?
  {
  }

  lemma UndoOfRestoreAccepted(n: Normaliser, t: State, k: nat, r: Record, id: PropertyId, s': State, actor: AccountId,
      now: int)
    requires Undoable(n, t, k, r, id, s') && r.action == PropertyRestored && s'.rows[id].archivedAt.None?
    ensures Undo(n, t, k, actor, now).Accepted?
  {
  }

  lemma UndoOfCodeChangeAccepted(n: Normaliser, t: State, k: nat, r: Record, id: PropertyId, s': State, code: string,
                                 actor: AccountId, now: int)
    requires Undoable(n, t, k, r, id, s') && r.action == PropertyCodeChanged && s'.rows[id].archivedAt.None?
    requires CodeOk(code) && r.before == Some(CodePayload(code)) && !CodeTakenByOther(t, id, n.canonical(code))
    ensures Undo(n, t, k, actor, now).Accepted?
  {
    assert UndoCodeChangedAt(n, t, k, id, code).Accepted?;
  }

  // What a modification's record must look like for its undo to go through: every value
  // it holds still has a place, and the attributes it writes make an admissible row.
  ghost predicate Writable(schema: Schema, row: Row, p: Payload) {
    && p.sensitive == {}
    && (PropertyTypeId in p.attrs ==> p.attrs[PropertyTypeId].Ref?) && (AreaId in p.attrs ==> p.attrs[AreaId].Ref?)
    && RowAdmissible(schema,
         if Name in p.attrs then AsString(p.attrs[Name]) else row.name,
         if PropertyTypeId in p.attrs then p.attrs[PropertyTypeId].id else row.typeId,
         if AreaId in p.attrs then p.attrs[AreaId].id else row.areaId)
    && forall f :: f in p.custom ==> Restorable(schema.defs, f, p.custom[f]) && ChoicesExist(schema, p.custom[f])
  }

  lemma UndoOfModifyAccepted(n: Normaliser, t: State, k: nat, r: Record, id: PropertyId, s': State, actor: AccountId,
      now: int)
    requires Undoable(n, t, k, r, id, s') && r.action == PropertyModified && s'.rows[id].archivedAt.None?
    requires r.before.Some? && Writable(t.schema, t.rows[id], r.before.value)
    ensures Undo(n, t, k, actor, now).Accepted?
  {
    assert UndoModifiedAt(n, t, k, r, id).Accepted?;
  }

  lemma DiffSideEntries(changed: set<FieldId>, side: map<FieldId, Json>, f: FieldId)
    requires f in DiffSide(changed, side)
    ensures f in changed && (DiffSide(changed, side)[f] == Null || (f in side && DiffSide(changed, side)[f] == side[f]))
  {
  }

  // The record of a modification restores only what the schema still has room for.
  lemma RecordedCustomRestorable(s: State, s': State, id: PropertyId, f: FieldId)
    requires id in s.rows && id in s'.rows && s'.schema == s.schema
    requires ValuesFit(s.schema, s.values) && ValuesFit(s.schema, s'.values)
    requires f in ModifiedPayload(s, s', id, s).custom
    ensures var j := ModifiedPayload(s, s', id, s).custom[f];
            Restorable(s.schema.defs, f, j) && ChoicesExist(s.schema, j)
  {
    var was, now := PublicValues(s.values, s.schema.defs, id), PublicValues(s'.values, s.schema.defs, id);
    PublicShape(s.schema, s.values, id);
    PublicShape(s.schema, s'.values, id);
    DiffSideEntries(DiffKeys(was, now), was, f);
    assert f in was || f in now;
  }

  // The name, type and area an undo writes are those of the row before the edit.
  lemma RecordedAttrsAreTheOldRow(row: Row, row': Row, now: Row)
    requires now.name == row'.name && now.typeId == row'.typeId && now.areaId == row'.areaId
    ensures var attrs := DiffSide(DiffKeys(RowAttrs(row), RowAttrs(row')), RowAttrs(row));
            && (if Name in attrs then AsString(attrs[Name]) else now.name) == row.name
            && (PropertyTypeId in attrs ==> attrs[PropertyTypeId].Ref?) && (AreaId in attrs ==> attrs[AreaId].Ref?)
            && (if PropertyTypeId in attrs then attrs[PropertyTypeId].id else now.typeId) == row.typeId
            && (if AreaId in attrs then attrs[AreaId].id else now.areaId) == row.areaId
  {
    DiffKeysSymmetric(RowAttrs(row), RowAttrs(row'));
    RowAttrsPatch(row', row);
  }

  lemma RecordIsWritable(s: State, s': State, id: PropertyId, now: Row)
    requires id in s.rows && id in s'.rows && s'.schema == s.schema
    requires ValuesFit(s.schema, s.values) && ValuesFit(s.schema, s'.values)
    requires RowAdmissible(s.schema, s.rows[id].name, s.rows[id].typeId, s.rows[id].areaId)
    requires now.name == s'.rows[id].name && now.typeId == s'.rows[id].typeId && now.areaId == s'.rows[id].areaId
    ensures Writable(s.schema, now, ModifiedPayload(s, s', id, s).(sensitive := {}))
  {
    RecordedAttrsAreTheOldRow(s.rows[id], s'.rows[id], now);
    forall f | f in ModifiedPayload(s, s', id, s).custom
      ensures Restorable(s.schema.defs, f, ModifiedPayload(s, s', id, s).custom[f])
      ensures ChoicesExist(s.schema, ModifiedPayload(s, s', id, s).custom[f])
    {
      RecordedCustomRestorable(s, s', id, f);
    }
  }

  lemma IsUndoable(n: Normaliser, s: State, step: Step, s': State, t: State)
    requires Valid(n, s) && PlainEdit(n, s, step, s') && LooksLike(n, t, s', |s.log|)
    ensures Undoable(n, t, |s.log|, Last(s'), EditOwner(step), s')
  {
    EditRecord(n, s, step, s');
    UndoFindsTheOwner(n, s, step, s', t);
    LooksLikeAt(n, t, s', |s.log|, EditOwner(step));
    EditWritesPlainRecord(n, s, step, s');
  }

  lemma ModifyWritesPlainRecord(n: Normaliser, s: State, step: Step, s': State)
    requires ValuesFit(s.schema, s.values) && step.DoModify? && Apply(n, s, step) == Accepted(s')
    ensures s'.schema == s.schema && step.id in s.rows && step.id in s'.rows && s'.rows[step.id].archivedAt.None?
    ensures s'.log != [] && Last(s').reverses.None? && Last(s').action == PropertyModified
  {
    ModifySteps(n, s, step.id, step.version, step.name, step.typeId, step.areaId, step.bodies, s');
  }

  lemma EditWritesPlainRecord(n: Normaliser, s: State, step: Step, s': State)
    requires ValuesFit(s.schema, s.values) && PlainEdit(n, s, step, s')
    ensures Last(s').reverses.None? && s'.schema == s.schema
    ensures EditOwner(step) in s.rows && EditOwner(step) in s'.rows
    ensures Last(s').action == (match step
              case DoModify(_, _, _, _, _, _) => PropertyModified
              case DoChangeCode(_, _, _) => PropertyCodeChanged
              case DoArchive(_, _, _, _, _) => PropertyArchived
              case _ => PropertyRestored)
    ensures step.DoArchive? <==> s'.rows[EditOwner(step)].archivedAt.Some?
    ensures step.DoChangeCode? ==>
              && Last(s').before == Some(CodePayload(s.rows[step.id].code))
              && s'.rows == s.rows[step.id := s'.rows[step.id]]
  {
    if step.DoModify? {
      ModifyWritesPlainRecord(n, s, step, s');
    }
  }

  lemma OthersKeepTheirCode(n: Normaliser, s: State, s': State, t: State, id: PropertyId)
    requires (forall a :: a in s.rows ==> RowOk(n, s.rows[a])) && (forall a :: a in t.rows ==> RowOk(n, t.rows[a]))
    requires CodesUnique(s) && id in s.rows && s'.rows.Keys == s.rows.Keys
    requires forall other :: other in s.rows && other != id ==> s'.rows[other].code == s.rows[other].code
    requires Views(t) == Views(s')
    ensures !CodeTakenByOther(t, id, s.rows[id].codeNormalized)
  {
    forall other | other in t.rows && other != id
      ensures t.rows[other].codeNormalized != s.rows[id].codeNormalized
    {
      SameViews(s', t, other);
    }
  }

  lemma ModificationUndoAccepted(n: Normaliser, s: State, step: Step, s': State, t: State, actor: AccountId, now: int)
    requires ValuesFit(s.schema, s.values) && step.DoModify? && PlainEdit(n, s, step, s')
    requires step.id in s.rows
    requires RowAdmissible(s.schema, s.rows[step.id].name, s.rows[step.id].typeId, s.rows[step.id].areaId)
    requires Undoable(n, t, |s.log|, Last(s'), step.id, s') && t.schema == s.schema
    requires ViewOf(t, step.id) == ViewOf(s', step.id)
    ensures Undo(n, t, |s.log|, actor, now).Accepted?
  {
    ModifySteps(n, s, step.id, step.version, step.name, step.typeId, step.areaId, step.bodies, s');
    assert t.rows[step.id].name == s'.rows[step.id].name;
    RecordIsWritable(s, s', step.id, t.rows[step.id]);
    UndoOfModifyAccepted(n, t, |s.log|, Last(s'), step.id, s', actor, now);
  }

  lemma CodeUndoAccepted(n: Normaliser, s: State, s': State, id: PropertyId, t: State, actor: AccountId, now: int)
    requires (forall a :: a in s.rows ==> RowOk(n, s.rows[a])) && (forall a :: a in t.rows ==> RowOk(n, t.rows[a]))
    requires CodesUnique(s) && id in s.rows && id in s'.rows && s'.rows == s.rows[id := s'.rows[id]]
    requires s'.log != [] && Last(s').action == PropertyCodeChanged && s'.rows[id].archivedAt.None?
    requires Last(s').before == Some(CodePayload(s.rows[id].code))
    requires Undoable(n, t, |s.log|, Last(s'), id, s') && Views(t) == Views(s')
    ensures Undo(n, t, |s.log|, actor, now).Accepted?
  {
    assert s'.rows.Keys == s.rows.Keys;
    OthersKeepTheirCode(n, s, s', t, id);
    UndoOfCodeChangeAccepted(n, t, |s.log|, Last(s'), id, s', s.rows[id].code, actor, now);
  }

  lemma UndoAccepted(n: Normaliser, s: State, step: Step, s': State, t: State, actor: AccountId, now: int)
    requires Valid(n, s) && PlainEdit(n, s, step, s') && LooksLike(n, t, s', |s.log|)
    ensures Undo(n, t, |s.log|, actor, now).Accepted?
  {
    var id, k := EditOwner(step), |s.log|;
    IsUndoable(n, s, step, s', t);
    EditWritesPlainRecord(n, s, step, s');
    if step.DoModify? {
      RowIsOk(n, s, id);
      LooksLikeAt(n, t, s', k, id);
      ModificationUndoAccepted(n, s, step, s', t, actor, now);
    } else if step.DoChangeCode? {
      CodeUndoAccepted(n, s, s', id, t, actor, now);
    } else if step.DoArchive? {
      UndoOfArchiveAccepted(n, t, k, Last(s'), id, s', actor, now);
    } else {
      UndoOfRestoreAccepted(n, t, k, Last(s'), id, s', actor, now);
    }
  }

  // ----- sensitive values -----

  // Every property has the same sensitive values in both registers.
  ghost predicate SameSecrets(s: State, t: State) {
    forall p: PropertyId ::
      SecretValues(t.values, t.schema.defs, p) == SecretValues(s.values, s.schema.defs, p)
  }

  lemma NoChangedSecrets(before: map<FieldId, string>, after: map<FieldId, string>)
    requires ChangedSecrets(before, after) == {}
    ensures before == after
  {
    forall f: FieldId ensures (f in before <==> f in after) && (f in before ==> before[f] == after[f]) {
      assert f !in ChangedSecrets(before, after);
    }
    SameMap(before, after);
  }

  lemma ModifyKeepsSecrets(n: Normaliser, s: State, step: Step, s': State)
    requires ValuesFit(s.schema, s.values) && step.DoModify? && Apply(n, s, step) == Accepted(s')
    requires s'.log != [] && Last(s').before.Some? && Last(s').before.value.sensitive == {}
    ensures SameSecrets(s, s')
  {
    ModifySteps(n, s, step.id, step.version, step.name, step.typeId, step.areaId, step.bodies, s');
    NoChangedSecrets(SecretValues(s.values, s.schema.defs, step.id), SecretValues(s'.values, s.schema.defs, step.id));
    forall p: PropertyId
      ensures SecretValues(s'.values, s'.schema.defs, p) == SecretValues(s.values, s.schema.defs, p)
    {
      if p != step.id {
        SecretElsewhere(s.values, s'.values, s.schema.defs, step.id, p);
      }
    }
  }

  // An edit whose record names no sensitive field has changed none.
  lemma EditKeepsSecrets(n: Normaliser, s: State, step: Step, s': State)
    requires ValuesFit(s.schema, s.values) && PlainEdit(n, s, step, s')
    ensures SameSecrets(s, s')
  {
    if step.DoModify? {
      ModifyKeepsSecrets(n, s, step, s');
    } else {
      assert s'.values == s.values && s'.schema == s.schema;
    }
  }

  lemma {:induction false} PlainRunKeepsSecrets(n: Normaliser, s: State, steps: seq<Step>)
    requires Valid(n, s) && PlainRun(n, s, steps)
    ensures SameSecrets(s, Run(n, s, steps))
    decreases |steps|
  {
    if steps != [] {
      FirstOfRun(n, s, steps);
      EditKeepsSecrets(n, s, steps[0], Next(n, s, steps[0]));
      PlainRunKeepsSecrets(n, Next(n, s, steps[0]), steps[1..]);
    }
  }

  // ----- one step back -----

  // What undoing the last edit leaves: the earlier look, and one more record that
  // reverses exactly that edit's.
  ghost predicate SteppedBack(n: Normaliser, s: State, t: State, t': State, k: nat) {
    && Valid(n, t') && t'.schema == t.schema && Views(t') == Views(s)
    && t'.log != [] && t'.log == t.log + [Last(t')] && Last(t').reverses == Some(k)
  }

  lemma EditInverts(n: Normaliser, s: State, step: Step, s': State)
    requires Valid(n, s) && PlainEdit(n, s, step, s')
    ensures var id := EditOwner(step);
            && id in s.rows && id in s'.rows
            && Views(s') == Views(s)[id := ViewOf(s', id)]
            && PatchView(ViewOf(s', id), Last(s').before.value) == ViewOf(s, id)
  {
    var id := EditOwner(step);
    EditFacts(n, s, step, s');
    PatchedAt(s, s', id, Last(s').after, id);
  }

  lemma OverwriteBack<K, V>(a: map<K, V>, b: map<K, V>, k: K, v: V)
    requires k in a && b == a[k := v]
    ensures b[k := a[k]] == a
  {
  }

  lemma ViewsBack(s: State, s': State, t: State, id: PropertyId, v: View)
    requires id in s.rows && Views(s') == Views(s)[id := v] && Views(t) == Views(s')
    ensures Views(t)[id := ViewOf(s, id)] == Views(s)
  {
    ViewAt(s, s, Views(s), id);
    OverwriteBack(Views(s), Views(t), id, v);
  }

  lemma UndoSteppedBack(n: Normaliser, s: State, step: Step, s': State, t: State, actor: AccountId, now: int)
    requires Valid(n, s) && PlainEdit(n, s, step, s') && LooksLike(n, t, s', |s.log|)
    ensures var r := Undo(n, t, |s.log|, actor, now);
            && r.Accepted? && SteppedBack(n, s, t, r.state, |s.log|)
            && SameSecrets(t, r.state) && (SameSecrets(s', t) ==> SameSecrets(s, r.state))
  {
    var k, id := |s.log|, EditOwner(step);
    UndoAccepted(n, s, step, s', t, actor, now);
    UndoFindsTheOwner(n, s, step, s', t);
    UndoIsThreeWayMerge(n, t, k, actor, now);
    var t' := Undo(n, t, k, actor, now).state;
    EditInverts(n, s, step, s');
    EditKeepsSecrets(n, s, step, s');
    LooksLikeAt(n, t, s', k, id);
    ViewsBack(s, s', t, id, ViewOf(s', id));
    Appended(t.log, t'.log);
  }

  // ----- all the way back -----

  // Undoes the records hi - 1 down to lo, last first, stopping at a refusal.
  ghost function UndoBack(n: Normaliser, t: State, lo: nat, hi: nat, actor: AccountId, now: int): Result
    requires lo <= hi
    decreases hi - lo
  {
    if lo == hi then Accepted(t)
    else
      var later := UndoBack(n, t, lo + 1, hi, actor, now);
      if later.Refused? then later else Undo(n, later.state, lo, actor, now)
  }

  // Every step is an accepted edit that touched no sensitive field.
  ghost predicate PlainRun(n: Normaliser, s: State, steps: seq<Step>)
    decreases |steps|
  {
    steps == [] ||
    (&& Apply(n, s, steps[0]).Accepted?
     && PlainEdit(n, s, steps[0], Next(n, s, steps[0]))
     && PlainRun(n, Next(n, s, steps[0]), steps[1..]))
  }

  lemma {:induction false} PlainRunAppends(n: Normaliser, s: State, steps: seq<Step>)
    requires Valid(n, s) && PlainRun(n, s, steps)
    ensures var e := Run(n, s, steps);
            Valid(n, e) && e.schema == s.schema && s.log <= e.log && |e.log| == |s.log| + |steps|
    decreases |steps|
  {
    if steps != [] {
      var s' := Next(n, s, steps[0]);
      EditRecord(n, s, steps[0], s');
      EditWritesPlainRecord(n, s, steps[0], s');
      ApplyKeepsValid(n, s, steps[0]);
      PlainRunAppends(n, s', steps[1..]);
      PrefixTransitive(s.log, s'.log, Run(n, s', steps[1..]).log);
    }
  }

  lemma PrefixTransitive<T>(a: seq<T>, b: seq<T>, c: seq<T>)
    requires a <= b <= c
    ensures a <= c
  {
  }

  // Reversals of records before `base` are the same in both registers.
  ghost predicate SameUndone(t: State, t': State, base: nat) {
    forall k :: 0 <= k < base ==> (Undone(t', k) <==> Undone(t, k))
  }

  lemma SteppedBackUndone(t: State, t': State, k: nat)
    requires t'.log != [] && t'.log == t.log + [Last(t')] && Last(t').reverses == Some(k)
    ensures SameUndone(t, t', k)
  {
    forall j | 0 <= j < k ensures Undone(t', j) <==> Undone(t, j) {
      if Undone(t, j) {
        var i :| 0 <= i < |t.log| && t.log[i].reverses == Some(j) && t.log[i].action == RecordReverted;
        assert t'.log[i] == t.log[i];
      }
      if Undone(t', j) {
        var i :| 0 <= i < |t'.log| && t'.log[i].reverses == Some(j) && t'.log[i].action == RecordReverted;
        assert t'.log[i] == t.log[i];
      }
    }
  }

  // The registers the theorem passes through: one that looks like `s`, holds the log of
  // `s` as a prefix, and has the same older records reversed as `t`.
  ghost predicate BackAt(n: Normaliser, s: State, t: State, r: Result) {
    && r.Accepted? && Valid(n, r.state) && r.state.schema == s.schema && Views(r.state) == Views(s)
    && s.log <= r.state.log && SameUndone(t, r.state, |s.log|) && SameSecrets(t, r.state)
  }

  lemma BackOne(n: Normaliser, s: State, step: Step, s': State, t: State, later: State, actor: AccountId, now: int)
    requires Valid(n, s) && PlainEdit(n, s, step, s') && BackAt(n, s', t, Accepted(later))
    requires s.log <= s'.log && |s'.log| == |s.log| + 1 && !Undone(t, |s.log|)
    ensures BackAt(n, s, t, Undo(n, later, |s.log|, actor, now))
  {
    assert !Undone(later, |s.log|);
    UndoSteppedBack(n, s, step, s', later, actor, now);
    EditWritesPlainRecord(n, s, step, s');
    var r := Undo(n, later, |s.log|, actor, now).state;
    SteppedBackUndone(later, r, |s.log|);
    PrefixTransitive(s.log, s'.log, later.log);
    PrefixTransitive(s.log, later.log, r.log);
  }

  lemma FirstOfRun(n: Normaliser, s: State, steps: seq<Step>)
    requires Valid(n, s) && PlainRun(n, s, steps) && steps != []
    ensures var s' := Next(n, s, steps[0]);
            && PlainEdit(n, s, steps[0], s') && Valid(n, s') && PlainRun(n, s', steps[1..])
            && s.log <= s'.log && |s'.log| == |s.log| + 1 && Run(n, s, steps) == Run(n, s', steps[1..])
  {
    ApplyKeepsValid(n, s, steps[0]);
    EditRecord(n, s, steps[0], Next(n, s, steps[0]));
  }

  lemma UndoBackUnfolds(n: Normaliser, t: State, lo: nat, hi: nat, later: State, actor: AccountId, now: int)
    requires lo < hi && UndoBack(n, t, lo + 1, hi, actor, now) == Accepted(later)
    ensures UndoBack(n, t, lo, hi, actor, now) == Undo(n, later, lo, actor, now)
  {
  }

  lemma {:induction false} UndoBackFrom(n: Normaliser, s: State, steps: seq<Step>, t: State, lo: nat, hi: nat,
                                        actor: AccountId, now: int) returns (r: Result)
    requires Valid(n, s) && PlainRun(n, s, steps) && lo == |s.log| && hi == lo + |steps|
    requires BackAt(n, Run(n, s, steps), t, Accepted(t))
    requires forall k :: lo <= k < hi ==> !Undone(t, k)
    ensures r == UndoBack(n, t, lo, hi, actor, now) && BackAt(n, s, t, r)
    decreases |steps|
  {
    if steps == [] {
      r := Accepted(t);
    } else {
      var s' := Next(n, s, steps[0]);
      FirstOfRun(n, s, steps);
      var later := UndoBackFrom(n, s', steps[1..], t, lo + 1, hi, actor, now);
      BackOne(n, s, steps[0], s', t, later.state, actor, now);
      UndoBackUnfolds(n, t, lo, hi, later.state, actor, now);
      r := Undo(n, later.state, lo, actor, now);
    }
  }

  // Any run of accepted modifications, code changes, archives and restores that touched
  // no sensitive field, over any number of properties: undoing its records last to first
  // is accepted every time and gives every property back its name, type, area, code,
  // archive state, note and custom values, the sensitive ones included.
  lemma UndoingARunRestoresTheStart(n: Normaliser, s: State, steps: seq<Step>, hi: nat, actor: AccountId, now: int)
    requires Valid(n, s) && PlainRun(n, s, steps) && hi == |s.log| + |steps|
    ensures var r := UndoBack(n, Run(n, s, steps), |s.log|, hi, actor, now);
            r.Accepted? && Views(r.state) == Views(s) && SameSecrets(s, r.state)
  {
    var t := Run(n, s, steps);
    PlainRunAppends(n, s, steps);
    forall k | |s.log| <= k < hi ensures !Undone(t, k) {
      NotYetUndone(n, s, steps, k);
    }
    assert BackAt(n, t, t, Accepted(t));
    var r := UndoBackFrom(n, s, steps, t, |s.log|, hi, actor, now);
    PlainRunKeepsSecrets(n, s, steps);
  }

  // A plain run writes no reversal, and what was there before it is older than `k`.
  lemma NotYetUndone(n: Normaliser, s: State, steps: seq<Step>, k: nat)
    requires Valid(n, s) && PlainRun(n, s, steps) && k >= |s.log|
    ensures !Undone(Run(n, s, steps), k)
  {
    assert ReversalsOk(s.log);
    NoneUndoneIn(n, s, steps, k);
  }

  lemma RecordUndoesNothing(s: State, s': State, r: Record, k: nat)
    requires s'.log == s.log + [r] && r.reverses.None? && !Undone(s, k)
    ensures !Undone(s', k)
  {
    assert forall j :: 0 <= j < |s.log| ==> s'.log[j] == s.log[j];
  }

  lemma EditUndoesNothing(n: Normaliser, s: State, step: Step, s': State, k: nat)
    requires ValuesFit(s.schema, s.values) && PlainEdit(n, s, step, s') && !Undone(s, k)
    ensures !Undone(s', k)
  {
    EditRecord(n, s, step, s');
    EditWritesPlainRecord(n, s, step, s');
    RecordUndoesNothing(s, s', Last(s'), k);
  }

  lemma {:induction false} NoneUndoneIn(n: Normaliser, s: State, steps: seq<Step>, k: nat)
    requires Valid(n, s) && PlainRun(n, s, steps) && !Undone(s, k)
    ensures !Undone(Run(n, s, steps), k)
    decreases |steps|
  {
    if steps != [] {
      var s' := Next(n, s, steps[0]);
      ApplyKeepsValid(n, s, steps[0]);
      EditUndoesNothing(n, s, steps[0], s', k);
      NoneUndoneIn(n, s', steps[1..], k);
    }
  }
}
