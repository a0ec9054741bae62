/**
 What every accepted step of the register keeps and does: the register invariant,
 "a step is the patch it records", and "undo is the patch the undone record kept".
 */
module RegisterTheory {
  import opened Basics
  import opened Text
  import opened RegisterModel
  import opened RegisterViews

  // ----- the invariant -----

  // The CHECK on the code's length holds of every code the handlers let through.
  predicate CodeOk(code: string) {
    1 <= |code| <= 32 && Trimmed(code)
  }

  predicate NoteOk(note: Option<string>) {
    note.Some? ==> note.value != "" && Trimmed(note.value) && |note.value| <= 500
  }

  ghost predicate RowOk(n: Normaliser, row: Row) {
    && CodeOk(row.code) && row.codeNormalized == n.canonical(row.code)
    && Trimmed(row.name) && row.nameNormalized == n.canonical(row.name) && 2 <= |row.name| <= 120
    && row.version >= 1
    && row.archivedAt.Some? == row.archivedBy.Some?
    && (row.note.Some? ==> row.archivedAt.Some?) && NoteOk(row.note)
  }

  // A code names one property at most, archived ones included.
  ghost predicate CodesUnique(s: State) {
    forall a, b :: a in s.rows && b in s.rows && s.rows[a].codeNormalized == s.rows[b].codeNormalized ==> a == b
  }

  ghost predicate ValuesOwned(s: State) {
    && (forall k :: k in s.values.scalar ==> k.0 in s.rows)
    && (forall t :: t in s.values.multi ==> t.0 in s.rows)
  }

  ghost predicate SideOk(defs: map<FieldId, FieldDef>, p: Option<Payload>) {
    && p.Some? && p.value.attrs.Keys <= {Name, PropertyTypeId, AreaId}
    && (Name in p.value.attrs ==> p.value.attrs[Name].Str? && Trimmed(p.value.attrs[Name].text))
    && (PropertyTypeId in p.value.attrs ==> p.value.attrs[PropertyTypeId].Ref?)
    && (AreaId in p.value.attrs ==> p.value.attrs[AreaId].Ref?)
    && CustomOk(defs, p.value.custom)
  }

  // Recorded custom values name no sensitive field and never hold an empty choice list.
  ghost predicate CustomOk(defs: map<FieldId, FieldDef>, custom: map<FieldId, Json>) {
    forall f :: f in custom ==> custom[f] != Refs({}) && (f in defs ==> !defs[f].sensitive)
  }

  ghost predicate RecordOk(defs: map<FieldId, FieldDef>, r: Record) {
    && CodeOk(r.entity) && (r.reverses.Some? <==> r.action == RecordReverted)
    && r.after.Some? && CustomOk(defs, r.after.value.custom)
    && match r.action
       case PropertyModified => SideOk(defs, r.before) && SideOk(defs, r.after)
       case PropertyArchived => r.before == Some(ArchivePayload(false, None))
       case PropertyRestored => exists note :: NoteOk(note) && r.before == Some(ArchivePayload(true, note))
       case PropertyCodeChanged => exists code :: CodeOk(code) && r.before == Some(CodePayload(code))
       case RecordReverted => r.before.Some? && CustomOk(defs, r.before.value.custom)
       case PropertyCreated => r.before.None?
  }

  // Reversals point backward, at an ordinary record, and at most one at each.
  ghost predicate ReversalsOk(log: seq<Record>) {
    forall i :: 0 <= i < |log| && log[i].reverses.Some? ==>
      && log[i].reverses.value < i
      && log[log[i].reverses.value].reverses.None?
      && forall j :: 0 <= j < |log| && log[j].reverses == log[i].reverses ==> j == i
  }

  ghost predicate Valid(n: Normaliser, s: State) {
    && (forall id :: id in s.rows ==> RowOk(n, s.rows[id]))
    && CodesUnique(s)
    && SchemaCovers(s.schema, s)
    && ValuesOwned(s)
    && (forall i :: 0 <= i < |s.log| ==> RecordOk(s.schema.defs, s.log[i]))
    && ReversalsOk(s.log)
  }

  // ----- one edit -----

  // The row `id` and nothing else of the row table changed, its version went up by
  // exactly one, and one record was appended.
  ghost predicate Edited(s: State, s': State, id: PropertyId) {
    && id in s.rows && id in s'.rows
    && s'.schema == s.schema
    && s'.rows == s.rows[id := s'.rows[id]]
    && s'.rows[id].version == s.rows[id].version + 1
    && |s'.log| == |s.log| + 1 && s'.log[..|s.log|] == s.log
    && SameElsewhere(s.values, s'.values, id)
  }

  function Last(s: State): Record
    requires s.log != []
  {
    s.log[|s.log| - 1]
  }

  // Every reader sees the change the payload describes, on that property alone.
  ghost predicate Patched(s: State, s': State, id: PropertyId, p: Option<Payload>) {
    && p.Some? && id in s.rows
    && Views(s') == Views(s)[id := PatchView(ViewOf(s, id), p.value)]
  }

  lemma ViewsAfterEdit(s: State, s': State, id: PropertyId, p: Option<Payload>)
    requires Edited(s, s', id) && p.Some?
    requires ViewOf(s', id) == PatchView(ViewOf(s, id), p.value)
    ensures Patched(s, s', id, p)
  {
    var m := Views(s)[id := PatchView(ViewOf(s, id), p.value)];
    forall other | other in s'.rows ensures other in m && m[other] == ViewOf(s', other) {
      if other != id {
        ViewElsewhere(s, s', id, other);
      }
    }
    ViewsAre(m, s');
  }

  lemma ViewElsewhere(s: State, s': State, id: PropertyId, other: PropertyId)
    requires Edited(s, s', id) && other in s'.rows && other != id
    ensures other in s.rows && ViewOf(s', other) == ViewOf(s, other)
  {
    PublicElsewhere(s.values, s'.values, s.schema.defs, id, other);
  }

  ghost predicate ReversalAllowed(s: State, r: Record) {
    r.reverses.Some? ==>
      r.reverses.value < |s.log| && !Undone(s, r.reverses.value) && s.log[r.reverses.value].reverses.None?
  }

  // A valid register stays valid under an edit that keeps the edited row, its values,
  // its code and the new record in order.
  lemma EditKeepsValid(n: Normaliser, s: State, s': State, id: PropertyId)
    requires Valid(n, s) && Edited(s, s', id)
    requires RowOk(n, s'.rows[id]) && ValuesFit(s.schema, s'.values)
    requires s'.rows[id].typeId in s.schema.types && s'.rows[id].areaId in s.schema.areas
    requires !CodeTakenByOther(s, id, s'.rows[id].codeNormalized)
    requires RecordOk(s.schema.defs, Last(s')) && ReversalAllowed(s, Last(s'))
    ensures Valid(n, s')
  {
    forall i | 0 <= i < |s'.log| ensures RecordOk(s.schema.defs, s'.log[i]) {
      if i < |s.log| {
        assert s'.log[i] == s'.log[..|s.log|][i] == s.log[i];
      }
    }
    ReversalsGrow(s, s'.log);
  }

  lemma ReversalsGrow(s: State, log: seq<Record>)
    requires ReversalsOk(s.log) && |log| == |s.log| + 1 && log[..|s.log|] == s.log
    requires forall i :: 0 <= i < |s.log| && s.log[i].reverses.Some? ==> s.log[i].action == RecordReverted
    requires ReversalAllowed(s, log[|s.log|])
    ensures ReversalsOk(log)
  {
    assert forall i :: 0 <= i < |s.log| ==> log[i] == s.log[i];
  }

  // ----- modify -----

  lemma ClearedKeeps(schema: Schema, v: Values, id: PropertyId)
    requires ValuesFit(schema, v)
    ensures ValuesFit(schema, WithoutProperty(v, id)) && SameElsewhere(v, WithoutProperty(v, id), id)
  {
  }

  lemma SaveBodiesKeeps(s: State, id: PropertyId, bodies: seq<Body>, v: Values)
    requires ValuesFit(s.schema, s.values) && SameElsewhere(v, s.values, id)
    requires SaveBodies(s, id, bodies).Accepted?
    ensures var s' := SaveBodies(s, id, bodies).state;
            s' == s.(values := s'.values) && ValuesFit(s.schema, s'.values) && SameElsewhere(v, s'.values, id)
  {
    InputsFit(s.schema, bodies);
    SaveAllKeeps(s.schema, s.values, id, InputsOf(s.schema.defs, bodies));
  }

  // The attributes a modification records, patched over the row of the other side.
  lemma RowAttrsPatch(from: Row, to: Row)
    ensures var side := DiffSide(DiffKeys(RowAttrs(from), RowAttrs(to)), RowAttrs(to));
            && side.Keys <= {Name, PropertyTypeId, AreaId}
            && (if Name in side then AsString(side[Name]) else from.name) == to.name
            && (if PropertyTypeId in side && side[PropertyTypeId].Ref? then side[PropertyTypeId].id else from.typeId) ==
                 to.typeId
            && (if AreaId in side && side[AreaId].Ref? then side[AreaId].id else from.areaId) == to.areaId
            && (Name in side ==> side[Name] == Str(to.name))
            && (PropertyTypeId in side ==> side[PropertyTypeId].Ref?) && (AreaId in side ==> side[AreaId].Ref?)
  {
  }

  lemma DiffKeysSymmetric<K(!new)>(a: map<K, Json>, b: map<K, Json>)
    ensures DiffKeys(a, b) == DiffKeys(b, a)
  {
  }

  // One recorded side of a modification turns the other state's view into its own.
  lemma SidePatches(from: Row, to: Row, v: View, v': View, attrs: map<Attr, Json>, custom: map<FieldId, Json>,
      secret: set<FieldId>)
    requires to.code == from.code && to.archivedAt.Some? == from.archivedAt.Some? && to.note == from.note
    requires v == View(from.name, from.typeId, from.areaId, from.code, from.archivedAt.Some?, from.note, v.custom)
    requires v' == View(to.name, to.typeId, to.areaId, to.code, to.archivedAt.Some?, to.note, v'.custom)
    requires attrs == DiffSide(DiffKeys(RowAttrs(from), RowAttrs(to)), RowAttrs(to))
    requires PatchMap(v.custom, custom) == v'.custom
    ensures PatchView(v, Payload(attrs, custom, secret)) == v'
  {
    RowAttrsPatch(from, to);
  }

  // The recorded sides of a modification: each turns the other state into its own.
  lemma ModifiedPayloadPatches(s: State, s': State, id: PropertyId)
    requires id in s.rows && id in s'.rows && s'.schema == s.schema
    requires ValuesFit(s.schema, s.values) && ValuesFit(s.schema, s'.values)
    requires var r, r' := s.rows[id], s'.rows[id];
             r'.code == r.code && r'.archivedAt == r.archivedAt && r'.note == r.note
    ensures PatchView(ViewOf(s, id), ModifiedPayload(s, s', id, s')) == ViewOf(s', id)
    ensures PatchView(ViewOf(s', id), ModifiedPayload(s, s', id, s)) == ViewOf(s, id)
  {
    var v, v' := ViewOf(s, id), ViewOf(s', id);
    var after, before := ModifiedPayload(s, s', id, s'), ModifiedPayload(s, s', id, s);
    PublicShape(s.schema, s.values, id);
    PublicShape(s.schema, s'.values, id);
    DiffPatches(v.custom, v'.custom);
    DiffKeysSymmetric(RowAttrs(s.rows[id]), RowAttrs(s'.rows[id]));
    SidePatches(s.rows[id], s'.rows[id], v, v', after.attrs, after.custom, after.sensitive);
    SidePatches(s'.rows[id], s.rows[id], v', v, before.attrs, before.custom, before.sensitive);
  }

  lemma ModifiedSidesOk(s: State, s': State, id: PropertyId, side: State)
    requires id in s.rows && id in s'.rows && (side == s || side == s') && s'.schema == s.schema
    requires ValuesFit(s.schema, s.values) && ValuesFit(s.schema, s'.values)
    requires Trimmed(side.rows[id].name)
    ensures SideOk(s.schema.defs, Some(ModifiedPayload(s, s', id, side)))
  {
    PublicShape(s.schema, s.values, id);
    PublicShape(s.schema, s'.values, id);
    RowAttrsPatch(s.rows[id], s'.rows[id]);
    RowAttrsPatch(s'.rows[id], s.rows[id]);
    DiffKeysSymmetric(RowAttrs(s.rows[id]), RowAttrs(s'.rows[id]));
  }

  // The values are replaced first ...
  lemma ReplaceSteps(s: State, updated: State, id: PropertyId, bodies: seq<Body>) returns (saved: State)
    requires id in s.rows && id in updated.rows && updated == s.(rows := updated.rows)
    requires ValuesFit(s.schema, s.values) && ReplaceAndLog(s, updated, id, bodies).Accepted?
    ensures SaveBodies(updated.(values := WithoutProperty(updated.values, id)), id, bodies) == Accepted(saved)
    ensures saved == updated.(values := saved.values)
    ensures ValuesFit(s.schema, saved.values) && SameElsewhere(s.values, saved.values, id)
    ensures ReplaceAndLog(s, updated, id, bodies) == Accepted(Logged(saved, ModificationRecord(s, saved, id)))
  {
    var cleared := updated.(values := WithoutProperty(updated.values, id));
    ClearedKeeps(s.schema, s.values, id);
    SaveBodiesKeeps(cleared, id, bodies, s.values);
    saved := SaveBodies(cleared, id, bodies).state;
  }

  function ModificationRecord(s: State, s': State, id: PropertyId): Record
    requires id in s.rows && id in s'.rows
  {
    Record(PropertyModified, s'.rows[id].code, Some(ModifiedPayload(s, s', id, s)),
        Some(ModifiedPayload(s, s', id, s')), None)
  }

  // ... and the difference to the register before is logged.
  lemma ReplaceAndLogSteps(s: State, updated: State, id: PropertyId, bodies: seq<Body>)
    requires id in s.rows && id in updated.rows && updated == s.(rows := updated.rows)
    requires ValuesFit(s.schema, s.values) && ReplaceAndLog(s, updated, id, bodies).Accepted?
    ensures var s' := ReplaceAndLog(s, updated, id, bodies).state;
            && s'.rows == updated.rows && s'.schema == s.schema
            && ValuesFit(s.schema, s'.values) && SameElsewhere(s.values, s'.values, id)
            && s'.log != [] && s'.log == s.log + [Last(s')]
            && Last(s') == ModificationRecord(s, s', id)
  {
    var saved := ReplaceSteps(s, updated, id, bodies);
    var s' := ReplaceAndLog(s, updated, id, bodies).state;
    SamePayload(s, saved, s', id);
  }

  lemma StoreUpdateSteps(s: State, id: PropertyId, name: string, nameNormalized: string,
                         typeId: LookupId, areaId: LookupId, version: int) returns (updated: State)
    requires StoreUpdate(s, id, name, nameNormalized, typeId, areaId, version).Accepted?
    ensures StoreUpdate(s, id, name, nameNormalized, typeId, areaId, version) == Accepted(updated)
    ensures id in s.rows && s.rows[id].version == version && s.rows[id].archivedAt.None?
    ensures id in updated.rows && updated == s.(rows := updated.rows)
    ensures updated.rows == s.rows[id := s.rows[id].(name := name, nameNormalized := nameNormalized, typeId := typeId,
                                                     areaId := areaId, version := version + 1)]
  {
    updated := StoreUpdate(s, id, name, nameNormalized, typeId, areaId, version).state;
  }

  lemma UpdateSteps(n: Normaliser, s: State, id: PropertyId, version: int, name: string,
                    typeId: LookupId, areaId: LookupId, bodies: seq<Body>, s': State)
    requires ValuesFit(s.schema, s.values) && id in s.rows
    requires UpdateAndLog(n, s, id, version, name, typeId, areaId, bodies) == Accepted(s')
    ensures Edited(s, s', id) && ValuesFit(s.schema, s'.values)
    ensures s.rows[id].version == version && s.rows[id].archivedAt.None?
    ensures s'.rows[id] == s.rows[id].(name := name, nameNormalized := n.canonical(name), typeId := typeId,
                                       areaId := areaId, version := version + 1)
    ensures Last(s') == ModificationRecord(s, s', id)
  {
    var updated := StoreUpdateSteps(s, id, name, n.canonical(name), typeId, areaId, version);
    ReplaceAndLogSteps(s, updated, id, bodies);
    PrefixOfAppend(s.log, Last(s'));
  }

  lemma ModifySteps(n: Normaliser, s: State, id: PropertyId, version: int, rawName: string,
                    typeId: LookupId, areaId: LookupId, bodies: seq<Body>, s': State)
    requires ValuesFit(s.schema, s.values)
    requires Modify(n, s, id, version, rawName, typeId, areaId, bodies) == Accepted(s')
    ensures Edited(s, s', id) && ValuesFit(s.schema, s'.values)
    ensures s.rows[id].version == version && s.rows[id].archivedAt.None?
    ensures var name := NormalisedName(WesternDigits(rawName));
            && 2 <= |name| <= 120
            && s'.rows[id] == s.rows[id].(name := name, nameNormalized := n.canonical(name), typeId := typeId,
                                          areaId := areaId, version := version + 1)
    ensures typeId in s.schema.types && areaId in s.schema.areas
    ensures Last(s') == Record(PropertyModified, s.rows[id].code, Some(ModifiedPayload(s, s', id, s)),
                               Some(ModifiedPayload(s, s', id, s')), None)
  {
    UpdateSteps(n, s, id, version, NormalisedName(WesternDigits(rawName)), typeId, areaId, bodies, s');
  }

  lemma PrefixOfAppend<T>(a: seq<T>, x: T)
    ensures (a + [x])[..|a|] == a && |a + [x]| == |a| + 1
  {
  }

  // The payload depends on the rows and the values, not on the log.
  lemma SamePayload(s: State, saved: State, s': State, id: PropertyId)
    requires id in s.rows && id in saved.rows && s' == saved.(log := s'.log)
    ensures ModifiedPayload(s, saved, id, s) == ModifiedPayload(s, s', id, s)
    ensures ModifiedPayload(s, saved, id, saved) == ModifiedPayload(s, s', id, s')
  {
  }

  lemma ModifyFacts(n: Normaliser, s: State, id: PropertyId, version: int, rawName: string,
                    typeId: LookupId, areaId: LookupId, bodies: seq<Body>, s': State)
    requires Valid(n, s) && Modify(n, s, id, version, rawName, typeId, areaId, bodies) == Accepted(s')
    ensures StepFacts(n, s, s', id, version, PropertyModified)
  {
    ModifySteps(n, s, id, version, rawName, typeId, areaId, bodies, s');
    RowIsOk(n, s, id);
    ModifiedPayloadPatches(s, s', id);
    ModifiedSidesOk(s, s', id, s);
    ModifiedSidesOk(s, s', id, s');
    ViewsAfterEdit(s, s', id, Last(s').after);
    OwnCodeIsFree(s, id);
    EditKeepsValid(n, s, s', id);
  }

  // What every accepted edit of a property amounts to.
  ghost predicate StepFacts(n: Normaliser, s: State, s': State, id: PropertyId, version: int, action: Action) {
    && Valid(n, s') && Edited(s, s', id) && s.rows[id].version == version
    && Last(s').action == action && Last(s').entity == s'.rows[id].code
    && Patched(s, s', id, Last(s').after)
    && Last(s').before.Some? && PatchView(ViewOf(s', id), Last(s').before.value) == ViewOf(s, id)
  }

  lemma RowIsOk(n: Normaliser, s: State, id: PropertyId)
    requires Valid(n, s) && id in s.rows
    ensures RowOk(n, s.rows[id]) && s.rows[id].typeId in s.schema.types && s.rows[id].areaId in s.schema.areas
  {
  }

  lemma OwnCodeIsFree(s: State, id: PropertyId)
    requires CodesUnique(s) && id in s.rows
    ensures !CodeTakenByOther(s, id, s.rows[id].codeNormalized)
  {
  }

  // ----- edits that leave the values alone -----

  predicate RowPatched(row: Row, row': Row, p: Payload) {
    && p.custom == map[]
    && row'.name == (if Name in p.attrs then AsString(p.attrs[Name]) else row.name)
    && row'.typeId ==
         (if PropertyTypeId in p.attrs && p.attrs[PropertyTypeId].Ref? then p.attrs[PropertyTypeId].id else row.typeId)
    && row'.areaId == (if AreaId in p.attrs && p.attrs[AreaId].Ref? then p.attrs[AreaId].id else row.areaId)
    && row'.code == (if Code in p.attrs then AsString(p.attrs[Code]) else row.code)
    && row'.archivedAt.Some? ==
         (if IsArchived in p.attrs && p.attrs[IsArchived].Flag? then p.attrs[IsArchived].flag else row.archivedAt.Some?)
    && row'.note ==
         (if ArchiveNote in p.attrs then (if p.attrs[ArchiveNote].Str? then Some(p.attrs[ArchiveNote].text) else None)
             else row.note)
  }

  lemma RowPatchedView(s: State, s': State, id: PropertyId, p: Payload)
    requires id in s.rows && id in s'.rows && s'.values == s.values && s'.schema == s.schema
    requires RowPatched(s.rows[id], s'.rows[id], p)
    ensures PatchView(ViewOf(s, id), p) == ViewOf(s', id)
  {
    EmptyPatch(ViewOf(s, id).custom);
  }

  lemma EmptyPatch(m: map<FieldId, Json>)
    ensures PatchMap(m, map[]) == m
  {
  }

  lemma RowEditFacts(n: Normaliser, s: State, s': State, id: PropertyId, row: Row, r: Record)
    requires Valid(n, s) && id in s.rows
    requires s' == s.(rows := s.rows[id := row], log := s.log + [r])
    requires row.version == s.rows[id].version + 1 && RowOk(n, row)
    requires row.typeId == s.rows[id].typeId && row.areaId == s.rows[id].areaId
    requires !CodeTakenByOther(s, id, row.codeNormalized)
    requires RecordOk(s.schema.defs, r) && ReversalAllowed(s, r) && r.entity == row.code && r.before.Some?
    requires RowPatched(s.rows[id], row, r.after.value) && RowPatched(row, s.rows[id], r.before.value)
    ensures StepFacts(n, s, s', id, s.rows[id].version, r.action)
  {
    RowIsOk(n, s, id);
    assert s'.log[..|s.log|] == s.log && Last(s') == r;
    RowPatchedView(s, s', id, r.after.value);
    RowPatchedView(s', s, id, r.before.value);
    ViewsAfterEdit(s, s', id, r.after);
    EditKeepsValid(n, s, s', id);
  }

  lemma ChangeCodeFacts(n: Normaliser, s: State, id: PropertyId, version: int, rawCode: string, s': State)
    requires Valid(n, s) && ChangeCode(n, s, id, version, rawCode) == Accepted(s')
    ensures StepFacts(n, s, s', id, version, PropertyCodeChanged)
  {
    RowIsOk(n, s, id);
    var was := s.rows[id];
    var code := Trim(WesternDigits(rawCode));
    var row := was.(code := code, codeNormalized := n.canonical(code), version := version + 1);
    var r := Record(PropertyCodeChanged, code, Some(CodePayload(was.code)), Some(CodePayload(code)), None);
    assert CodeOk(was.code);
    RowEditFacts(n, s, s', id, row, r);
  }

  lemma ArchiveFacts(n: Normaliser, s: State, id: PropertyId, version: int, rawNote: Option<string>,
                     actor: AccountId, now: int, s': State)
    requires Valid(n, s) && Archive(s, id, version, rawNote, actor, now) == Accepted(s')
    ensures StepFacts(n, s, s', id, version, PropertyArchived)
  {
    RowIsOk(n, s, id);
    OwnCodeIsFree(s, id);
    var was, note := s.rows[id], TrimmedNote(rawNote);
    var row := was.(archivedAt := Some(now), archivedBy := Some(actor), note := note, version := version + 1);
    var r := Record(PropertyArchived, was.code, Some(ArchivePayload(false, None)), Some(ArchivePayload(true, note)),
        None);
    RowEditFacts(n, s, s', id, row, r);
  }

  lemma RestoreFacts(n: Normaliser, s: State, id: PropertyId, version: int, s': State)
    requires Valid(n, s) && Restore(s, id, version) == Accepted(s')
    ensures StepFacts(n, s, s', id, version, PropertyRestored)
  {
    RowIsOk(n, s, id);
    OwnCodeIsFree(s, id);
    var was := s.rows[id];
    var row := was.(archivedAt := None, archivedBy := None, note := None, version := version + 1);
    var r := Record(PropertyRestored, was.code, Some(ArchivePayload(true, was.note)), Some(ArchivePayload(false, None)),
        None);
    assert NoteOk(was.note) && r.before == Some(ArchivePayload(true, was.note));
    RowEditFacts(n, s, s', id, row, r);
  }

  // A restore is refused as "archived" exactly when the property is not archived; archiving
  // and modifying are, exactly when it is.
  lemma ArchivedReasonExactly(s: State, id: PropertyId, version: int, note: Option<string>, actor: AccountId, now: int)
    requires id in s.rows && (note.Some? ==> |Trim(note.value)| <= 500)
    ensures Restore(s, id, version) == Refused(ArchivedConflict) <==> s.rows[id].archivedAt.None?
    ensures Archive(s, id, version, note, actor, now) == Refused(ArchivedConflict) <==> s.rows[id].archivedAt.Some?
  {
  }

  // ----- undo -----

  // The property an undo of record `k` lands on.
  ghost function UndoTarget(n: Normaliser, s: State, k: nat): Resolved
    requires k < |s.log|
  {
    if s.log[k].action == PropertyCodeChanged then ResolveByCode(n, s, s.log[k].entity)
    else ResolveEntity(n, s, s.log[k].entity)
  }

  // Undo is a patch: the recorded `before` of the undone record lands on one property,
  // as that property stands now, and everything the record does not mention (the
  // sensitive values included) is left alone.
  ghost predicate UndoFacts(n: Normaliser, s: State, s': State, k: nat)
    requires k < |s.log|
  {
    UndoTarget(n, s, k).Resolved? &&
    var id := UndoTarget(n, s, k).id;
    && Valid(n, s') && Edited(s, s', id)
    && Last(s').action == RecordReverted && Last(s').reverses == Some(k) && Last(s').entity == s'.rows[id].code
    && Patched(s, s', id, s.log[k].before) && Patched(s, s', id, Last(s').after)
    && forall p :: SecretValues(s'.values, s.schema.defs, p) == SecretValues(s.values, s.schema.defs, p)
  }

  // What an accepted undo of a modification does to the tables, clause by clause.
  ghost predicate UndoneShape(n: Normaliser, s: State, s': State, k: nat, r: Record, id: PropertyId)
    requires id in s.rows && r.before.Some?
  {
    var row, attrs, custom := s.rows[id], r.before.value.attrs, r.before.value.custom;
    var name := if Name in attrs then AsString(attrs[Name]) else row.name;
    && id in s'.rows
    && s'.rows[id] == row.(name := name, nameNormalized := n.canonical(Trim(name)), version := row.version + 1,
         typeId := if PropertyTypeId in attrs && attrs[PropertyTypeId].Ref? then attrs[PropertyTypeId].id
             else row.typeId,
         areaId := if AreaId in attrs && attrs[AreaId].Ref? then attrs[AreaId].id else row.areaId)
    && RowAdmissible(s.schema, name, s'.rows[id].typeId, s'.rows[id].areaId)
    && s' == State(s.schema, s.rows[id := s'.rows[id]], RestoreFields(s.values, id, custom),
                   s.log + [Reversal(k, row.code, WithoutSensitive(r.after), WithoutSensitive(r.before))])
    && forall f :: f in custom ==> Restorable(s.schema.defs, f, custom[f]) && ChoicesExist(s.schema, custom[f])
  }

  lemma UndoModifiedShape(n: Normaliser, s: State, k: nat, r: Record, id: PropertyId)
    requires id in s.rows && r.before.Some? && UndoModifiedAt(n, s, k, r, id).Accepted?
    ensures UndoneShape(n, s, UndoModifiedAt(n, s, k, r, id).state, k, r, id)
  {
  }

  lemma UndoModifiedSteps(n: Normaliser, s: State, s': State, k: nat, r: Record, id: PropertyId)
    requires id in s.rows && RowOk(n, s.rows[id]) && ValuesFit(s.schema, s.values)
    requires SideOk(s.schema.defs, r.before) && UndoneShape(n, s, s', k, r, id)
    ensures Edited(s, s', id) && RowOk(n, s'.rows[id]) && ValuesFit(s.schema, s'.values)
    ensures PatchFits(s.schema, r.before.value.custom)
    ensures ViewOf(s', id) == PatchView(ViewOf(s, id), r.before.value)
  {
    var custom := r.before.value.custom;
    assert PatchFits(s.schema, custom);
    RestoreFieldsKeeps(s.schema, s.values, id, custom);
    RestoreFieldsPatches(s.schema, s.values, id, custom);
    assert s'.log[..|s.log|] == s.log;
    UndoneView(s, s', id, r.before.value);
  }

  lemma UndoneView(s: State, s': State, id: PropertyId, p: Payload)
    requires id in s.rows && id in s'.rows
    requires p.attrs.Keys <= {Name, PropertyTypeId, AreaId}
    requires var row, row' := s.rows[id], s'.rows[id];
             && row'.name == (if Name in p.attrs then AsString(p.attrs[Name]) else row.name)
             && row'.typeId ==
                  (if PropertyTypeId in p.attrs && p.attrs[PropertyTypeId].Ref? then p.attrs[PropertyTypeId].id
                      else row.typeId)
             && row'.areaId == (if AreaId in p.attrs && p.attrs[AreaId].Ref? then p.attrs[AreaId].id else row.areaId)
             && row'.code == row.code && row'.archivedAt == row.archivedAt && row'.note == row.note
    requires PublicValues(s'.values, s'.schema.defs, id) ==
               PatchMap(PublicValues(s.values, s.schema.defs, id), p.custom)
    ensures ViewOf(s', id) == PatchView(ViewOf(s, id), p)
  {
    assert Code !in p.attrs && IsArchived !in p.attrs && ArchiveNote !in p.attrs;
  }

  lemma UndoneShapeFacts(n: Normaliser, s: State, s': State, k: nat, id: PropertyId)
    requires Valid(n, s) && k < |s.log| && s.log[k].action == PropertyModified && id in s.rows
    requires !Undone(s, k) && s.log[k].reverses.None?
    requires SideOk(s.schema.defs, s.log[k].before) && s.log[k].before.value.sensitive == {}
    requires UndoneShape(n, s, s', k, s.log[k], id)
    ensures Valid(n, s') && Edited(s, s', id) && Last(s').entity == s'.rows[id].code
    ensures Last(s').action == RecordReverted && Last(s').reverses == Some(k) && Last(s').after == s.log[k].before
    ensures Patched(s, s', id, s.log[k].before)
    ensures forall p :: SecretValues(s'.values, s.schema.defs, p) == SecretValues(s.values, s.schema.defs, p)
  {
    var r := s.log[k];
    assert RecordOk(s.schema.defs, r);
    RowIsOk(n, s, id);
    UndoModifiedSteps(n, s, s', k, r, id);
    ViewsAfterEdit(s, s', id, r.before);
    OwnCodeIsFree(s, id);
    EditKeepsValid(n, s, s', id);
    forall p {
      RestoreFieldsKeepsSecrets(s.schema, s.values, id, r.before.value.custom, p);
    }
  }

  lemma UndoneIsUndo(n: Normaliser, s: State, s': State, k: nat, id: PropertyId)
    requires Valid(n, s) && k < |s.log| && s.log[k].action == PropertyModified && id in s.rows
    requires UndoTarget(n, s, k) == Resolved(id) && !Undone(s, k) && s.log[k].reverses.None?
    requires SideOk(s.schema.defs, s.log[k].before) && s.log[k].before.value.sensitive == {}
    requires UndoneShape(n, s, s', k, s.log[k], id)
    ensures UndoFacts(n, s, s', k)
  {
    UndoneShapeFacts(n, s, s', k, id);
  }

  lemma UndoModifiedUnfolds(n: Normaliser, s: State, k: nat, s': State)
    requires k < |s.log| && s.log[k].action == PropertyModified && Undo(n, s, k, 0, 0) == Accepted(s')
    ensures UndoTarget(n, s, k).Resolved? && !Undone(s, k) && s.log[k].reverses.None? && s.log[k].before.Some?
    ensures UndoTarget(n, s, k).id in s.rows && s.log[k].before.value.sensitive == {}
    ensures UndoModifiedAt(n, s, k, s.log[k], UndoTarget(n, s, k).id) == Accepted(s')
  {
  }

  lemma UndoModifiedFacts(n: Normaliser, s: State, k: nat, s': State)
    requires Valid(n, s) && k < |s.log| && s.log[k].action == PropertyModified
    requires Undo(n, s, k, 0, 0) == Accepted(s')
    ensures UndoFacts(n, s, s', k)
  {
    UndoModifiedUnfolds(n, s, k, s');
    assert RecordOk(s.schema.defs, s.log[k]);
    UndoModifiedShape(n, s, k, s.log[k], UndoTarget(n, s, k).id);
    UndoneIsUndo(n, s, s', k, UndoTarget(n, s, k).id);
  }

  lemma ReversalIsOk(defs: map<FieldId, FieldDef>, k: nat, code: string, before: Payload, after: Payload)
    requires CodeOk(code) && before.custom == map[] && after.custom == map[]
    ensures RecordOk(defs, Reversal(k, code, before, after))
  {
  }

  lemma ArchivingPatches(active: Row, archived: Row, note: Option<string>)
    requires active.archivedAt.None? && active.note.None? && archived.archivedAt.Some? && archived.note == note
    requires archived == active.(archivedAt := archived.archivedAt, archivedBy := archived.archivedBy,
                                 note := note, version := archived.version)
    ensures RowPatched(active, archived, ArchivePayload(true, note))
  {
  }

  lemma RestoringPatches(archived: Row, active: Row)
    requires archived.archivedAt.Some? && active.archivedAt.None? && active.note.None?
    requires active == archived.(archivedAt := None, archivedBy := active.archivedBy, note := None,
                                 version := active.version)
    ensures RowPatched(archived, active, ArchivePayload(false, None))
  {
  }

  lemma UndoArchivedAtFacts(n: Normaliser, s: State, k: nat, id: PropertyId, s': State)
    requires Valid(n, s) && id in s.rows && k < |s.log|
    requires ReversalAllowed(s, Reversal(k, "", ArchivePayload(false, None), ArchivePayload(false, None)))
    requires UndoArchivedAt(s, k, id) == Accepted(s')
    ensures StepFacts(n, s, s', id, s.rows[id].version, RecordReverted) && s'.values == s.values
    ensures Last(s') == Reversal(k, s.rows[id].code, ArchivePayload(true, s.rows[id].note), ArchivePayload(false, None))
  {
    RowIsOk(n, s, id);
    OwnCodeIsFree(s, id);
    var was := s.rows[id];
    var row := was.(archivedAt := None, archivedBy := None, note := None, version := was.version + 1);
    var r := Reversal(k, was.code, ArchivePayload(true, was.note), ArchivePayload(false, None));
    RowEditFacts(n, s, s', id, row, r);
  }

  lemma UndoArchivedFacts(n: Normaliser, s: State, k: nat)
    requires Valid(n, s) && k < |s.log| && s.log[k].action == PropertyArchived
    requires Undo(n, s, k, 0, 0).Accepted?
    ensures UndoFacts(n, s, Undo(n, s, k, 0, 0).state, k)
  {
    assert RecordOk(s.schema.defs, s.log[k]);
    UndoArchivedAtFacts(n, s, k, UndoTarget(n, s, k).id, Undo(n, s, k, 0, 0).state);
  }

  lemma RecordedNote(note: Option<string>)
    requires NoteOk(note)
    ensures TrimmedNote(Some(AsString(NoteJson(note)))) == note
  {
  }

  lemma UndoRestoredAtFacts(n: Normaliser, s: State, k: nat, id: PropertyId, note: Option<string>, actor: AccountId,
      now: int, s': State)
    requires Valid(n, s) && id in s.rows && k < |s.log|
    requires ReversalAllowed(s, Reversal(k, "", s.log[k].after.value, s.log[k].after.value))
    requires NoteOk(note) && s.log[k].before == Some(ArchivePayload(true, note))
    requires UndoRestoredAt(s, k, s.log[k], id, actor, now) == Accepted(s')
    ensures StepFacts(n, s, s', id, s.rows[id].version, RecordReverted) && s'.values == s.values
    ensures s'.rows[id].archivedAt == Some(now) && s'.rows[id].archivedBy == Some(actor)
    ensures Last(s') == Reversal(k, s.rows[id].code, ArchivePayload(false, None), ArchivePayload(true, note))
  {
    RowIsOk(n, s, id);
    RecordedNote(note);
    OwnCodeIsFree(s, id);
    var was := s.rows[id];
    var row := was.(archivedAt := Some(now), archivedBy := Some(actor), note := note, version := was.version + 1);
    var r := Reversal(k, was.code, ArchivePayload(false, None), ArchivePayload(true, note));
    ReversalIsOk(s.schema.defs, k, was.code, ArchivePayload(false, None), ArchivePayload(true, note));
    ArchivingPatches(was, row, note);
    RestoringPatches(row, was);
    RowEditFacts(n, s, s', id, row, r);
  }

  lemma UndoRestoredFacts(n: Normaliser, s: State, k: nat, actor: AccountId, now: int)
    requires Valid(n, s) && k < |s.log| && s.log[k].action == PropertyRestored
    requires Undo(n, s, k, actor, now).Accepted?
    ensures UndoFacts(n, s, Undo(n, s, k, actor, now).state, k)
  {
    assert RecordOk(s.schema.defs, s.log[k]);
    var note :| NoteOk(note) && s.log[k].before == Some(ArchivePayload(true, note));
    UndoRestoredAtFacts(n, s, k, UndoTarget(n, s, k).id, note, actor, now, Undo(n, s, k, actor, now).state);
  }

  lemma UndoCodeChangedAtFacts(n: Normaliser, s: State, k: nat, id: PropertyId, code: string)
    requires Valid(n, s) && id in s.rows && k < |s.log|
    requires ReversalAllowed(s, Reversal(k, "", CodePayload(code), CodePayload(code)))
    requires CodeOk(code) && UndoCodeChangedAt(n, s, k, id, code).Accepted?
    ensures StepFacts(n, s, UndoCodeChangedAt(n, s, k, id, code).state, id, s.rows[id].version, RecordReverted)
    ensures Last(UndoCodeChangedAt(n, s, k, id, code).state) ==
            Reversal(k, code, CodePayload(s.rows[id].code), CodePayload(code))
    ensures UndoCodeChangedAt(n, s, k, id, code).state.values == s.values
  {
    RowIsOk(n, s, id);
    var was := s.rows[id];
    var row := was.(code := code, codeNormalized := n.canonical(code), version := was.version + 1);
    var r := Reversal(k, code, CodePayload(was.code), CodePayload(code));
    RowEditFacts(n, s, UndoCodeChangedAt(n, s, k, id, code).state, id, row, r);
  }

  lemma UndoCodeChangedSteps(n: Normaliser, s: State, k: nat, code: string)
    requires k < |s.log| && s.log[k].action == PropertyCodeChanged && s.log[k].before == Some(CodePayload(code))
    requires Undo(n, s, k, 0, 0).Accepted?
    ensures UndoTarget(n, s, k).Resolved? && UndoTarget(n, s, k).id in s.rows
    ensures ReversalAllowed(s, Reversal(k, "", CodePayload(code), CodePayload(code)))
    ensures Undo(n, s, k, 0, 0) == UndoCodeChangedAt(n, s, k, UndoTarget(n, s, k).id, code)
  {
    assert s.log[k].before.value.attrs == map[Code := Str(code)];
  }

  lemma UndoCodeChangedFacts(n: Normaliser, s: State, k: nat)
    requires Valid(n, s) && k < |s.log| && s.log[k].action == PropertyCodeChanged
    requires Undo(n, s, k, 0, 0).Accepted?
    ensures UndoFacts(n, s, Undo(n, s, k, 0, 0).state, k)
  {
    assert RecordOk(s.schema.defs, s.log[k]);
    var code :| CodeOk(code) && s.log[k].before == Some(CodePayload(code));
    UndoCodeChangedSteps(n, s, k, code);
    UndoCodeChangedAtFacts(n, s, k, UndoTarget(n, s, k).id, code);
  }

  // Every accepted undo, of whatever record, in whatever later state: the three-way merge.
  lemma UndoIsThreeWayMerge(n: Normaliser, s: State, k: nat, actor: AccountId, now: int)
    requires Valid(n, s) && Undo(n, s, k, actor, now).Accepted?
    ensures k < |s.log| && UndoFacts(n, s, Undo(n, s, k, actor, now).state, k)
  {
    match s.log[k].action
    case PropertyModified => UndoModifiedFacts(n, s, k, Undo(n, s, k, 0, 0).state);
    case PropertyArchived => UndoArchivedFacts(n, s, k);
    case PropertyRestored => UndoRestoredFacts(n, s, k, actor, now);
    case PropertyCodeChanged => UndoCodeChangedFacts(n, s, k);
    case _ =>
  }

  // ----- create and redefine -----

  lemma {:induction false} DigitsEnd(m: nat)
    ensures Digits(m) != "" && !IsSpace(Digits(m)[|Digits(m)| - 1])
    decreases m
  {
    if m >= 10 {
      DigitsEnd(m / 10);
    }
  }

  function Pow10(k: nat): nat {
    if k == 0 then 1 else 10 * Pow10(k - 1)
  }

  lemma {:induction false} DigitsFit(m: nat, k: nat)
    requires m < Pow10(k) && k > 0
    ensures |Digits(m)| <= k
    decreases k
  {
    if m >= 10 {
      assert k > 1 by {
        assert Pow10(1) == 10 * Pow10(0);
      }
      DigitsFit(m / 10, k - 1);
    }
  }

  // Nineteen digits are enough for any number the sequence can reach.
  lemma DrawsFit()
    ensures 0x8000_0000_0000_0000 <= Pow10(19)
  {
    assert Pow10(5) == 100_000;
    assert Pow10(10) == 10_000_000_000;
    assert Pow10(15) == 1_000_000_000_000_000;
    assert Pow10(19) == 10_000_000_000_000_000_000;
  }

  lemma GeneratedCodeOk(m: Draw)
    ensures CodeOk(GeneratedCode(m))
  {
    DigitsEnd(m);
    DrawsFit();
    DigitsFit(m, 19);
  }

  lemma {:induction false} FirstFreeIsFree(n: Normaliser, s: State, draws: seq<Draw>)
    requires FirstFreeCode(n, s, draws).Some?
    ensures CodeOk(FirstFreeCode(n, s, draws).value)
    ensures !CodeTaken(s, n.canonical(FirstFreeCode(n, s, draws).value))
    decreases |draws|
  {
    if CodeTaken(s, n.canonical(GeneratedCode(draws[0]))) {
      FirstFreeIsFree(n, s, draws[1..]);
    } else {
      GeneratedCodeOk(draws[0]);
    }
  }

  lemma ChosenCodeIsFree(n: Normaliser, s: State, supplied: string, draws: seq<Draw>)
    requires ChooseCode(n, s, supplied, draws).Coded?
    ensures CodeOk(ChooseCode(n, s, supplied, draws).code)
    ensures !CodeTaken(s, n.canonical(ChooseCode(n, s, supplied, draws).code))
  {
    if supplied == "" {
      FirstFreeIsFree(n, s, if |draws| <= MAX_GENERATE_ATTEMPTS then draws else draws[..MAX_GENERATE_ATTEMPTS]);
    }
  }

  // A new property: nothing that was there changes, and one record is appended.
  ghost predicate Added(s: State, s': State, id: PropertyId) {
    && id !in s.rows && id in s'.rows && s'.rows == s.rows[id := s'.rows[id]]
    && s'.schema == s.schema && |s'.log| == |s.log| + 1 && s'.log[..|s.log|] == s.log
    && SameElsewhere(s.values, s'.values, id)
  }

  lemma SameView(s: State, s': State, id: PropertyId)
    requires id in s.rows && id in s'.rows && s'.rows[id] == s.rows[id]
    requires PublicValues(s'.values, s'.schema.defs, id) == PublicValues(s.values, s.schema.defs, id)
    ensures ViewOf(s', id) == ViewOf(s, id)
  {
  }

  lemma ViewsAre(m: map<PropertyId, View>, s: State)
    requires m.Keys == s.rows.Keys && forall id :: id in s.rows ==> m[id] == ViewOf(s, id)
    ensures Views(s) == m
  {
  }

  lemma AddedView(s: State, s': State, id: PropertyId, other: PropertyId)
    requires Added(s, s', id) && other in s.rows
    ensures other in s'.rows && other != id && ViewOf(s', other) == ViewOf(s, other)
  {
    PublicElsewhere(s.values, s'.values, s.schema.defs, id, other);
    SameView(s, s', other);
  }

  lemma AddedViews(s: State, s': State, id: PropertyId)
    requires Added(s, s', id)
    ensures Views(s') == Views(s)[id := ViewOf(s', id)]
  {
    var m := Views(s)[id := ViewOf(s', id)];
    forall other | other in s'.rows ensures other in m && m[other] == ViewOf(s', other) {
      if other != id {
        AddedView(s, s', id, other);
      }
    }
    ViewsAre(m, s');
  }

  lemma AddKeepsValid(n: Normaliser, s: State, s': State, id: PropertyId)
    requires Valid(n, s) && Added(s, s', id)
    requires RowOk(n, s'.rows[id]) && ValuesFit(s.schema, s'.values)
    requires s'.rows[id].typeId in s.schema.types && s'.rows[id].areaId in s.schema.areas
    requires !CodeTaken(s, s'.rows[id].codeNormalized)
    requires RecordOk(s.schema.defs, Last(s')) && Last(s').reverses.None?
    ensures Valid(n, s')
  {
    forall i | 0 <= i < |s'.log| ensures RecordOk(s.schema.defs, s'.log[i]) {
      if i < |s.log| {
        assert s'.log[i] == s'.log[..|s.log|][i] == s.log[i];
      }
    }
    ReversalsGrow(s, s'.log);
  }

  function NewRow(n: Normaliser, code: string, name: string, typeId: LookupId, areaId: LookupId): Row {
    Row(code, n.canonical(code), name, n.canonical(name), typeId, areaId, 1, None, None, None)
  }

  function CreationRecord(code: string, name: string): Record {
    Record(PropertyCreated, code, None, Some(AttrPayload(map[Name := Str(name), Code := Str(code)])), None)
  }

  // The row is placed first, then the values are saved, then the creation is logged.
  lemma CreateUnfolds(n: Normaliser, s: State, id: PropertyId, supplied: string, draws: seq<Draw>, rawName: string,
                      typeId: LookupId, areaId: LookupId, bodies: seq<Body>, s': State) returns (row: Row, saved: State)
    requires Create(n, s, id, supplied, draws, rawName, typeId, areaId, bodies) == Accepted(s')
    ensures var name := NormalisedName(WesternDigits(rawName));
            && id !in s.rows && ChooseCode(n, s, supplied, draws).Coded? && 2 <= |name| <= 120
            && typeId in s.schema.types && areaId in s.schema.areas
            && var code := ChooseCode(n, s, supplied, draws).code;
            && row == NewRow(n, code, name, typeId, areaId)
            && SaveBodies(s.(rows := s.rows[id := row]), id, bodies) == Accepted(saved)
            && s' == Logged(saved, CreationRecord(code, name))
  {
    row := NewRow(n, ChooseCode(n, s, supplied, draws).code, NormalisedName(WesternDigits(rawName)), typeId, areaId);
    saved := SaveBodies(s.(rows := s.rows[id := row]), id, bodies).state;
  }

  lemma LoggedIsAdded(s: State, id: PropertyId, row: Row, saved: State, r: Record)
    requires id !in s.rows && saved == s.(rows := s.rows[id := row], values := saved.values)
    requires SameElsewhere(s.values, saved.values, id)
    ensures var s' := Logged(saved, r);
            Added(s, s', id) && s'.rows[id] == row && Last(s') == r
  {
    PrefixOfAppend(s.log, r);
  }

  lemma CreateSteps(n: Normaliser, s: State, id: PropertyId, supplied: string, draws: seq<Draw>, rawName: string,
                    typeId: LookupId, areaId: LookupId, bodies: seq<Body>, s': State)
    requires ValuesFit(s.schema, s.values)
    requires Create(n, s, id, supplied, draws, rawName, typeId, areaId, bodies) == Accepted(s')
    ensures var name := NormalisedName(WesternDigits(rawName));
            && Added(s, s', id) && ValuesFit(s.schema, s'.values)
            && ChooseCode(n, s, supplied, draws).Coded? && 2 <= |name| <= 120
            && typeId in s.schema.types && areaId in s.schema.areas
            && var code := ChooseCode(n, s, supplied, draws).code;
            && s'.rows[id] == NewRow(n, code, name, typeId, areaId) && Last(s') == CreationRecord(code, name)
  {
    var row, saved := CreateUnfolds(n, s, id, supplied, draws, rawName, typeId, areaId, bodies, s');
    SaveBodiesKeeps(s.(rows := s.rows[id := row]), id, bodies, s.values);
    LoggedIsAdded(s, id, row, saved, CreationRecord(row.code, row.name));
  }

  lemma CreateFacts(n: Normaliser, s: State, id: PropertyId, supplied: string, draws: seq<Draw>,
                    rawName: string, typeId: LookupId, areaId: LookupId, bodies: seq<Body>)
    requires Valid(n, s) && Create(n, s, id, supplied, draws, rawName, typeId, areaId, bodies).Accepted?
    ensures CreationFacts(n, s, Create(n, s, id, supplied, draws, rawName, typeId, areaId, bodies).state, id)
  {
    var s' := Create(n, s, id, supplied, draws, rawName, typeId, areaId, bodies).state;
    CreateSteps(n, s, id, supplied, draws, rawName, typeId, areaId, bodies, s');
    ChosenCodeIsFree(n, s, supplied, draws);
    AddFacts(n, s, s', id);
  }

  lemma AddFacts(n: Normaliser, s: State, s': State, id: PropertyId)
    requires Valid(n, s) && Added(s, s', id) && ValuesFit(s.schema, s'.values)
    requires var row := s'.rows[id];
             && CodeOk(row.code) && Trimmed(row.name) && 2 <= |row.name| <= 120
             && row == Row(row.code, n.canonical(row.code), row.name, n.canonical(row.name), row.typeId, row.areaId, 1,
                  None, None, None)
             && row.typeId in s.schema.types && row.areaId in s.schema.areas && !CodeTaken(s, row.codeNormalized)
             && Last(s') ==
                  Record(PropertyCreated, row.code, None,
                      Some(AttrPayload(map[Name := Str(row.name), Code := Str(row.code)])), None)
    ensures CreationFacts(n, s, s', id)
  {
    AddedViews(s, s', id);
    AddedUnpatched(s', id);
    AddKeepsValid(n, s, s', id);
  }

  lemma AddedUnpatched(s: State, id: PropertyId)
    requires id in s.rows
    ensures PatchView(ViewOf(s, id), AttrPayload(map[Name := Str(s.rows[id].name), Code := Str(s.rows[id].code)])) ==
              ViewOf(s, id)
  {
    RowPatchedView(s, s, id, AttrPayload(map[Name := Str(s.rows[id].name), Code := Str(s.rows[id].code)]));
  }

  ghost predicate CreationFacts(n: Normaliser, s: State, s': State, id: PropertyId) {
    && Valid(n, s') && Added(s, s', id) && Views(s') == Views(s)[id := ViewOf(s', id)]
    && s'.rows[id].version == 1 && Last(s').action == PropertyCreated
    && Last(s').after.Some? && PatchView(ViewOf(s', id), Last(s').after.value) == ViewOf(s', id)
  }

  lemma RedefineKeepsPublic(s: State, schema: Schema, id: PropertyId)
    requires SchemaCovers(s.schema, s) && SchemaCovers(schema, s) && DefsEvolve(s, schema.defs)
    ensures PublicValues(s.values, schema.defs, id) == PublicValues(s.values, s.schema.defs, id)
  {
    forall f: FieldId ensures PublicAt(s.values, schema.defs, id, f) == PublicAt(s.values, s.schema.defs, id, f) {
      if (id, f) in s.values.scalar {
        assert Fits(s.schema, f, s.values.scalar[(id, f)]) && Fits(schema, f, s.values.scalar[(id, f)]);
      }
    }
    SamePublic(s.values, s.values, s.schema.defs, schema.defs, id);
  }

  lemma RedefineViews(s: State, schema: Schema)
    requires SchemaCovers(s.schema, s) && SchemaCovers(schema, s) && DefsEvolve(s, schema.defs)
    ensures Views(s.(schema := schema)) == Views(s)
  {
    var s' := s.(schema := schema);
    var m := Views(s);
    forall id | id in s'.rows ensures id in m && m[id] == ViewOf(s', id) {
      RedefineKeepsPublic(s, schema, id);
      SameView(s, s', id);
    }
    ViewsAre(m, s');
  }

  lemma RedefineFacts(n: Normaliser, s: State, schema: Schema)
    requires Valid(n, s) && Redefine(s, schema).Accepted?
    ensures Valid(n, Redefine(s, schema).state) && Views(Redefine(s, schema).state) == Views(s)
  {
    forall i | 0 <= i < |s.log| ensures RecordOk(schema.defs, s.log[i]) {
      RecordSurvives(s, schema, i);
    }
    RedefineViews(s, schema);
  }

  lemma RecordSurvives(s: State, schema: Schema, i: nat)
    requires i < |s.log| && RecordOk(s.schema.defs, s.log[i]) && DefsEvolve(s, schema.defs)
    ensures RecordOk(schema.defs, s.log[i])
  {
    var r := s.log[i];
    forall f | f in schema.defs && (Mentions(r.before, f) || Mentions(r.after, f))
      ensures f in s.schema.defs && schema.defs[f] == s.schema.defs[f]
    {
    }
    forall p | p == r.before || p == r.after
      ensures p.Some? && CustomOk(s.schema.defs, p.value.custom) ==> CustomOk(schema.defs, p.value.custom)
    {
      if p.Some? && CustomOk(s.schema.defs, p.value.custom) {
        forall f | f in p.value.custom ensures f in schema.defs ==> !schema.defs[f].sensitive {
          assert Mentions(p, f);
        }
      }
    }
  }
}
