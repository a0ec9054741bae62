/**
 When each request to the register is accepted and what it is otherwise refused for, in terms
 of the request and the tables; what a modification records; and when a record can be undone.
 */
module RegisterOutcomes {
  import opened Basics
  import opened Text
  import opened RegisterModel
  import opened RegisterViews
  import opened RegisterTheory
  import opened RegisterValues
  import opened RegisterRequests

  // ----- creation -----

  predicate NameFits(rawName: string) {
    2 <= |NormalisedName(WesternDigits(rawName))| <= 120
  }

  predicate LookupsKnown(schema: Schema, typeId: LookupId, areaId: LookupId) {
    typeId in schema.types && areaId in schema.areas
  }

  // Some property, archived or not, has a code of that canonical form.
  ghost predicate Held(s: State, codeNormalized: string) {
    exists id :: id in s.rows && s.rows[id].codeNormalized == codeNormalized
  }

  predicate CodeTyped(supplied: string) {
    1 <= |Trim(supplied)| <= 32
  }

  // One of at most five numbers drawn gives a free code.
  ghost predicate SomeDrawFree(n: Normaliser, s: State, draws: seq<Draw>) {
    exists k :: 0 <= k < |draws| && k < 5 && FreeDraw(n, s, draws[k])
  }

  ghost predicate FreeDraw(n: Normaliser, s: State, m: Draw) {
    !Held(s, n.canonical(GeneratedCode(m)))
  }

  ghost predicate CodeFound(n: Normaliser, s: State, supplied: string, draws: seq<Draw>) {
    if supplied != "" then CodeTyped(supplied) && !Held(s, n.canonical(Trim(supplied)))
    else SomeDrawFree(n, s, draws)
  }

  lemma ChosenExactly(n: Normaliser, s: State, supplied: string, draws: seq<Draw>)
    ensures ChooseCode(n, s, supplied, draws).Coded? <==> CodeFound(n, s, supplied, draws)
    ensures ChooseCode(n, s, supplied, draws) == NoCode(InvalidRequest) <==> supplied != "" && !CodeTyped(supplied)
    ensures ChooseCode(n, s, supplied, draws) == NoCode(DuplicateCode) <==>
            supplied != "" && CodeTyped(supplied) && Held(s, n.canonical(Trim(supplied)))
    ensures ChooseCode(n, s, supplied, draws) == NoCode(CodesExhausted) <==>
            supplied == "" && !SomeDrawFree(n, s, draws)
  {
    if supplied == "" {
      var drawn := if |draws| <= 5 then draws else draws[..5];
      var k := FirstFreeIs(n, s, drawn);
      assert forall j :: 0 <= j < |drawn| ==> drawn[j] == draws[j];
      if k < |drawn| {
        assert FreeDraw(n, s, draws[k]);
      } else {
        assert forall j :: 0 <= j < |drawn| ==> !FreeDraw(n, s, drawn[j]);
      }
    }
  }

  // The values of a request can be stored.
  predicate BodiesFit(schema: Schema, bodies: seq<Body>) {
    AllAdmissible(schema.defs, bodies) && AllChoicesKnown(schema, bodies)
  }

  lemma SavingExactly(s: State, id: PropertyId, bodies: seq<Body>)
    ensures SaveBodies(s, id, bodies).Accepted? <==> BodiesFit(s.schema, bodies)
    ensures SaveBodies(s, id, bodies) == Refused(InvalidRequest) <==> !AllAdmissible(s.schema.defs, bodies)
    ensures SaveBodies(s, id, bodies) == Refused(Internal) <==>
            AllAdmissible(s.schema.defs, bodies) && !AllChoicesKnown(s.schema, bodies)
  {
    if AllAdmissible(s.schema.defs, bodies) {
      SavedExactly(s.schema, s.values, id, bodies);
    }
  }

  lemma CreatedExactly(n: Normaliser, s: State, id: PropertyId, supplied: string, draws: seq<Draw>, rawName: string,
                       typeId: LookupId, areaId: LookupId, bodies: seq<Body>, r: Result)
    requires r == Create(n, s, id, supplied, draws, rawName, typeId, areaId, bodies) && id !in s.rows
    ensures r.Accepted? <==>
            && NameFits(rawName) && CodeFound(n, s, supplied, draws)
            && LookupsKnown(s.schema, typeId, areaId) && BodiesFit(s.schema, bodies)
    ensures r == Refused(CodesExhausted) <==> NameFits(rawName) && supplied == "" && !SomeDrawFree(n, s, draws)
    ensures r == Refused(DuplicateCode) <==>
            && NameFits(rawName) && supplied != "" && CodeTyped(supplied)
            && Held(s, n.canonical(Trim(supplied)))
    ensures r == Refused(InvalidRequest) <==>
            || !NameFits(rawName)
            || (supplied != "" && !CodeTyped(supplied))
            || (CodeFound(n, s, supplied, draws) &&
                  (!LookupsKnown(s.schema, typeId, areaId) || !AllAdmissible(s.schema.defs, bodies)))
    ensures r == Refused(Internal) <==>
            && NameFits(rawName) && CodeFound(n, s, supplied, draws) && LookupsKnown(s.schema, typeId, areaId)
            && AllAdmissible(s.schema.defs, bodies) && !AllChoicesKnown(s.schema, bodies)
  {
    ChosenExactly(n, s, supplied, draws);
    var coded := ChooseCode(n, s, supplied, draws);
    if coded.Coded? {
      var name := NormalisedName(WesternDigits(rawName));
      var row := Row(coded.code, n.canonical(coded.code), name, n.canonical(name), typeId, areaId, 1, None, None, None);
      SavingExactly(s.(rows := s.rows[id := row]), id, bodies);
    }
  }

  // ----- edits -----

  // The row is there, not archived, and at the version the request names.
  predicate Due(s: State, id: PropertyId, version: int) {
    id in s.rows && s.rows[id].archivedAt.None? && s.rows[id].version == version
  }

  lemma ReplacedExactly(s: State, updated: State, id: PropertyId, bodies: seq<Body>, r: Result)
    requires id in s.rows && id in updated.rows && updated == s.(rows := updated.rows)
    requires r == ReplaceAndLog(s, updated, id, bodies)
    ensures r.Accepted? <==> BodiesFit(s.schema, bodies)
    ensures r == Refused(InvalidRequest) <==> !AllAdmissible(s.schema.defs, bodies)
    ensures r == Refused(Internal) <==> AllAdmissible(s.schema.defs, bodies) && !AllChoicesKnown(s.schema, bodies)
  {
    SavingExactly(updated.(values := WithoutProperty(updated.values, id)), id, bodies);
  }

  lemma UpdatedExactly(n: Normaliser, s: State, id: PropertyId, version: int, name: string,
                       typeId: LookupId, areaId: LookupId, bodies: seq<Body>, r: Result)
    requires id in s.rows && 2 <= |name| <= 120 && LookupsKnown(s.schema, typeId, areaId)
    requires r == UpdateAndLog(n, s, id, version, name, typeId, areaId, bodies)
    ensures r.Accepted? <==> Due(s, id, version) && BodiesFit(s.schema, bodies)
    ensures r == Refused(ArchivedConflict) <==> s.rows[id].archivedAt.Some?
    ensures r == Refused(VersionConflict) <==> s.rows[id].archivedAt.None? && s.rows[id].version != version
    ensures r == Refused(InvalidRequest) <==> Due(s, id, version) && !AllAdmissible(s.schema.defs, bodies)
    ensures r == Refused(Internal) <==>
            && Due(s, id, version)
            && AllAdmissible(s.schema.defs, bodies) && !AllChoicesKnown(s.schema, bodies)
    ensures r != Refused(NotFound)
  {
    var updated := StoreUpdate(s, id, name, n.canonical(name), typeId, areaId, version);
    if updated.Accepted? {
      ReplacedExactly(s, updated.state, id, bodies, r);
    }
  }

  lemma ModifiedExactly(n: Normaliser, s: State, id: PropertyId, version: int, rawName: string,
                        typeId: LookupId, areaId: LookupId, bodies: seq<Body>, r: Result)
    requires r == Modify(n, s, id, version, rawName, typeId, areaId, bodies)
    ensures var fits := NameFits(rawName) && LookupsKnown(s.schema, typeId, areaId);
            && (r.Accepted? <==> fits && Due(s, id, version) && BodiesFit(s.schema, bodies))
            && (r == Refused(NotFound) <==> fits && id !in s.rows)
            && (r == Refused(ArchivedConflict) <==> fits && id in s.rows && s.rows[id].archivedAt.Some?)
            && (r == Refused(VersionConflict) <==>
                  fits && id in s.rows && s.rows[id].archivedAt.None? && s.rows[id].version != version)
            && (r == Refused(InvalidRequest) <==>
                  !fits || (Due(s, id, version) && !AllAdmissible(s.schema.defs, bodies)))
            && (r == Refused(Internal) <==>
                  && fits && Due(s, id, version)
                  && AllAdmissible(s.schema.defs, bodies) && !AllChoicesKnown(s.schema, bodies))
  {
    if NameFits(rawName) && LookupsKnown(s.schema, typeId, areaId) && id in s.rows {
      UpdatedExactly(n, s, id, version, NormalisedName(WesternDigits(rawName)), typeId, areaId, bodies, r);
    }
  }

  ghost predicate HeldByOther(s: State, id: PropertyId, codeNormalized: string) {
    exists other :: other in s.rows && other != id && s.rows[other].codeNormalized == codeNormalized
  }

  // An unknown property is reported as a conflict of versions.
  lemma CodeChangedExactly(n: Normaliser, s: State, id: PropertyId, version: int, rawCode: string, r: Result)
    requires r == ChangeCode(n, s, id, version, rawCode)
    ensures var code := Trim(WesternDigits(rawCode));
            var fits, held := 1 <= |code| <= 32, HeldByOther(s, id, n.canonical(code));
            && (r.Accepted? <==> fits && Due(s, id, version) && !held)
            && (r == Refused(InvalidRequest) <==> !fits)
            && (r == Refused(ArchivedConflict) <==> fits && id in s.rows && s.rows[id].archivedAt.Some?)
            && (r == Refused(VersionConflict) <==>
                  fits && (id in s.rows ==> s.rows[id].archivedAt.None? && s.rows[id].version != version))
            && (r == Refused(DuplicateCode) <==> fits && Due(s, id, version) && held)
  {
  }

  lemma ArchivedExactly(s: State, id: PropertyId, version: int, note: Option<string>, actor: AccountId, now: int,
                        r: Result)
    requires r == Archive(s, id, version, note, actor, now)
    ensures var fits := note.Some? ==> |Trim(note.value)| <= 500;
            && (r.Accepted? <==> fits && Due(s, id, version))
            && (r == Refused(InvalidRequest) <==> !fits)
            && (r == Refused(NotFound) <==> fits && id !in s.rows)
            && (r == Refused(ArchivedConflict) <==> fits && id in s.rows && s.rows[id].archivedAt.Some?)
            && (r == Refused(VersionConflict) <==>
                  fits && id in s.rows && s.rows[id].archivedAt.None? && s.rows[id].version != version)
  {
  }

  lemma RestoredExactly(s: State, id: PropertyId, version: int, r: Result)
    requires r == Restore(s, id, version)
    ensures r.Accepted? <==> id in s.rows && s.rows[id].archivedAt.Some? && s.rows[id].version == version
    ensures r == Refused(NotFound) <==> id !in s.rows
    ensures r == Refused(ArchivedConflict) <==> id in s.rows && s.rows[id].archivedAt.None?
    ensures r == Refused(VersionConflict) <==>
            id in s.rows && s.rows[id].archivedAt.Some? && s.rows[id].version != version
  {
  }

  // ----- what a modification records -----

  function Lookup<K(==), V>(m: map<K, V>, k: K): Option<V> {
    if k in m then Some(m[k]) else None
  }

  // The diff names the keys at which the two sides differ, and no others.
  lemma DiffNamesExactly<K(!new)>(before: map<K, Json>, after: map<K, Json>, k: K)
    ensures k in DiffKeys(before, after) <==> Lookup(before, k) != Lookup(after, k)
  {
  }

  lemma SecretsNamedExactly(before: map<FieldId, string>, after: map<FieldId, string>, f: FieldId)
    ensures f in ChangedSecrets(before, after) <==> Lookup(before, f) != Lookup(after, f)
  {
  }

  predicate SameSecret(defs: map<FieldId, FieldDef>, v: Values, v': Values, id: PropertyId, f: FieldId) {
    SecretAt(v, defs, id, f) == SecretAt(v', defs, id, f)
  }

  // A modification names a sensitive field exactly if its text is not what it was ...
  lemma SensitiveRecordedExactly(s: State, s': State, id: PropertyId, side: State, f: FieldId)
    requires id in s.rows && id in s'.rows && s'.schema == s.schema && (side == s || side == s')
    ensures f in ModifiedPayload(s, s', id, side).sensitive <==>
            !SameSecret(s.schema.defs, s.values, s'.values, id, f)
  {
    SecretsNamedExactly(SecretValues(s.values, s.schema.defs, id), SecretValues(s'.values, s.schema.defs, id), f);
  }

  // ... and any other field exactly if its value is not what it was.
  lemma PublicRecordedExactly(s: State, s': State, id: PropertyId, side: State, f: FieldId)
    requires id in s.rows && id in s'.rows && s'.schema == s.schema && (side == s || side == s')
    ensures f in ModifiedPayload(s, s', id, side).custom <==>
            PublicAt(s.values, s.schema.defs, id, f) != PublicAt(s'.values, s.schema.defs, id, f)
  {
    var was, now := PublicValues(s.values, s.schema.defs, id), PublicValues(s'.values, s.schema.defs, id);
    PublicLookup(s.values, s.schema.defs, id, f);
    PublicLookup(s'.values, s.schema.defs, id, f);
    DiffNamesExactly(was, now, f);
  }

  lemma AttrsRecordedExactly(s: State, s': State, id: PropertyId, side: State)
    requires id in s.rows && id in s'.rows && (side == s || side == s')
    ensures var p := ModifiedPayload(s, s', id, side);
            && p.attrs.Keys <= {Name, PropertyTypeId, AreaId}
            && (Name in p.attrs <==> s.rows[id].name != s'.rows[id].name)
            && (PropertyTypeId in p.attrs <==> s.rows[id].typeId != s'.rows[id].typeId)
            && (AreaId in p.attrs <==> s.rows[id].areaId != s'.rows[id].areaId)
  {
    var was, now := RowAttrs(s.rows[id]), RowAttrs(s'.rows[id]);
    DiffNamesExactly(was, now, Name);
    DiffNamesExactly(was, now, PropertyTypeId);
    DiffNamesExactly(was, now, AreaId);
  }

  // ----- when a record can be undone -----

  ghost predicate Reversed(s: State, k: nat) {
    exists j :: 0 <= j < |s.log| && s.log[j].reverses == Some(k)
  }

  lemma ReversedIsUndone(n: Normaliser, s: State, k: nat)
    requires Valid(n, s)
    ensures Undone(s, k) <==> Reversed(s, k)
  {
    forall j | 0 <= j < |s.log| && s.log[j].reverses == Some(k) ensures s.log[j].action == RecordReverted {
      assert RecordOk(s.schema.defs, s.log[j]);
    }
  }

  // What the recorded side puts in the row's place is admissible.
  predicate SideFits(schema: Schema, row: Row, attrs: map<Attr, Json>) {
    && (Name in attrs ==> attrs[Name].Str? && 2 <= |attrs[Name].text| <= 120)
    && (PropertyTypeId in attrs ==> attrs[PropertyTypeId].Ref? && attrs[PropertyTypeId].id in schema.types)
    && (AreaId in attrs ==> attrs[AreaId].Ref? && attrs[AreaId].id in schema.areas)
  }

  // The fields a record names are still defined, and so are the choices it names.
  predicate FieldsRestorable(schema: Schema, custom: map<FieldId, Json>) {
    && AllRestorable(schema.defs, custom)
    && forall f :: f in custom ==> ChoicesExist(schema, custom[f])
  }

  lemma UndoModifiedExactly(n: Normaliser, s: State, k: nat, r: Record, id: PropertyId)
    requires id in s.rows && RowOk(n, s.rows[id]) && SideOk(s.schema.defs, r.before)
    requires s.rows[id].typeId in s.schema.types && s.rows[id].areaId in s.schema.areas
    ensures UndoModifiedAt(n, s, k, r, id).Accepted? <==>
            && s.rows[id].archivedAt.None?
            && SideFits(s.schema, s.rows[id], r.before.value.attrs)
            && FieldsRestorable(s.schema, r.before.value.custom)
    ensures UndoModifiedAt(n, s, k, r, id) == Refused(ArchivedConflict) <==> s.rows[id].archivedAt.Some?
  {
  }

  ghost predicate UndoFits(n: Normaliser, s: State, r: Record, id: PropertyId)
    requires id in s.rows && r.before.Some?
  {
    match r.action
    case PropertyModified =>
      && r.before.value.sensitive == {} && s.rows[id].archivedAt.None?
      && SideFits(s.schema, s.rows[id], r.before.value.attrs) && FieldsRestorable(s.schema, r.before.value.custom)
    case PropertyArchived => s.rows[id].archivedAt.Some?
    case PropertyRestored => s.rows[id].archivedAt.None?
    case PropertyCodeChanged =>
      && s.rows[id].archivedAt.None?
      && Code in r.before.value.attrs
      && !HeldByOther(s, id, n.canonical(Trim(AsString(r.before.value.attrs[Code]))))
    case _ => false
  }

  // A record can be undone exactly if it is an ordinary one that has not been reversed, its
  // property is found, and that property is in the state the record left it in, so far as
  // what would be put back can be.
  ghost predicate Undoable(n: Normaliser, s: State, k: nat) {
    && k < |s.log| && !Reversed(s, k)
    && s.log[k].action !in {RecordReverted, PropertyCreated} && s.log[k].before.Some?
    && UndoTarget(n, s, k).Resolved? && UndoTarget(n, s, k).id in s.rows
    && UndoFits(n, s, s.log[k], UndoTarget(n, s, k).id)
  }

  lemma UndoModifiedAccepted(n: Normaliser, s: State, k: nat, actor: AccountId, now: int)
    requires Valid(n, s) && k < |s.log| && s.log[k].action == PropertyModified
    ensures Undo(n, s, k, actor, now).Accepted? <==> Undoable(n, s, k)
  {
    ReversedIsUndone(n, s, k);
    var r, at := s.log[k], UndoTarget(n, s, k);
    assert RecordOk(s.schema.defs, r);
    if at.Resolved? && at.id in s.rows {
      RowIsOk(n, s, at.id);
      UndoModifiedExactly(n, s, k, r, at.id);
    }
  }

  lemma UndoArchivedAccepted(n: Normaliser, s: State, k: nat, actor: AccountId, now: int)
    requires Valid(n, s) && k < |s.log| && s.log[k].action in {PropertyArchived, PropertyRestored}
    ensures Undo(n, s, k, actor, now).Accepted? <==> Undoable(n, s, k)
  {
    ReversedIsUndone(n, s, k);
    assert RecordOk(s.schema.defs, s.log[k]);
  }

  lemma UndoCodeChangedAccepted(n: Normaliser, s: State, k: nat, actor: AccountId, now: int)
    requires Valid(n, s) && k < |s.log| && s.log[k].action == PropertyCodeChanged
    ensures Undo(n, s, k, actor, now).Accepted? <==> Undoable(n, s, k)
  {
    ReversedIsUndone(n, s, k);
    assert RecordOk(s.schema.defs, s.log[k]);
    var code :| CodeOk(code) && s.log[k].before == Some(CodePayload(code));
    assert s.log[k].before.value.attrs == map[Code := Str(code)];
  }

  lemma UndoAcceptedExactly(n: Normaliser, s: State, k: nat, actor: AccountId, now: int)
    requires Valid(n, s)
    ensures Undo(n, s, k, actor, now).Accepted? <==> Undoable(n, s, k)
  {
    if k < |s.log| {
      assert RecordOk(s.schema.defs, s.log[k]);
      match s.log[k].action
      case PropertyModified => UndoModifiedAccepted(n, s, k, actor, now);
      case PropertyArchived => UndoArchivedAccepted(n, s, k, actor, now);
      case PropertyRestored => UndoArchivedAccepted(n, s, k, actor, now);
      case PropertyCodeChanged => UndoCodeChangedAccepted(n, s, k, actor, now);
      case _ =>
    }
  }

  // The refusals that look at the record alone.
  lemma UndoRefusedExactly(n: Normaliser, s: State, k: nat, actor: AccountId, now: int, r: Result)
    requires Valid(n, s) && r == Undo(n, s, k, actor, now)
    ensures k >= |s.log| ==> r == Refused(NotFound)
    ensures r == Refused(AlreadyUndone) <==> k < |s.log| && Reversed(s, k)
    ensures r == Refused(CannotUndoUndo) <==> k < |s.log| && !Reversed(s, k) && s.log[k].action == RecordReverted
  {
    ReversedIsUndone(n, s, k);
    if k < |s.log| && !Reversed(s, k) {
      assert RecordOk(s.schema.defs, s.log[k]);
      if s.log[k].action != RecordReverted {
        OrdinaryReasons(n, s, k, actor, now, r);
      }
    }
  }

  // An undo that has come past the log is not refused for what it shows.
  lemma OrdinaryReasons(n: Normaliser, s: State, k: nat, actor: AccountId, now: int, r: Result)
    requires r == Undo(n, s, k, actor, now) && k < |s.log| && !Undone(s, k) && s.log[k].reverses.None?
    ensures r != Refused(AlreadyUndone) && r != Refused(CannotUndoUndo)
    ensures r == Refused(SensitiveUnrestorable) ==> s.log[k].action == PropertyModified
  {
    match s.log[k].action
    case PropertyModified => ModifiedReasons(n, s, k, s.log[k], r);
    case _ =>
  }

  lemma ModifiedReasons(n: Normaliser, s: State, k: nat, record: Record, r: Result)
    requires r == UndoModified(n, s, k, record)
    ensures r != Refused(AlreadyUndone) && r != Refused(CannotUndoUndo)
    ensures r == Refused(SensitiveUnrestorable) <==> record.before.Some? && record.before.value.sensitive != {}
  {
  }

  // A record that names a sensitive field can never be undone.
  lemma SensitiveRefusedExactly(n: Normaliser, s: State, k: nat, actor: AccountId, now: int, r: Result)
    requires Valid(n, s) && r == Undo(n, s, k, actor, now)
    requires k < |s.log| && !Reversed(s, k) && s.log[k].action != RecordReverted
    ensures r == Refused(SensitiveUnrestorable) <==>
            && s.log[k].action == PropertyModified
            && s.log[k].before.Some? && s.log[k].before.value.sensitive != {}
  {
    ReversedIsUndone(n, s, k);
    assert RecordOk(s.schema.defs, s.log[k]);
    OrdinaryReasons(n, s, k, actor, now, r);
    if s.log[k].action == PropertyModified {
      ModifiedReasons(n, s, k, s.log[k], r);
    }
  }

  // The refusals that depend on the state the property is in.
  predicate MissesExactly(row: Row, action: Action, r: Result) {
    && (r == Refused(AlreadyActive) <==> action == PropertyArchived && row.archivedAt.None?)
    && (r == Refused(AlreadyArchived) <==> action == PropertyRestored && row.archivedAt.Some?)
    && (action == PropertyCodeChanged ==> (r == Refused(ArchivedConflict) <==> row.archivedAt.Some?))
  }

  lemma CodeChangeMisses(n: Normaliser, s: State, k: nat, r: Result)
    requires k < |s.log| && s.log[k].action == PropertyCodeChanged && r == UndoCodeChanged(n, s, k, s.log[k])
    requires exists code :: CodeOk(code) && s.log[k].before == Some(CodePayload(code))
    requires UndoTarget(n, s, k).Resolved? && UndoTarget(n, s, k).id in s.rows
    ensures MissesExactly(s.rows[UndoTarget(n, s, k).id], PropertyCodeChanged, r)
  {
    var code :| CodeOk(code) && s.log[k].before == Some(CodePayload(code));
    assert s.log[k].before.value.attrs == map[Code := Str(code)];
  }

  lemma OrdinaryMisses(n: Normaliser, s: State, k: nat, actor: AccountId, now: int, r: Result)
    requires k < |s.log| && RecordOk(s.schema.defs, s.log[k]) && !Undone(s, k) && s.log[k].reverses.None?
    requires r == Undo(n, s, k, actor, now)
    requires UndoTarget(n, s, k).Resolved? && UndoTarget(n, s, k).id in s.rows
    ensures MissesExactly(s.rows[UndoTarget(n, s, k).id], s.log[k].action, r)
  {
    if s.log[k].action == PropertyCodeChanged {
      CodeChangeMisses(n, s, k, r);
    }
  }

  lemma UndoMissesExactly(n: Normaliser, s: State, k: nat, actor: AccountId, now: int, r: Result)
    requires Valid(n, s) && r == Undo(n, s, k, actor, now) && k < |s.log|
    requires !Reversed(s, k) && s.log[k].action != RecordReverted
    requires UndoTarget(n, s, k).Resolved? && UndoTarget(n, s, k).id in s.rows
    ensures MissesExactly(s.rows[UndoTarget(n, s, k).id], s.log[k].action, r)
  {
    ReversedIsUndone(n, s, k);
    assert RecordOk(s.schema.defs, s.log[k]);
    OrdinaryMisses(n, s, k, actor, now, r);
  }

  ghost predicate SecretsKept(defs: map<FieldId, FieldDef>, v: Values, v': Values, id: PropertyId) {
    forall f: FieldId :: SameSecret(defs, v, v', id, f)
  }

  lemma SensitiveFieldRecorded(s: State, s': State, id: PropertyId, sensitive: set<FieldId>, f: FieldId)
    requires id in s.rows && id in s'.rows && s'.schema == s.schema
    requires sensitive == ModifiedPayload(s, s', id, s).sensitive
    ensures f in sensitive <==> !SameSecret(s.schema.defs, s.values, s'.values, id, f)
  {
    SensitiveRecordedExactly(s, s', id, s, f);
  }

  lemma NoneRecordedExactly(defs: map<FieldId, FieldDef>, v: Values, v': Values, id: PropertyId,
                            sensitive: set<FieldId>)
    requires forall f: FieldId :: f in sensitive <==> !SameSecret(defs, v, v', id, f)
    ensures sensitive == {} <==> SecretsKept(defs, v, v', id)
  {
  }

  lemma SecretsKeptExactly(s: State, s': State, id: PropertyId, sensitive: set<FieldId>)
    requires id in s.rows && id in s'.rows && s'.schema == s.schema
    requires sensitive == ModifiedPayload(s, s', id, s).sensitive
    ensures sensitive == {} <==> SecretsKept(s.schema.defs, s.values, s'.values, id)
  {
    forall f: FieldId ensures f in sensitive <==> !SameSecret(s.schema.defs, s.values, s'.values, id, f) {
      SensitiveFieldRecorded(s, s', id, sensitive, f);
    }
    NoneRecordedExactly(s.schema.defs, s.values, s'.values, id, sensitive);
  }

  // A modification names a sensitive field, and so cannot be undone, exactly if it changed
  // some sensitive text.
  lemma SealedChangesAreFinal(n: Normaliser, s: State, id: PropertyId, version: int, rawName: string,
                              typeId: LookupId, areaId: LookupId, bodies: seq<Body>, s': State)
    requires Valid(n, s) && Modify(n, s, id, version, rawName, typeId, areaId, bodies) == Accepted(s')
    ensures s'.log != [] && Last(s').before.Some?
    ensures Last(s').before.value.sensitive == {} <==> SecretsKept(s.schema.defs, s.values, s'.values, id)
  {
    ModifySteps(n, s, id, version, rawName, typeId, areaId, bodies, s');
    SecretsKeptExactly(s, s', id, Last(s').before.value.sensitive);
  }

  // ----- what an undo records -----

  // What the property was in when the undo found it, as far as the record speaks of it.
  ghost predicate RecordsUndoOf(n: Normaliser, s: State, k: nat, before: Option<Payload>)
    requires k < |s.log| && UndoTarget(n, s, k).Resolved? && UndoTarget(n, s, k).id in s.rows
  {
    var r, row := s.log[k], s.rows[UndoTarget(n, s, k).id];
    match r.action
    case PropertyModified => r.after.Some? && before == Some(Payload(r.after.value.attrs, r.after.value.custom, {}))
    case PropertyArchived =>
      before == Some(Payload(map[IsArchived := Flag(true), ArchiveNote := NoteJson(row.note)], map[], {}))
    case PropertyRestored =>
      before == Some(Payload(map[IsArchived := Flag(false), ArchiveNote := Null], map[], {}))
    case PropertyCodeChanged => before == Some(Payload(map[Code := Str(row.code)], map[], {}))
    case _ => false
  }

  lemma UndoOfModifiedRecords(n: Normaliser, s: State, k: nat, s': State)
    requires Valid(n, s) && k < |s.log| && s.log[k].action == PropertyModified && Undo(n, s, k, 0, 0) == Accepted(s')
    ensures UndoTarget(n, s, k).Resolved? && UndoTarget(n, s, k).id in s.rows
    ensures s'.log != [] && RecordsUndoOf(n, s, k, Last(s').before)
  {
    assert RecordOk(s.schema.defs, s.log[k]);
    UndoModifiedUnfolds(n, s, k, s');
    UndoModifiedShape(n, s, k, s.log[k], UndoTarget(n, s, k).id);
  }

  lemma UndoOfRestoredRecords(n: Normaliser, s: State, k: nat, actor: AccountId, now: int, s': State)
    requires Valid(n, s) && k < |s.log| && s.log[k].action == PropertyRestored
    requires Undo(n, s, k, actor, now) == Accepted(s')
    ensures UndoTarget(n, s, k).Resolved? && UndoTarget(n, s, k).id in s.rows
    ensures s'.log != [] && RecordsUndoOf(n, s, k, Last(s').before)
    ensures var row := s'.rows[UndoTarget(n, s, k).id];
            row.archivedAt == Some(now) && row.archivedBy == Some(actor)
  {
    assert RecordOk(s.schema.defs, s.log[k]);
    var note :| NoteOk(note) && s.log[k].before == Some(ArchivePayload(true, note));
    UndoRestoredAtFacts(n, s, k, UndoTarget(n, s, k).id, note, actor, now, s');
  }

  lemma UndoOfCodeChangedRecords(n: Normaliser, s: State, k: nat, s': State)
    requires Valid(n, s) && k < |s.log| && s.log[k].action == PropertyCodeChanged && Undo(n, s, k, 0, 0) == Accepted(s')
    ensures UndoTarget(n, s, k).Resolved? && UndoTarget(n, s, k).id in s.rows
    ensures s'.log != [] && RecordsUndoOf(n, s, k, Last(s').before)
  {
    assert RecordOk(s.schema.defs, s.log[k]);
    var code :| CodeOk(code) && s.log[k].before == Some(CodePayload(code));
    UndoCodeChangedSteps(n, s, k, code);
    UndoCodeChangedAtFacts(n, s, k, UndoTarget(n, s, k).id, code);
  }

  // An accepted undo of any record logs both sides: what it found, and what it put back.
  lemma UndoRecords(n: Normaliser, s: State, k: nat, actor: AccountId, now: int, s': State)
    requires Valid(n, s) && Undo(n, s, k, actor, now) == Accepted(s')
    ensures k < |s.log| && UndoTarget(n, s, k).Resolved? && UndoTarget(n, s, k).id in s.rows
    ensures s'.log != [] && RecordsUndoOf(n, s, k, Last(s').before)
  {
    match s.log[k].action
    case PropertyModified => UndoOfModifiedRecords(n, s, k, s');
    case PropertyArchived =>
      assert RecordOk(s.schema.defs, s.log[k]);
      UndoArchivedAtFacts(n, s, k, UndoTarget(n, s, k).id, s');
    case PropertyRestored => UndoOfRestoredRecords(n, s, k, actor, now, s');
    case PropertyCodeChanged => UndoOfCodeChangedRecords(n, s, k, s');
    case _ =>
  }
}
