/**
 The property register as a value: its tables, the audit log beside them, and what
 each store method and each handler does to them. `Register` (RegisterStore.dfy)
 runs the same operations on mutable tables and is proved against this module.
 */
module RegisterModel {
  import opened Basics
  import opened Text

  type PropertyId = nat
  type FieldId = nat
  type ChoiceId = nat
  type LookupId = nat
  type AccountId = nat

  // ----- custom fields and their values -----

  datatype FieldKind = TextField | Autocomplete | Dropdown | Multiselect | Checkbox

  datatype FieldDef = FieldDef(kind: FieldKind, sensitive: bool)

  // The definition tables the register refers to by foreign key.
  datatype Schema = Schema(
    defs: map<FieldId, FieldDef>,
    choices: set<ChoiceId>,
    types: set<LookupId>,
    areas: set<LookupId>)

  // One row of property_field_value: exactly one column of it is set. A sealed
  // text stands for the ciphertext that opens to it.
  datatype Scalar =
    | PlainText(text: string)
    | Sealed(secret: string)
    | Checked(flag: bool)
    | Chosen(choice: ChoiceId)

  // property_field_value and property_field_multi_value.
  datatype Values = Values(
    scalar: map<(PropertyId, FieldId), Scalar>,
    multi: set<(PropertyId, FieldId, ChoiceId)>)

  // What the audit log keeps of a value.
  datatype Json = Null | Str(text: string) | Flag(flag: bool) | Ref(id: nat) | Refs(ids: set<nat>)

  function MultiFields(v: Values, id: PropertyId): set<FieldId> {
    set t | t in v.multi && t.0 == id :: t.1
  }

  function ChoicesOf(v: Values, id: PropertyId, f: FieldId): set<ChoiceId> {
    set t | t in v.multi && t.0 == id && t.1 == f :: t.2
  }

  function PublicAuditValue(kind: FieldKind, v: Scalar): Json {
    match kind
    case TextField => if v.PlainText? then Str(v.text) else Null
    case Autocomplete => if v.PlainText? then Str(v.text) else Null
    case Checkbox => if v.Checked? then Flag(v.flag) else Null
    case Dropdown => if v.Chosen? then Ref(v.choice) else Null
    case Multiselect => Refs({})
  }

  // The non-sensitive values of one property, as ReadCustomValues and
  // auditCustomValues together report them.
  function PublicValues(v: Values, defs: map<FieldId, FieldDef>, id: PropertyId): map<FieldId, Json> {
    (map f | f in defs && (id, f) in v.scalar && !defs[f].sensitive ::
       PublicAuditValue(defs[f].kind, v.scalar[(id, f)])) +
    (map f | f in MultiFields(v, id) :: Refs(ChoicesOf(v, id, f)))
  }

  // The decrypted sensitive values of one property; they are compared, never logged.
  function SecretValues(v: Values, defs: map<FieldId, FieldDef>, id: PropertyId): map<FieldId, string> {
    map f | f in defs && (id, f) in v.scalar && defs[f].sensitive && v.scalar[(id, f)].Sealed? ::
      v.scalar[(id, f)].secret
  }

  // A value already checked against its field's definition.
  datatype CustomInput = CustomInput(
    field: FieldId,
    def: FieldDef,
    text: Option<string>,
    checked: Option<bool>,
    choice: Option<ChoiceId>,
    choices: seq<ChoiceId>)

  function WithoutFields(v: Values, id: PropertyId, fields: set<FieldId>): Values {
    Values(map k | k in v.scalar && !(k.0 == id && k.1 in fields) :: v.scalar[k],
           set t | t in v.multi && !(t.0 == id && t.1 in fields))
  }

  function WithoutProperty(v: Values, id: PropertyId): Values {
    Values(map k | k in v.scalar && k.0 != id :: v.scalar[k],
           set t | t in v.multi && t.0 != id)
  }

  function PutScalar(v: Values, id: PropertyId, f: FieldId, s: Scalar): Values {
    v.(scalar := v.scalar[(id, f) := s])
  }

  function PutChoices(v: Values, id: PropertyId, f: FieldId, choices: set<ChoiceId>): Values {
    v.(multi := (set t | t in v.multi && !(t.0 == id && t.1 == f)) + (set c | c in choices :: (id, f, c)))
  }

  // The upsert of one input; None is the foreign-key violation on a choice.
  function SaveOne(schema: Schema, v: Values, id: PropertyId, i: CustomInput): Option<Values> {
    match i.def.kind
    case Multiselect =>
      var chosen := set c | c in i.choices;
      if chosen <= schema.choices then Some(PutChoices(v, id, i.field, chosen)) else None
    case Checkbox =>
      if i.checked.None? then Some(v) else Some(PutScalar(v, id, i.field, Checked(i.checked.value)))
    case Dropdown =>
      if i.choice.None? then Some(v)
      else if i.choice.value in schema.choices then Some(PutScalar(v, id, i.field, Chosen(i.choice.value)))
      else None
    case _ =>
      if i.text.None? then Some(v)
      else Some(PutScalar(v, id, i.field, if i.def.sensitive then Sealed(i.text.value) else PlainText(i.text.value)))
  }

  function SaveAll(schema: Schema, v: Values, id: PropertyId, inputs: seq<CustomInput>): Option<Values>
    decreases |inputs|
  {
    if inputs == [] then Some(v)
    else
      var first := SaveOne(schema, v, id, inputs[0]);
      if first.None? then None else SaveAll(schema, first.value, id, inputs[1..])
  }

  // ----- rows, records and the register -----

  datatype Row = Row(
    code: string,
    codeNormalized: string,
    name: string,
    nameNormalized: string,
    typeId: LookupId,
    areaId: LookupId,
    version: int,
    archivedAt: Option<int>,
    archivedBy: Option<AccountId>,
    note: Option<string>)

  datatype Action =
    | PropertyCreated | PropertyModified | PropertyArchived | PropertyRestored
    | PropertyCodeChanged | RecordReverted

  datatype Attr = Name | PropertyTypeId | AreaId | Code | IsArchived | ArchiveNote

  // One before_value or after_value. An empty `custom` or `sensitive` is the key left out.
  datatype Payload = Payload(attrs: map<Attr, Json>, custom: map<FieldId, Json>, sensitive: set<FieldId>)

  // One audit row about a property; its id is its position in the log.
  datatype Record = Record(
    action: Action,
    entity: string,
    before: Option<Payload>,
    after: Option<Payload>,
    reverses: Option<nat>)

  datatype State = State(
    schema: Schema,
    rows: map<PropertyId, Row>,
    values: Values,
    log: seq<Record>)

  datatype Reason =
    | InvalidRequest | NotFound | ArchivedConflict | VersionConflict | DuplicateCode | AlreadyActive | AlreadyArchived
    | CodesExhausted | AlreadyUndone | CannotUndoUndo | Unrestorable | SensitiveUnrestorable | Internal

  datatype Result = Accepted(state: State) | Refused(reason: Reason)

  // The Unicode canonical form and the UUID parser, both taken as given.
  datatype Normaliser = Normaliser(canonical: string -> string, parseId: string -> Option<PropertyId>)

  // ----- store methods: one guarded UPDATE each -----

  predicate RowDue(s: State, id: PropertyId, version: int, archived: bool) {
    id in s.rows && s.rows[id].version == version && s.rows[id].archivedAt.Some? == archived
  }

  // No row matched: which error the store reports. Restore, too, calls its wrong state "archived".
  function MissReason(s: State, id: PropertyId, archivedIsTheReason: bool): Reason {
    if id in s.rows && s.rows[id].archivedAt.Some? == archivedIsTheReason
    then ArchivedConflict
    else VersionConflict
  }

  // The CHECK on the name's length and the two lookup foreign keys.
  predicate RowAdmissible(schema: Schema, name: string, typeId: LookupId, areaId: LookupId) {
    2 <= |name| <= 120 && typeId in schema.types && areaId in schema.areas
  }

  function StoreUpdate(s: State, id: PropertyId, name: string, nameNormalized: string,
                       typeId: LookupId, areaId: LookupId, version: int): Result
  {
    if !RowDue(s, id, version, false) then Refused(MissReason(s, id, true))
    else if !RowAdmissible(s.schema, name, typeId, areaId) then Refused(Internal)
    else
      var row := s.rows[id].(name := name, nameNormalized := nameNormalized,
                             typeId := typeId, areaId := areaId, version := version + 1);
      Accepted(s.(rows := s.rows[id := row]))
  }

  predicate CodeTaken(s: State, codeNormalized: string) {
    exists id :: id in s.rows && s.rows[id].codeNormalized == codeNormalized
  }

  predicate CodeTakenByOther(s: State, id: PropertyId, codeNormalized: string) {
    exists other :: other in s.rows && other != id && s.rows[other].codeNormalized == codeNormalized
  }

  function StoreChangeCode(s: State, id: PropertyId, code: string, codeNormalized: string, version: int): Result {
    if !RowDue(s, id, version, false) then Refused(MissReason(s, id, true))
    else if CodeTakenByOther(s, id, codeNormalized) then Refused(DuplicateCode)
    else
      var row := s.rows[id].(code := code, codeNormalized := codeNormalized, version := version + 1);
      Accepted(s.(rows := s.rows[id := row]))
  }

  function StoreArchive(s: State, id: PropertyId, version: int, note: Option<string>,
                        actor: AccountId, now: int): Result
  {
    if !RowDue(s, id, version, false) then Refused(MissReason(s, id, true))
    else
      var row := s.rows[id].(archivedAt := Some(now), archivedBy := Some(actor), note := note, version := version + 1);
      Accepted(s.(rows := s.rows[id := row]))
  }

  function StoreRestore(s: State, id: PropertyId, version: int): Result {
    if !RowDue(s, id, version, true) then Refused(MissReason(s, id, false))
    else
      var row := s.rows[id].(archivedAt := None, archivedBy := None, note := None, version := version + 1);
      Accepted(s.(rows := s.rows[id := row]))
  }

  // ----- the audit diff -----

  function DiffKeys<K(==)>(before: map<K, Json>, after: map<K, Json>): set<K> {
    set k | k in before.Keys + after.Keys &&
            !((k in before) == (k in after) && ValueOrNull(before, k) == ValueOrNull(after, k))
  }

  function ValueOrNull<K(==)>(m: map<K, Json>, k: K): Json {
    if k in m then m[k] else Null
  }

  // One side of diffAuditMaps: the changed keys with that side's value, null where it has none.
  function DiffSide<K(==)>(changed: set<K>, side: map<K, Json>): map<K, Json> {
    map k | k in changed :: ValueOrNull(side, k)
  }

  function ChangedSecrets(before: map<FieldId, string>, after: map<FieldId, string>): set<FieldId> {
    set k | k in before.Keys + after.Keys && !(k in before && k in after && before[k] == after[k])
  }

  function RowAttrs(row: Row): map<Attr, Json> {
    map[Name := Str(row.name), PropertyTypeId := Ref(row.typeId), AreaId := Ref(row.areaId)]
  }

  // The comparison shape of one property: sensitive plaintext is in it only to be compared.
  datatype AuditState = AuditState(values: map<Attr, Json>, custom: map<FieldId, Json>, secret: map<FieldId, string>)

  function AuditStateOf(s: State, id: PropertyId): AuditState
    requires id in s.rows
  {
    AuditState(RowAttrs(s.rows[id]), PublicValues(s.values, s.schema.defs, id),
        SecretValues(s.values, s.schema.defs, id))
  }

  // One side of diffPropertyAuditStates: the changed keys with the values of `side`.
  function DiffPayload(before: AuditState, after: AuditState, side: AuditState): Payload {
    Payload(
      DiffSide(DiffKeys(before.values, after.values), side.values),
      DiffSide(DiffKeys(before.custom, after.custom), side.custom),
      ChangedSecrets(before.secret, after.secret))
  }

  // The `before` (or `after`) payload of a property_modified record.
  function ModifiedPayload(s: State, s': State, id: PropertyId, side: State): Payload
    requires id in s.rows && id in s'.rows && id in side.rows
  {
    DiffPayload(AuditStateOf(s, id), AuditStateOf(s', id), AuditStateOf(side, id))
  }

  function AttrPayload(attrs: map<Attr, Json>): Payload {
    Payload(attrs, map[], {})
  }

  function NoteJson(note: Option<string>): Json {
    if note.Some? then Str(note.value) else Null
  }

  function ArchivePayload(archived: bool, note: Option<string>): Payload {
    AttrPayload(map[IsArchived := Flag(archived), ArchiveNote := NoteJson(note)])
  }

  function CodePayload(code: string): Payload {
    AttrPayload(map[Code := Str(code)])
  }

  function Logged(s: State, r: Record): State {
    s.(log := s.log + [r])
  }

  // ----- handlers -----

  // One customValues entry of a request body.
  datatype Body = Body(field: FieldId, text: Option<string>, checked: Option<bool>,
                       choice: Option<ChoiceId>, choices: seq<ChoiceId>)

  predicate BodyAdmissible(defs: map<FieldId, FieldDef>, b: Body) {
    && b.field in defs
    && (defs[b.field].kind in {TextField, Autocomplete} && b.text.Some? ==> |b.text.value| <= 1024)
  }

  function InputOf(defs: map<FieldId, FieldDef>, b: Body): CustomInput
    requires b.field in defs
  {
    var def := defs[b.field];
    match def.kind
    case Checkbox => CustomInput(b.field, def, None, b.checked, None, [])
    case Dropdown => CustomInput(b.field, def, None, None, b.choice, [])
    case Multiselect => CustomInput(b.field, def, None, None, None, b.choices)
    case _ => CustomInput(b.field, def, b.text, None, None, [])
  }

  predicate AllAdmissible(defs: map<FieldId, FieldDef>, bodies: seq<Body>) {
    forall i :: 0 <= i < |bodies| ==> BodyAdmissible(defs, bodies[i])
  }

  function InputsOf(defs: map<FieldId, FieldDef>, bodies: seq<Body>): (inputs: seq<CustomInput>)
    requires AllAdmissible(defs, bodies)
    ensures |inputs| == |bodies|
  {
    if bodies == [] then [] else [InputOf(defs, bodies[0])] + InputsOf(defs, bodies[1..])
  }

  function SaveBodies(s: State, id: PropertyId, bodies: seq<Body>): Result {
    if !AllAdmissible(s.schema.defs, bodies) then Refused(InvalidRequest)
    else
      var saved := SaveAll(s.schema, s.values, id, InputsOf(s.schema.defs, bodies));
      if saved.None? then Refused(Internal) else Accepted(s.(values := saved.value))
  }

  function Digits(n: nat): string {
    var last := ['0' + (n % 10) as char];
    if n < 10 then last else Digits(n / 10) + last
  }

  // What the code sequence, a bigint, can hand out.
  type Draw = n: nat | n < 0x8000_0000_0000_0000

  // The "P-%03d" form.
  function GeneratedCode(n: nat): string {
    "P-" + (if n < 10 then "00" else if n < 100 then "0" else "") + Digits(n)
  }

  // The first of the drawn sequence numbers whose code no row holds.
  function FirstFreeCode(n: Normaliser, s: State, draws: seq<Draw>): Option<string> {
    if draws == [] then None
    else if !CodeTaken(s, n.canonical(GeneratedCode(draws[0]))) then Some(GeneratedCode(draws[0]))
    else FirstFreeCode(n, s, draws[1..])
  }

  const MAX_GENERATE_ATTEMPTS := 5

  // The reference code a create request ends up with, or why it is refused.
  datatype Coded = Coded(code: string) | NoCode(reason: Reason)

  function ChooseCode(n: Normaliser, s: State, supplied: string, draws: seq<Draw>): Coded {
    if supplied != "" then
      var raw := Trim(supplied);
      if !(1 <= |raw| <= 32) then NoCode(InvalidRequest)
      else if CodeTaken(s, n.canonical(raw)) then NoCode(DuplicateCode)
      else Coded(raw)
    else
      var drawn := if |draws| <= MAX_GENERATE_ATTEMPTS then draws else draws[..MAX_GENERATE_ATTEMPTS];
      var free := FirstFreeCode(n, s, drawn);
      if free.None? then NoCode(CodesExhausted) else Coded(free.value)
  }

  function Create(n: Normaliser, s: State, id: PropertyId, supplied: string, draws: seq<Draw>,
                  rawName: string, typeId: LookupId, areaId: LookupId, bodies: seq<Body>): Result
  {
    var name := NormalisedName(WesternDigits(rawName));
    var coded := ChooseCode(n, s, supplied, draws);
    if !(2 <= |name| <= 120) then Refused(InvalidRequest)
    else if coded.NoCode? then Refused(coded.reason)
    else if typeId !in s.schema.types || areaId !in s.schema.areas then Refused(InvalidRequest)
    else if id in s.rows then Refused(Internal)
    else
      var code := coded.code;
      var row := Row(code, n.canonical(code), name, n.canonical(name), typeId, areaId, 1, None, None, None);
      var saved := SaveBodies(s.(rows := s.rows[id := row]), id, bodies);
      if saved.Refused? then saved
      else
        Accepted(Logged(saved.state, Record(PropertyCreated, code, None,
          Some(AttrPayload(map[Name := Str(name), Code := Str(code)])), None)))
  }

  function Modify(n: Normaliser, s: State, id: PropertyId, version: int, rawName: string,
                  typeId: LookupId, areaId: LookupId, bodies: seq<Body>): Result
  {
    var name := NormalisedName(WesternDigits(rawName));
    if !(2 <= |name| <= 120) then Refused(InvalidRequest)
    else if typeId !in s.schema.types || areaId !in s.schema.areas then Refused(InvalidRequest)
    else if id !in s.rows then Refused(NotFound)
    else UpdateAndLog(n, s, id, version, name, typeId, areaId, bodies)
  }

  // The transaction of an update whose request has passed validation.
  function UpdateAndLog(n: Normaliser, s: State, id: PropertyId, version: int, name: string,
                        typeId: LookupId, areaId: LookupId, bodies: seq<Body>): Result
    requires id in s.rows
  {
    var updated := StoreUpdate(s, id, name, n.canonical(name), typeId, areaId, version);
    if updated.Refused? then updated else ReplaceAndLog(s, updated.state, id, bodies)
  }

  // The rest of an update's transaction: `s` is the register before it, `updated` has the
  // new row. The values are replaced and the difference to `s` is logged.
  function ReplaceAndLog(s: State, updated: State, id: PropertyId, bodies: seq<Body>): Result
    requires id in s.rows && id in updated.rows
  {
    var saved := SaveBodies(updated.(values := WithoutProperty(updated.values, id)), id, bodies);
    if saved.Refused? then saved
    else
      Accepted(Logged(saved.state, Record(PropertyModified, saved.state.rows[id].code,
        Some(ModifiedPayload(s, saved.state, id, s)),
        Some(ModifiedPayload(s, saved.state, id, saved.state)), None)))
  }

  function ChangeCode(n: Normaliser, s: State, id: PropertyId, version: int, rawCode: string): Result {
    var code := Trim(WesternDigits(rawCode));
    if !(1 <= |code| <= 32) then Refused(InvalidRequest)
    else
      var changed := StoreChangeCode(s, id, code, n.canonical(code), version);
      if changed.Refused? then changed
      else
        Accepted(Logged(changed.state, Record(PropertyCodeChanged, code,
          Some(CodePayload(s.rows[id].code)), Some(CodePayload(code)), None)))
  }

  function TrimmedNote(note: Option<string>): Option<string> {
    if note.Some? && Trim(note.value) != "" then Some(Trim(note.value)) else None
  }

  function Archive(s: State, id: PropertyId, version: int, rawNote: Option<string>,
                   actor: AccountId, now: int): Result
  {
    var note := TrimmedNote(rawNote);
    if note.Some? && |note.value| > 500 then Refused(InvalidRequest)
    else if id !in s.rows then Refused(NotFound)
    else
      var archived := StoreArchive(s, id, version, note, actor, now);
      if archived.Refused? then archived
      else
        Accepted(Logged(archived.state, Record(PropertyArchived, s.rows[id].code,
          Some(ArchivePayload(false, None)), Some(ArchivePayload(true, note)), None)))
  }

  function Restore(s: State, id: PropertyId, version: int): Result {
    if id !in s.rows then Refused(NotFound)
    else
      var restored := StoreRestore(s, id, version);
      if restored.Refused? then restored
      else
        Accepted(Logged(restored.state, Record(PropertyRestored, s.rows[id].code,
          Some(ArchivePayload(true, s.rows[id].note)), Some(ArchivePayload(false, None)), None)))
  }

  // ----- undo -----

  predicate Undone(s: State, k: nat) {
    exists j :: 0 <= j < |s.log| && s.log[j].reverses == Some(k) && s.log[j].action == RecordReverted
  }

  // The record_reverted rows that point at record `k`.
  function Reversals(log: seq<Record>, k: nat): nat {
    if log == [] then 0
    else
      var last := log[|log| - 1];
      Reversals(log[..|log| - 1], k) + (if last.reverses == Some(k) && last.action == RecordReverted then 1 else 0)
  }

  // SELECT id FROM property WHERE code_normalized = …, None when nothing matches.
  ghost function FindByCode(s: State, codeNormalized: string): (r: Option<PropertyId>)
    ensures r.Some? <==> CodeTaken(s, codeNormalized)
    ensures r.Some? ==> r.value in s.rows && s.rows[r.value].codeNormalized == codeNormalized
  {
    if id :| id in s.rows && s.rows[id].codeNormalized == codeNormalized then Some(id) else None
  }

  datatype Resolved = Resolved(id: PropertyId) | Unresolved(reason: Reason)

  ghost function ResolveByCode(n: Normaliser, s: State, code: string): Resolved {
    if code == "" then Unresolved(Unrestorable)
    else
      var found := FindByCode(s, n.canonical(Trim(code)));
      if found.None? then Unresolved(NotFound) else Resolved(found.value)
  }

  // An entity id that parses as a UUID is taken for the property's id; otherwise it is a code.
  ghost function ResolveEntity(n: Normaliser, s: State, entity: string): Resolved {
    if entity != "" && n.parseId(entity).Some? then Resolved(n.parseId(entity).value) else ResolveByCode(n, s, entity)
  }

  function AsString(j: Json): string {
    if j.Str? then j.text else ""
  }

  // Whether one recorded custom value can be turned back into an input.
  predicate Restorable(defs: map<FieldId, FieldDef>, f: FieldId, j: Json) {
    f in defs && (j != Null ==>
      match defs[f].kind
      case Checkbox => j.Flag?
      case Dropdown => j.Ref?
      case Multiselect => j.Refs?
      case _ => j.Str? && !defs[f].sensitive)
  }

  predicate AllRestorable(defs: map<FieldId, FieldDef>, custom: map<FieldId, Json>) {
    forall f :: f in custom ==> Restorable(defs, f, custom[f])
  }

  predicate AllChoicesExist(schema: Schema, custom: map<FieldId, Json>) {
    forall f :: f in custom ==> ChoicesExist(schema, custom[f])
  }

  // Why recorded values cannot be written back, if they cannot.
  function RestoreFault(schema: Schema, custom: map<FieldId, Json>): Option<Reason> {
    if !AllRestorable(schema.defs, custom) then Some(Unrestorable)
    else if !AllChoicesExist(schema, custom) then Some(Internal)
    else None
  }

  predicate ChoicesExist(schema: Schema, j: Json) {
    (j.Ref? ==> j.id in schema.choices) && (j.Refs? ==> j.ids <= schema.choices)
  }

  function ScalarOf(j: Json): Scalar
    requires j.Str? || j.Flag? || j.Ref?
  {
    match j
    case Str(text) => PlainText(text)
    case Flag(flag) => Checked(flag)
    case Ref(id) => Chosen(id)
  }

  // The tables after the named fields have been deleted and their recorded values
  // written back: null leaves a field without a value.
  function RestoreFields(v: Values, id: PropertyId, custom: map<FieldId, Json>): Values {
    var bare := WithoutFields(v, id, custom.Keys);
    Values(bare.scalar + (map f | f in custom && (custom[f].Str? || custom[f].Flag? || custom[f].Ref?) ::
                            (id, f) := ScalarOf(custom[f])),
           bare.multi + (set f, c | f in custom && custom[f].Refs? && c in custom[f].ids :: (id, f, c)))
  }

  function Reversal(k: nat, entity: string, before: Payload, after: Payload): Record {
    Record(RecordReverted, entity, Some(before), Some(after), Some(k))
  }

  function WithoutSensitive(p: Option<Payload>): Payload {
    if p.Some? then p.value.(sensitive := {}) else Payload(map[], map[], {})
  }

  ghost function UndoModified(n: Normaliser, s: State, k: nat, r: Record): Result {
    var at := ResolveEntity(n, s, r.entity);
    if r.before.None? then Refused(Unrestorable)
    else if r.before.value.sensitive != {} then Refused(SensitiveUnrestorable)
    else if at.Unresolved? then Refused(at.reason)
    else if at.id !in s.rows then Refused(NotFound)
    else UndoModifiedAt(n, s, k, r, at.id)
  }

  function UndoModifiedAt(n: Normaliser, s: State, k: nat, r: Record, id: PropertyId): Result
    requires r.before.Some? && id in s.rows
  {
    var before := r.before.value;
    var current := s.rows[id];
    if PropertyTypeId in before.attrs && !before.attrs[PropertyTypeId].Ref? then Refused(Unrestorable)
    else if AreaId in before.attrs && !before.attrs[AreaId].Ref? then Refused(Unrestorable)
    else
      var name := if Name in before.attrs then AsString(before.attrs[Name]) else current.name;
      var typeId := if PropertyTypeId in before.attrs then before.attrs[PropertyTypeId].id else current.typeId;
      var areaId := if AreaId in before.attrs then before.attrs[AreaId].id else current.areaId;
      var updated := StoreUpdate(s, id, name, n.canonical(Trim(name)), typeId, areaId, current.version);
      if updated.Refused? then updated else ValuesWritten(s, updated.state, k, r, id)
  }

  // The rest of the transaction: `s` is the register before it, `updated` has the row as it
  // will be. The recorded values are written back and the reversal is logged.
  function ValuesWritten(s: State, updated: State, k: nat, r: Record, id: PropertyId): Result
    requires r.before.Some? && id in s.rows
  {
    var custom := r.before.value.custom;
    var fault := RestoreFault(s.schema, custom);
    if fault.Some? then Refused(fault.value)
    else
      Accepted(Logged(updated.(values := RestoreFields(s.values, id, custom)),
                      Reversal(k, s.rows[id].code, WithoutSensitive(r.after), WithoutSensitive(r.before))))
  }

  ghost function UndoArchived(n: Normaliser, s: State, k: nat, r: Record): Result {
    var at := ResolveEntity(n, s, r.entity);
    if at.Unresolved? then Refused(at.reason)
    else if at.id !in s.rows then Refused(NotFound)
    else UndoArchivedAt(s, k, at.id)
  }

  function UndoArchivedAt(s: State, k: nat, id: PropertyId): Result
    requires id in s.rows
  {
    var current := s.rows[id];
    if current.archivedAt.None? then Refused(AlreadyActive)
    else
      var restored := StoreRestore(s, id, current.version);
      if restored.Refused? then restored
      else Accepted(Logged(restored.state, Reversal(k, current.code,
             ArchivePayload(true, current.note), ArchivePayload(false, None))))
  }

  ghost function UndoRestored(n: Normaliser, s: State, k: nat, r: Record, actor: AccountId, now: int): Result {
    var at := ResolveEntity(n, s, r.entity);
    if at.Unresolved? then Refused(at.reason)
    else if at.id !in s.rows then Refused(NotFound)
    else UndoRestoredAt(s, k, r, at.id, actor, now)
  }

  function UndoRestoredAt(s: State, k: nat, r: Record, id: PropertyId, actor: AccountId, now: int): Result
    requires id in s.rows
  {
    var current := s.rows[id];
    if current.archivedAt.Some? then Refused(AlreadyArchived)
    else
      var recorded := if r.before.Some? && ArchiveNote in r.before.value.attrs
                      then AsString(r.before.value.attrs[ArchiveNote]) else "";
      var note := TrimmedNote(Some(recorded));
      var archived := StoreArchive(s, id, current.version, note, actor, now);
      if archived.Refused? then archived
      else Accepted(Logged(archived.state, Reversal(k, current.code,
             ArchivePayload(false, None), ArchivePayload(true, note))))
  }

  ghost function UndoCodeChanged(n: Normaliser, s: State, k: nat, r: Record): Result {
    var oldCode := if r.before.Some? && Code in r.before.value.attrs then AsString(r.before.value.attrs[Code]) else "";
    var at := ResolveByCode(n, s, r.entity);
    if oldCode == "" then Refused(Unrestorable)
    else if at.Unresolved? then Refused(at.reason)
    else if at.id !in s.rows then Refused(NotFound)
    else UndoCodeChangedAt(n, s, k, at.id, oldCode)
  }

  function UndoCodeChangedAt(n: Normaliser, s: State, k: nat, id: PropertyId, oldCode: string): Result
    requires id in s.rows
  {
    var current := s.rows[id];
    var changed := StoreChangeCode(s, id, oldCode, n.canonical(Trim(oldCode)), current.version);
    if changed.Refused? then changed
    else Accepted(Logged(changed.state, Reversal(k, oldCode, CodePayload(current.code), CodePayload(oldCode))))
  }

  ghost function Undo(n: Normaliser, s: State, k: nat, actor: AccountId, now: int): Result {
    if k >= |s.log| then Refused(NotFound)
    else if Undone(s, k) then Refused(AlreadyUndone)
    else if s.log[k].reverses.Some? then Refused(CannotUndoUndo)
    else
      match s.log[k].action
      case PropertyModified => UndoModified(n, s, k, s.log[k])
      case PropertyArchived => UndoArchived(n, s, k, s.log[k])
      case PropertyRestored => UndoRestored(n, s, k, s.log[k], actor, now)
      case PropertyCodeChanged => UndoCodeChanged(n, s, k, s.log[k])
      case _ => Refused(Unrestorable)
  }

  // ----- runs -----

  datatype Step =
    | DoCreate(id: PropertyId, supplied: string, draws: seq<Draw>, name: string,
               typeId: LookupId, areaId: LookupId, bodies: seq<Body>)
    | DoModify(id: PropertyId, version: int, name: string, typeId: LookupId, areaId: LookupId, bodies: seq<Body>)
    | DoChangeCode(id: PropertyId, version: int, code: string)
    | DoArchive(id: PropertyId, version: int, note: Option<string>, actor: AccountId, now: int)
    | DoRestore(id: PropertyId, version: int)
    | DoUndo(record: nat, actor: AccountId, now: int)
    | DoRedefine(schema: Schema)

  // The definition tables may change under the register: a field keeps its type and
  // its sensitivity for life, a new field has an id never seen before, and a foreign
  // key never lets go of what a row or a value still uses.
  function Redefine(s: State, schema: Schema): Result {
    if SchemaCovers(schema, s) && DefsEvolve(s, schema.defs) then Accepted(s.(schema := schema))
    else Refused(Internal)
  }

  predicate DefsEvolve(s: State, defs: map<FieldId, FieldDef>) {
    forall f :: f in defs ==>
      if f in s.schema.defs then defs[f] == s.schema.defs[f]
      else forall k :: 0 <= k < |s.log| ==> !Mentions(s.log[k].before, f) && !Mentions(s.log[k].after, f)
  }

  predicate Mentions(p: Option<Payload>, f: FieldId) {
    p.Some? && f in p.value.custom
  }

  predicate Fits(schema: Schema, f: FieldId, v: Scalar) {
    f in schema.defs &&
    match v
    case PlainText(_) => schema.defs[f].kind in {TextField, Autocomplete} && !schema.defs[f].sensitive
    case Sealed(_) => schema.defs[f].kind == TextField && schema.defs[f].sensitive
    case Checked(_) => schema.defs[f].kind == Checkbox
    case Chosen(c) => schema.defs[f].kind == Dropdown && c in schema.choices
  }

  predicate SchemaCovers(schema: Schema, s: State) {
    && (forall f :: f in schema.defs && schema.defs[f].sensitive ==> schema.defs[f].kind == TextField)
    && (forall k :: k in s.values.scalar ==> Fits(schema, k.1, s.values.scalar[k]))
    && (forall t :: t in s.values.multi ==>
          t.1 in schema.defs && schema.defs[t.1].kind == Multiselect && t.2 in schema.choices)
    && (forall id :: id in s.rows ==> s.rows[id].typeId in schema.types && s.rows[id].areaId in schema.areas)
  }

  ghost function Apply(n: Normaliser, s: State, step: Step): Result {
    match step
    case DoCreate(id, supplied, draws, name, typeId, areaId, bodies) =>
      Create(n, s, id, supplied, draws, name, typeId, areaId, bodies)
    case DoModify(id, version, name, typeId, areaId, bodies) =>
      Modify(n, s, id, version, name, typeId, areaId, bodies)
    case DoChangeCode(id, version, code) => ChangeCode(n, s, id, version, code)
    case DoArchive(id, version, note, actor, now) => Archive(s, id, version, note, actor, now)
    case DoRestore(id, version) => Restore(s, id, version)
    case DoUndo(record, actor, now) => Undo(n, s, record, actor, now)
    case DoRedefine(schema) => Redefine(s, schema)
  }

  // A refused step leaves the register as it was.
  ghost function Next(n: Normaliser, s: State, step: Step): State {
    var r := Apply(n, s, step);
    if r.Accepted? then r.state else s
  }

  ghost function Run(n: Normaliser, s: State, steps: seq<Step>): State
    decreases |steps|
  {
    if steps == [] then s else Run(n, Next(n, s, steps[0]), steps[1..])
  }

  function Empty(schema: Schema): State {
    State(schema, map[], Values(map[], {}), [])
  }
}
