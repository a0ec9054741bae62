/**
 The register as the program runs it: mutable tables, guarded updates, loops over the
 rows of a query, and handlers that roll their transaction back when a later statement
 fails. Every handler is proved to do exactly what RegisterModel says it does.
 */
module RegisterStore {
  import opened Basics
  import opened Text
  import opened RegisterModel
  import opened RegisterViews
  import opened RegisterTheory

  // One entry of what ReadCustomValues returns.
  datatype StoredValue =
    | StoredScalar(field: FieldId, def: FieldDef, value: Scalar)
    | StoredChoices(field: FieldId, choices: set<ChoiceId>)

  datatype Outcome = Done | Failed(reason: Reason)

  // How a call that RegisterModel describes by `r` ends: the outcome it reports, and the
  // register it leaves behind. A refusal leaves the register it found.
  function OutcomeOf(r: Result): Outcome {
    if r.Accepted? then Done else Failed(r.reason)
  }

  function After(r: Result, s: State): State {
    if r.Accepted? then r.state else s
  }

  // ----- the audit diff -----

  // The loop of diffAuditMaps over the union of both key sets.
  method DiffAuditMaps<K(==)>(before: map<K, Json>, after: map<K, Json>)
    returns (beforeDiff: map<K, Json>, afterDiff: map<K, Json>)
    ensures beforeDiff == DiffSide(DiffKeys(before, after), before)
    ensures afterDiff == DiffSide(DiffKeys(before, after), after)
  {
    beforeDiff, afterDiff := map[], map[];
    var keys := before.Keys + after.Keys;
    while keys != {}
      invariant keys <= before.Keys + after.Keys
      invariant beforeDiff == DiffSide(DiffKeys(before, after) - keys, before)
      invariant afterDiff == DiffSide(DiffKeys(before, after) - keys, after)
    {
      var key :| key in keys;
      keys := keys - {key};
      var beforeExists, afterExists := key in before, key in after;
      if beforeExists == afterExists && (!beforeExists || before[key] == after[key]) {
        continue;
      }
      if beforeExists {
        beforeDiff := beforeDiff[key := before[key]];
      } else {
        beforeDiff := beforeDiff[key := Null];
      }
      if afterExists {
        afterDiff := afterDiff[key := after[key]];
      } else {
        afterDiff := afterDiff[key := Null];
      }
    }
  }

  method ChangedSensitiveFields(before: map<FieldId, string>, after: map<FieldId, string>)
    returns (changed: set<FieldId>)
    ensures changed == ChangedSecrets(before, after)
  {
    changed := {};
    var keys := before.Keys + after.Keys;
    while keys != {}
      invariant keys <= before.Keys + after.Keys
      invariant changed == ChangedSecrets(before, after) - keys
    {
      var key :| key in keys;
      keys := keys - {key};
      if (key in before) != (key in after) || before[key] != after[key] {
        changed := changed + {key};
      }
    }
  }

  method DiffPropertyAuditStates(before: AuditState, after: AuditState)
    returns (beforeDiff: Payload, afterDiff: Payload)
    ensures beforeDiff == DiffPayload(before, after, before)
    ensures afterDiff == DiffPayload(before, after, after)
  {
    var valuesBefore, valuesAfter := DiffAuditMaps(before.values, after.values);
    var customBefore, customAfter := DiffAuditMaps(before.custom, after.custom);
    var changed := ChangedSensitiveFields(before.secret, after.secret);
    beforeDiff := Payload(valuesBefore, customBefore, changed);
    afterDiff := Payload(valuesAfter, customAfter, changed);
  }

  // ----- turning recorded values back into inputs -----

  function RecordedInput(f: FieldId, def: FieldDef, j: Json, ids: seq<ChoiceId>): CustomInput {
    match j
    case Str(text) => CustomInput(f, def, Some(text), None, None, [])
    case Flag(flag) => CustomInput(f, def, None, Some(flag), None, [])
    case Ref(id) => CustomInput(f, def, None, None, Some(id), [])
    case _ => CustomInput(f, def, None, None, None, ids)
  }

  // The value tables once the recorded values in `done` have been written into them.
  function PutRecorded(bare: Values, id: PropertyId, done: map<FieldId, Json>): Values {
    Values(bare.scalar + (map f | f in done && (done[f].Str? || done[f].Flag? || done[f].Ref?) ::
                            (id, f) := ScalarOf(done[f])),
           bare.multi + (set f, c | f in done && done[f].Refs? && c in done[f].ids :: (id, f, c)))
  }

  lemma RestoredIsRecorded(was: Values, bare: Values, id: PropertyId, custom: map<FieldId, Json>)
    requires bare == WithoutFields(was, id, custom.Keys)
    ensures RestoreFields(was, id, custom) == PutRecorded(bare, id, custom)
  {
  }

  lemma {:induction false} SaveAllAppend(schema: Schema, v: Values, id: PropertyId, inputs: seq<CustomInput>,
      i: CustomInput)
    ensures SaveAll(schema, v, id, inputs + [i]) ==
            var first := SaveAll(schema, v, id, inputs);
            if first.None? then None else SaveOne(schema, first.value, id, i)
    decreases |inputs|
  {
    if inputs == [] {
      assert [i][1..] == [];
    } else {
      assert (inputs + [i])[1..] == inputs[1..] + [i];
      var first := SaveOne(schema, v, id, inputs[0]);
      if first.Some? {
        SaveAllAppend(schema, first.value, id, inputs[1..], i);
      }
    }
  }

  lemma PutRecordedMulti(bare: Values, id: PropertyId, done: map<FieldId, Json>, t: (PropertyId, FieldId, ChoiceId))
    ensures t in PutRecorded(bare, id, done).multi <==>
            t in bare.multi || (t.0 == id && t.1 in done && done[t.1].Refs? && t.2 in done[t.1].ids)
  {
    if t.0 == id && t.1 in done && done[t.1].Refs? && t.2 in done[t.1].ids {
      assert (id, t.1, t.2) in PutRecorded(bare, id, done).multi;
    }
  }

  lemma PutRecordedScalarAt(bare: Values, id: PropertyId, done: map<FieldId, Json>, k: (PropertyId, FieldId))
    ensures var put := PutRecorded(bare, id, done).scalar;
            if k.0 == id && k.1 in done && (done[k.1].Str? || done[k.1].Flag? || done[k.1].Ref?)
            then k in put && put[k] == ScalarOf(done[k.1])
            else (k in put <==> k in bare.scalar) && (k in put ==> put[k] == bare.scalar[k])
  {
  }

  lemma PutRecordedNull(bare: Values, id: PropertyId, done: map<FieldId, Json>, f: FieldId)
    requires f !in done
    ensures PutRecorded(bare, id, done[f := Null]) == PutRecorded(bare, id, done)
  {
    var was, now := PutRecorded(bare, id, done), PutRecorded(bare, id, done[f := Null]);
    SameScalars(bare, id, done, done[f := Null]);
    forall t: (PropertyId, FieldId, ChoiceId) ensures t in now.multi <==> t in was.multi {
      PutRecordedMulti(bare, id, done, t);
      PutRecordedMulti(bare, id, done[f := Null], t);
    }
  }

  // Recording a null or a choice list adds nothing to the scalar table.
  lemma SameScalars(bare: Values, id: PropertyId, done: map<FieldId, Json>, done': map<FieldId, Json>)
    requires forall f :: f in done ==> f in done' && done'[f] == done[f]
    requires forall f :: f in done' && f !in done ==> done'[f].Null? || done'[f].Refs?
    ensures PutRecorded(bare, id, done').scalar == PutRecorded(bare, id, done).scalar
  {
    var was, now := PutRecorded(bare, id, done).scalar, PutRecorded(bare, id, done').scalar;
    forall k: (PropertyId, FieldId) ensures (k in now <==> k in was) && (k in now ==> now[k] == was[k]) {
      PutRecordedScalarAt(bare, id, done, k);
      PutRecordedScalarAt(bare, id, done', k);
    }
  }

  lemma PutRecordedScalar(bare: Values, id: PropertyId, done: map<FieldId, Json>, f: FieldId, j: Json)
    requires f !in done && (j.Str? || j.Flag? || j.Ref?)
    ensures PutRecorded(bare, id, done[f := j]) == PutScalar(PutRecorded(bare, id, done), id, f, ScalarOf(j))
  {
    var was, now := PutRecorded(bare, id, done), PutRecorded(bare, id, done[f := j]);
    PutRecordedScalarTable(bare, id, done, f, j);
    forall t: (PropertyId, FieldId, ChoiceId) ensures t in now.multi <==> t in was.multi {
      PutRecordedMulti(bare, id, done, t);
      PutRecordedMulti(bare, id, done[f := j], t);
    }
  }

  lemma PutRecordedScalarTable(bare: Values, id: PropertyId, done: map<FieldId, Json>, f: FieldId, j: Json)
    requires f !in done && (j.Str? || j.Flag? || j.Ref?)
    ensures PutRecorded(bare, id, done[f := j]).scalar == PutRecorded(bare, id, done).scalar[(id, f) := ScalarOf(j)]
  {
    var now, put :=
        PutRecorded(bare, id, done[f := j]).scalar, PutRecorded(bare, id, done).scalar[(id, f) := ScalarOf(j)];
    forall k: (PropertyId, FieldId) ensures (k in now <==> k in put) && (k in now ==> now[k] == put[k]) {
      PutRecordedScalarAt(bare, id, done, k);
      PutRecordedScalarAt(bare, id, done[f := j], k);
      assert k == (k.0, k.1);
    }
    SameMap(now, put);
  }

  lemma PutRecordedRefs(bare: Values, id: PropertyId, done: map<FieldId, Json>, f: FieldId, ids: set<nat>)
    requires f !in done && forall t :: t in bare.multi ==> !(t.0 == id && t.1 == f)
    ensures PutRecorded(bare, id, done[f := Refs(ids)]) == PutChoices(PutRecorded(bare, id, done), id, f, ids)
  {
    var was, now := PutRecorded(bare, id, done), PutRecorded(bare, id, done[f := Refs(ids)]);
    var put := PutChoices(was, id, f, ids);
    SameScalars(bare, id, done, done[f := Refs(ids)]);
    forall t: (PropertyId, FieldId, ChoiceId) ensures t in now.multi <==> t in put.multi {
      PutRecordedMulti(bare, id, done, t);
      PutRecordedMulti(bare, id, done[f := Refs(ids)], t);
      assert t == (t.0, t.1, t.2);
    }
  }

  // One recorded value written back: the input it turns into saves exactly it.
  lemma RecordedInputSaves(schema: Schema, bare: Values, id: PropertyId, done: map<FieldId, Json>,
                           f: FieldId, j: Json, ids: seq<ChoiceId>)
    requires f !in done && j != Null && Restorable(schema.defs, f, j)
    requires forall t :: t in bare.multi ==> !(t.0 == id && t.1 == f)
    requires j.Refs? ==> (set c | c in ids) == j.ids
    ensures SaveOne(schema, PutRecorded(bare, id, done), id, RecordedInput(f, schema.defs[f], j, ids)) ==
            if ChoicesExist(schema, j) then Some(PutRecorded(bare, id, done[f := j])) else None
  {
    var i := RecordedInput(f, schema.defs[f], j, ids);
    if j.Refs? {
      PutRecordedRefs(bare, id, done, f, j.ids);
      var chosen := set c | c in i.choices;
      assert chosen == j.ids;
      assert SaveOne(schema, PutRecorded(bare, id, done), id, i) ==
             if chosen <= schema.choices then Some(PutChoices(PutRecorded(bare, id, done), id, f, chosen)) else None;
    } else {
      PutRecordedScalar(bare, id, done, f, j);
    }
  }

  // The inputs collected so far save exactly the recorded values handled so far.
  ghost predicate Collected(schema: Schema, bare: Values, id: PropertyId, done: map<FieldId, Json>,
      inputs: seq<CustomInput>)
  {
    SaveAll(schema, bare, id, inputs) ==
    if AllChoicesExist(schema, done) then Some(PutRecorded(bare, id, done)) else None
  }

  lemma ChoicesGrow(schema: Schema, done: map<FieldId, Json>, f: FieldId, j: Json)
    requires f !in done
    ensures AllChoicesExist(schema, done[f := j]) <==> AllChoicesExist(schema, done) && ChoicesExist(schema, j)
  {
    if AllChoicesExist(schema, done[f := j]) {
      forall g | g in done ensures ChoicesExist(schema, done[g]) {
        assert done[f := j][g] == done[g];
      }
      assert done[f := j][f] == j;
    }
  }

  lemma CollectNull(schema: Schema, bare: Values, id: PropertyId, done: map<FieldId, Json>, inputs: seq<CustomInput>,
      f: FieldId)
    requires Collected(schema, bare, id, done, inputs) && f !in done
    ensures Collected(schema, bare, id, done[f := Null], inputs)
  {
    PutRecordedNull(bare, id, done, f);
    ChoicesGrow(schema, done, f, Null);
  }

  lemma CollectValue(schema: Schema, bare: Values, id: PropertyId, done: map<FieldId, Json>, inputs: seq<CustomInput>,
                     f: FieldId, j: Json, ids: seq<ChoiceId>)
    requires Collected(schema, bare, id, done, inputs) && f !in done
    requires j != Null && Restorable(schema.defs, f, j)
    requires forall t :: t in bare.multi ==> !(t.0 == id && t.1 == f)
    requires j.Refs? ==> (set c | c in ids) == j.ids
    ensures Collected(schema, bare, id, done[f := j], inputs + [RecordedInput(f, schema.defs[f], j, ids)])
  {
    RecordedInputSaves(schema, bare, id, done, f, j, ids);
    SaveAllAppend(schema, bare, id, inputs, RecordedInput(f, schema.defs[f], j, ids));
    ChoicesGrow(schema, done, f, j);
  }

  class Register {
    const n: Normaliser
    var schema: Schema
    var rows: map<PropertyId, Row>
    var scalar: map<(PropertyId, FieldId), Scalar>
    var multi: set<(PropertyId, FieldId, ChoiceId)>
    var log: seq<Record>

    ghost function Current(): State
      reads this
    {
      State(schema, rows, Values(scalar, multi), log)
    }

    constructor (n: Normaliser, schema: Schema)
      ensures this.n == n && Current() == Empty(schema)
    {
      this.n, this.schema := n, schema;
      rows, scalar, multi, log := map[], map[], {}, [];
    }

    // ----- store methods on the value tables -----

    method DeleteCustomValues(id: PropertyId)
      modifies `scalar, `multi
      ensures Values(scalar, multi) == WithoutProperty(old(Current()).values, id)
    {
      scalar := map k | k in scalar && k.0 != id :: scalar[k];
      multi := set t | t in multi && t.0 != id;
    }

    method DeleteCustomValuesForFields(id: PropertyId, fields: set<FieldId>)
      modifies `scalar, `multi
      ensures Values(scalar, multi) == WithoutFields(old(Current()).values, id, fields)
    {
      if fields == {} {
        return;
      }
      scalar := map k | k in scalar && !(k.0 == id && k.1 in fields) :: scalar[k];
      multi := set t | t in multi && !(t.0 == id && t.1 in fields);
    }

    // One input: an upsert for a scalar, delete-then-insert for a multiselect.
    method SaveInput(id: PropertyId, i: CustomInput) returns (ok: bool)
      modifies `scalar, `multi
      ensures ok == SaveOne(schema, old(Current()).values, id, i).Some?
      ensures ok ==> Values(scalar, multi) == SaveOne(schema, old(Current()).values, id, i).value
    {
      match i.def.kind
      case Multiselect =>
        multi := set t | t in multi && !(t.0 == id && t.1 == i.field);
        ghost var bare := multi;
        for k := 0 to |i.choices|
          invariant scalar == old(scalar)
          invariant forall j :: 0 <= j < k ==> i.choices[j] in schema.choices
          invariant multi == bare + set c | c in i.choices[..k] :: (id, i.field, c)
        {
          if i.choices[k] !in schema.choices {
            return false;
          }
          assert i.choices[..k + 1] == i.choices[..k] + [i.choices[k]];
          multi := multi + {(id, i.field, i.choices[k])};
        }
        assert i.choices[..|i.choices|] == i.choices;
        return true;
      case Checkbox =>
        if i.checked.Some? {
          scalar := scalar[(id, i.field) := Checked(i.checked.value)];
        }
        return true;
      case Dropdown =>
        if i.choice.Some? {
          if i.choice.value !in schema.choices {
            return false;
          }
          scalar := scalar[(id, i.field) := Chosen(i.choice.value)];
        }
        return true;
      case _ =>
        if i.text.Some? {
          scalar := scalar[(id, i.field) := if i.def.sensitive then Sealed(i.text.value) else PlainText(i.text.value)];
        }
        return true;
    }

    method SaveCustomValues(id: PropertyId, inputs: seq<CustomInput>) returns (ok: bool)
      modifies `scalar, `multi
      ensures ok == SaveAll(schema, old(Current()).values, id, inputs).Some?
      ensures ok ==> Values(scalar, multi) == SaveAll(schema, old(Current()).values, id, inputs).value
    {
      assert inputs[0..] == inputs;
      for k := 0 to |inputs|
        invariant SaveAll(schema, Values(scalar, multi), id, inputs[k..]) ==
                  SaveAll(schema, old(Current()).values, id, inputs)
      {
        assert inputs[k..][1..] == inputs[k + 1..];
        var saved := SaveInput(id, inputs[k]);
        if !saved {
          return false;
        }
      }
      return true;
    }

    // ----- reading values -----

    // What the two queries of ReadCustomValues hand over for one property.
    ghost predicate ScalarsRead(id: PropertyId, scalars: seq<StoredValue>)
      reads this
    {
      && (forall i :: 0 <= i < |scalars| ==>
            && scalars[i].StoredScalar? && scalars[i].field in schema.defs
            && scalars[i].def == schema.defs[scalars[i].field]
            && (id, scalars[i].field) in scalar && scalars[i].value == scalar[(id, scalars[i].field)])
      && (forall f :: f in schema.defs && (id, f) in scalar ==>
           StoredScalar(f, schema.defs[f], scalar[(id, f)]) in scalars)
    }

    ghost predicate GroupsRead(id: PropertyId, groups: seq<StoredValue>)
      reads this
    {
      && (forall i :: 0 <= i < |groups| ==>
            groups[i].StoredChoices? && groups[i].field in MultiFields(Current().values, id) &&
            groups[i].choices == ChoicesOf(Current().values, id, groups[i].field))
      && (forall f :: f in MultiFields(Current().values, id) ==>
            StoredChoices(f, ChoicesOf(Current().values, id, f)) in groups)
    }

    // No field is reported twice.
    static ghost predicate EachOnce(stored: seq<StoredValue>) {
      forall i, j :: 0 <= i < j < |stored| ==> stored[i].field != stored[j].field
    }

    // The scalar rows joined with their definitions, then the choice rows grouped by field.
    method ReadCustomValues(id: PropertyId) returns (scalars: seq<StoredValue>, groups: seq<StoredValue>)
      ensures ScalarsRead(id, scalars) && GroupsRead(id, groups)
      ensures EachOnce(scalars) && EachOnce(groups)
    {
      scalars := ReadScalars(id);
      var all := set t | t in multi && t.0 == id;
      groups := GroupChoices(all);
      assert FieldsIn(all) == MultiFields(Current().values, id);
      forall f | f in MultiFields(Current().values, id)
        ensures StoredChoices(f, ChoicesOf(Current().values, id, f)) in groups
      {
        assert GroupOf(all, f) == ChoicesOf(Current().values, id, f);
      }
      forall i | 0 <= i < |groups|
        ensures groups[i].field in MultiFields(Current().values, id)
        ensures groups[i].choices == ChoicesOf(Current().values, id, groups[i].field)
      {
        assert GroupOf(all, groups[i].field) == ChoicesOf(Current().values, id, groups[i].field);
      }
    }

    static function GroupOf(all: set<(PropertyId, FieldId, ChoiceId)>, f: FieldId): set<ChoiceId> {
      set t | t in all && t.1 == f :: t.2
    }

    static function FieldsIn(all: set<(PropertyId, FieldId, ChoiceId)>): set<FieldId> {
      set t | t in all :: t.1
    }

    // Groups rows by field through an index into what has been collected so far.
    static method GroupChoices(all: set<(PropertyId, FieldId, ChoiceId)>) returns (out: seq<StoredValue>)
      ensures forall i :: 0 <= i < |out| ==>
                out[i].StoredChoices? && out[i].field in FieldsIn(all) && out[i].choices == GroupOf(all, out[i].field)
      ensures forall f :: f in FieldsIn(all) ==> StoredChoices(f, GroupOf(all, f)) in out
      ensures EachOnce(out)
    {
      out := [];
      var left := all;
      ghost var done := {};
      var indexes: map<FieldId, nat> := map[];
      while left != {}
        invariant left !! done && left + done == all
        invariant indexes.Keys == FieldsIn(done)
        invariant forall f :: f in indexes ==>
                    indexes[f] < |out| && out[indexes[f]] == StoredChoices(f, GroupOf(done, f))
        invariant forall i :: 0 <= i < |out| ==>
                    out[i].StoredChoices? && out[i].field in indexes && indexes[out[i].field] == i
      {
        var t :| t in left;
        left := left - {t};
        ghost var before := done;
        done := done + {t};
        GroupGrows(before, t);
        var f := t.1;
        if f in indexes {
          var at := indexes[f];
          out := out[at := StoredChoices(f, out[at].choices + {t.2})];
        } else {
          assert GroupOf(before, f) == {};
          out := out + [StoredChoices(f, {t.2})];
          indexes := indexes[f := |out| - 1];
        }
      }
      assert done == all;
      forall f | f in FieldsIn(all) ensures StoredChoices(f, GroupOf(all, f)) in out {
        assert out[indexes[f]] == StoredChoices(f, GroupOf(all, f));
      }
    }

    static lemma GroupGrows(done: set<(PropertyId, FieldId, ChoiceId)>, t: (PropertyId, FieldId, ChoiceId))
      ensures FieldsIn(done + {t}) == FieldsIn(done) + {t.1}
      ensures GroupOf(done + {t}, t.1) == GroupOf(done, t.1) + {t.2}
      ensures forall f :: f != t.1 ==> GroupOf(done + {t}, f) == GroupOf(done, f)
    {
    }

    method ReadScalars(id: PropertyId) returns (out: seq<StoredValue>)
      ensures forall i :: 0 <= i < |out| ==>
                out[i].StoredScalar? && out[i].field in schema.defs && out[i].def == schema.defs[out[i].field] &&
                (id, out[i].field) in scalar && out[i].value == scalar[(id, out[i].field)]
      ensures forall f :: f in schema.defs && (id, f) in scalar ==>
                StoredScalar(f, schema.defs[f], scalar[(id, f)]) in out
      ensures EachOnce(out)
    {
      out := [];
      var left := scalar.Keys;
      while left != {}
        invariant left <= scalar.Keys
        invariant forall i :: 0 <= i < |out| ==>
                    out[i].StoredScalar? && out[i].field in schema.defs && out[i].def == schema.defs[out[i].field] &&
                    (id, out[i].field) in scalar && out[i].value == scalar[(id, out[i].field)]
        invariant forall f :: f in schema.defs && (id, f) in scalar && (id, f) !in left ==>
                    StoredScalar(f, schema.defs[f], scalar[(id, f)]) in out
        invariant EachOnce(out) && forall i :: 0 <= i < |out| ==> (id, out[i].field) !in left
      {
        var k :| k in left;
        left := left - {k};
        if k.0 == id && k.1 in schema.defs {
          out := out + [StoredScalar(k.1, schema.defs[k.1], scalar[k])];
        }
      }
    }

    // auditCustomValues over what was read: plaintext of sensitive fields on one side,
    // loggable values on the other.
    method AuditCustomValues(id: PropertyId) returns (public: map<FieldId, Json>, secret: map<FieldId, string>)
      ensures public == PublicValues(Current().values, schema.defs, id)
      ensures secret == SecretValues(Current().values, schema.defs, id)
    {
      var scalars, groups := ReadCustomValues(id);
      public := AuditPlain(id, scalars);
      secret := AuditSecret(id, scalars);
      public := AuditGroups(id, public, groups);
    }

    // Choice lists are recorded after, and over, the scalar values.
    method AuditGroups(id: PropertyId, plain: map<FieldId, Json>, groups: seq<StoredValue>)
      returns (public: map<FieldId, Json>)
      requires GroupsRead(id, groups)
      ensures public == plain + map f | f in MultiFields(Current().values, id) ::
                Refs(ChoicesOf(Current().values, id, f))
    {
      public := plain;
      for k := 0 to |groups|
        invariant forall f :: f in public <==> f in plain || f in FieldsOf(groups[..k])
        invariant forall f :: f in FieldsOf(groups[..k]) ==> public[f] == Refs(ChoicesOf(Current().values, id, f))
        invariant forall f :: f in plain && f !in FieldsOf(groups[..k]) ==> public[f] == plain[f]
      {
        FieldsGrow(groups, k);
        public := public[groups[k].field := Refs(groups[k].choices)];
      }
      assert groups[..|groups|] == groups;
      GroupsCover(id, groups);
    }

    lemma GroupsCover(id: PropertyId, groups: seq<StoredValue>)
      requires GroupsRead(id, groups)
      ensures FieldsOf(groups) == MultiFields(Current().values, id)
    {
      forall f ensures f in FieldsOf(groups) <==> f in MultiFields(Current().values, id) {
        if f in MultiFields(Current().values, id) {
          assert StoredChoices(f, ChoicesOf(Current().values, id, f)) in groups;
        }
      }
    }

    static lemma FieldsGrow(stored: seq<StoredValue>, k: nat)
      requires k < |stored|
      ensures FieldsOf(stored[..k + 1]) == FieldsOf(stored[..k]) + {stored[k].field}
    {
      assert stored[..k + 1] == stored[..k] + [stored[k]];
    }

    static function FieldsOf(stored: seq<StoredValue>): set<FieldId> {
      set v | v in stored :: v.field
    }

    method AuditPlain(id: PropertyId, scalars: seq<StoredValue>) returns (public: map<FieldId, Json>)
      requires ScalarsRead(id, scalars)
      ensures public == map f | f in schema.defs && (id, f) in scalar && !schema.defs[f].sensitive ::
                          PublicAuditValue(schema.defs[f].kind, scalar[(id, f)])
    {
      public := map[];
      for k := 0 to |scalars|
        invariant forall i :: 0 <= i < k && !scalars[i].def.sensitive ==> scalars[i].field in public
        invariant forall f :: f in public ==>
                    && f in schema.defs && (id, f) in scalar && !schema.defs[f].sensitive
                    && public[f] == PublicAuditValue(schema.defs[f].kind, scalar[(id, f)])
      {
        var stored := scalars[k];
        if !stored.def.sensitive {
          public := public[stored.field := PublicAuditValue(stored.def.kind, stored.value)];
        }
      }
    }

    method AuditSecret(id: PropertyId, scalars: seq<StoredValue>) returns (secret: map<FieldId, string>)
      requires ScalarsRead(id, scalars)
      ensures secret == SecretValues(Current().values, schema.defs, id)
    {
      secret := map[];
      for k := 0 to |scalars|
        invariant forall i :: 0 <= i < k && scalars[i].def.sensitive && scalars[i].value.Sealed? ==>
                    scalars[i].field in secret
        invariant forall f :: f in secret ==>
                    && f in schema.defs && (id, f) in scalar && schema.defs[f].sensitive && scalar[(id, f)].Sealed?
                    && secret[f] == scalar[(id, f)].secret
      {
        var stored := scalars[k];
        if stored.def.sensitive && stored.value.Sealed? {
          secret := secret[stored.field := stored.value.secret];
        }
      }
    }

    // ----- guarded updates of one row -----

    method UpdateProperty(id: PropertyId, name: string, nameNormalized: string, typeId: LookupId, areaId: LookupId,
                          expectedVersion: int) returns (o: Outcome)
      modifies `rows
      ensures var r := StoreUpdate(old(Current()), id, name, nameNormalized, typeId, areaId, expectedVersion);
              o == OutcomeOf(r) && Current() == After(r, old(Current()))
    {
      if id in rows && rows[id].version == expectedVersion && rows[id].archivedAt == None {
        if !(2 <= |name| <= 120) || typeId !in schema.types || areaId !in schema.areas {
          return Failed(Internal);
        }
        rows := rows[id := rows[id].(name := name, nameNormalized := nameNormalized, typeId := typeId, areaId := areaId,
                                     version := rows[id].version + 1)];
        return Done;
      }
      if id in rows && rows[id].archivedAt != None {
        return Failed(ArchivedConflict);
      }
      return Failed(VersionConflict);
    }

    // Whether the unique index already holds the code for another row.
    method HeldByOther(id: PropertyId, codeNormalized: string) returns (held: bool)
      ensures held == CodeTakenByOther(Current(), id, codeNormalized)
    {
      var left := rows.Keys;
      while left != {}
        invariant left <= rows.Keys
        invariant forall other :: other in rows && other !in left && other != id ==>
                    rows[other].codeNormalized != codeNormalized
      {
        var other :| other in left;
        left := left - {other};
        if other != id && rows[other].codeNormalized == codeNormalized {
          return true;
        }
      }
      return false;
    }

    method UpdateCode(id: PropertyId, code: string, codeNormalized: string, expectedVersion: int)
      returns (o: Outcome, oldCode: string)
      modifies `rows
      ensures var r := StoreChangeCode(old(Current()), id, code, codeNormalized, expectedVersion);
              o == OutcomeOf(r) && Current() == After(r, old(Current()))
      ensures o.Done? ==> id in old(rows) && oldCode == old(rows)[id].code
    {
      oldCode := "";
      if id in rows && rows[id].version == expectedVersion && rows[id].archivedAt == None {
        var held := HeldByOther(id, codeNormalized);
        if held {
          return Failed(DuplicateCode), "";
        }
        oldCode := rows[id].code;
        rows := rows[id := rows[id].(code := code, codeNormalized := codeNormalized, version := rows[id].version + 1)];
        return Done, oldCode;
      }
      if id in rows && rows[id].archivedAt != None {
        return Failed(ArchivedConflict), "";
      }
      return Failed(VersionConflict), "";
    }

    method ArchiveRow(id: PropertyId, expectedVersion: int, note: Option<string>, actor: AccountId, now: int)
      returns (o: Outcome)
      modifies `rows
      ensures var r := StoreArchive(old(Current()), id, expectedVersion, note, actor, now);
              o == OutcomeOf(r) && Current() == After(r, old(Current()))
    {
      if id in rows && rows[id].version == expectedVersion && rows[id].archivedAt == None {
        rows := rows[id := rows[id].(archivedAt := Some(now), archivedBy := Some(actor), note := note,
                                     version := rows[id].version + 1)];
        return Done;
      }
      if id in rows && rows[id].archivedAt != None {
        return Failed(ArchivedConflict);
      }
      return Failed(VersionConflict);
    }

    method RestoreRow(id: PropertyId, expectedVersion: int) returns (o: Outcome)
      modifies `rows
      ensures var r := StoreRestore(old(Current()), id, expectedVersion);
              o == OutcomeOf(r) && Current() == After(r, old(Current()))
    {
      if id in rows && rows[id].version == expectedVersion && rows[id].archivedAt != None {
        rows := rows[id :=
            rows[id].(archivedAt := None, archivedBy := None, note := None, version := rows[id].version + 1)];
        return Done;
      }
      if id in rows && rows[id].archivedAt == None {
        return Failed(ArchivedConflict);
      }
      return Failed(VersionConflict);
    }

    // The audit row of a change goes into the same transaction.
    method WriteAudit(r: Record)
      modifies `log
      ensures log == old(log) + [r]
    {
      log := log + [r];
    }

    // ----- handlers -----

    method BuildInputs(bodies: seq<Body>) returns (ok: bool, inputs: seq<CustomInput>)
      ensures ok == AllAdmissible(schema.defs, bodies)
      ensures ok ==> inputs == InputsOf(schema.defs, bodies)
    {
      inputs := [];
      for k := 0 to |bodies|
        invariant AllAdmissible(schema.defs, bodies[..k])
        invariant inputs == InputsOf(schema.defs, bodies[..k])
      {
        if !BodyAdmissible(schema.defs, bodies[k]) {
          return false, [];
        }
        assert bodies[..k + 1] == bodies[..k] + [bodies[k]];
        InputsOfAppend(schema.defs, bodies[..k], bodies[k]);
        inputs := inputs + [InputOf(schema.defs, bodies[k])];
      }
      assert bodies[..|bodies|] == bodies;
      return true, inputs;
    }

    static lemma {:induction false} InputsOfAppend(defs: map<FieldId, FieldDef>, bodies: seq<Body>, b: Body)
      requires AllAdmissible(defs, bodies) && BodyAdmissible(defs, b)
      ensures AllAdmissible(defs, bodies + [b])
      ensures InputsOf(defs, bodies + [b]) == InputsOf(defs, bodies) + [InputOf(defs, b)]
      decreases |bodies|
    {
      if bodies == [] {
        assert [b][1..] == [];
      } else {
        assert (bodies + [b])[1..] == bodies[1..] + [b];
        InputsOfAppend(defs, bodies[1..], b);
      }
    }

    // Validates and saves the values of a request body.
    method SaveRequestValues(id: PropertyId, bodies: seq<Body>) returns (o: Outcome)
      modifies `scalar, `multi
      ensures o == OutcomeOf(SaveBodies(old(Current()), id, bodies))
      ensures o.Done? ==> Current() == SaveBodies(old(Current()), id, bodies).state
    {
      var ok, inputs := BuildInputs(bodies);
      if !ok {
        return Failed(InvalidRequest);
      }
      var saved := SaveCustomValues(id, inputs);
      return if saved then Done else Failed(Internal);
    }

    method NewPropertyAuditState(id: PropertyId) returns (audit: AuditState)
      requires id in rows
      ensures audit == AuditStateOf(Current(), id)
    {
      var custom, secret := AuditCustomValues(id);
      audit := AuditState(RowAttrs(rows[id]), custom, secret);
    }

    // The record of a modification, from the state read before it and the state now.
    method LogModification(id: PropertyId, prior: AuditState)
      requires id in rows
      modifies `log
      ensures log == old(log) + [Modification(prior, old(Current()), id)]
    {
      var now := NewPropertyAuditState(id);
      var before, after := DiffPropertyAuditStates(prior, now);
      WriteAudit(Record(PropertyModified, rows[id].code, Some(before), Some(after), None));
    }

    // Replaces every value of a property by those of the request; a refused value takes the
    // deletions back.
    method ReplaceValues(id: PropertyId, bodies: seq<Body>) returns (o: Outcome)
      modifies `scalar, `multi
      ensures var cleared := old(Current()).(values := WithoutProperty(old(Current()).values, id));
              && o == OutcomeOf(SaveBodies(cleared, id, bodies))
              && Current() == After(SaveBodies(cleared, id, bodies), old(Current()))
    {
      var savedScalar, savedMulti := scalar, multi;
      ghost var s := Current();
      ghost var cleared := s.(values := WithoutProperty(s.values, id));
      DeleteCustomValues(id);
      o := SaveRequestValues(id, bodies);
      assert o == OutcomeOf(SaveBodies(cleared, id, bodies));
      if !o.Done? {
        scalar, multi := savedScalar, savedMulti;
      }
    }

    static function Modification(prior: AuditState, s: State, id: PropertyId): Record
      requires id in s.rows
    {
      var now := AuditStateOf(s, id);
      Record(PropertyModified, s.rows[id].code,
             Some(DiffPayload(prior, now, prior)), Some(DiffPayload(prior, now, now)), None)
    }

    static lemma ReplacedThenLogged(start: State, s: State, id: PropertyId, bodies: seq<Body>, replaced: Result,
        now: State)
      requires id in start.rows && id in s.rows
      requires replaced == SaveBodies(s.(values := WithoutProperty(s.values, id)), id, bodies)
      requires replaced.Accepted? ==>
                 id in replaced.state.rows &&
                 now == Logged(replaced.state, Modification(AuditStateOf(start, id), replaced.state, id))
      requires replaced.Refused? ==> now == s
      ensures OutcomeOf(ReplaceAndLog(start, s, id, bodies)) == OutcomeOf(replaced)
      ensures After(ReplaceAndLog(start, s, id, bodies), s) == now
    {
    }

    // The same, with the difference logged.
    method ReplaceValuesAndLog(id: PropertyId, prior: AuditState, bodies: seq<Body>, ghost start: State)
      returns (o: Outcome)
      requires id in rows && id in start.rows && prior == AuditStateOf(start, id)
      modifies `scalar, `multi, `log
      ensures o == OutcomeOf(ReplaceAndLog(start, old(Current()), id, bodies))
      ensures Current() == After(ReplaceAndLog(start, old(Current()), id, bodies), old(Current()))
    {
      ghost var s := Current();
      ghost var replaced := SaveBodies(s.(values := WithoutProperty(s.values, id)), id, bodies);
      o := ReplaceValues(id, bodies);
      if o.Done? {
        LogModification(id, prior);
      }
      ReplacedThenLogged(start, s, id, bodies, replaced, Current());
    }

    // The second half, with the row taken back if it fails.
    method ReplaceOrRollBack(id: PropertyId, prior: AuditState, bodies: seq<Body>, savedRows: map<PropertyId, Row>,
        ghost start: State)
      returns (o: Outcome)
      requires id in rows && id in start.rows && prior == AuditStateOf(start, id)
      requires start.rows == savedRows && Current() == start.(rows := rows)
      modifies this
      ensures o == OutcomeOf(ReplaceAndLog(start, old(Current()), id, bodies))
      ensures Current() == After(ReplaceAndLog(start, old(Current()), id, bodies), start)
    {
      o := ReplaceValuesAndLog(id, prior, bodies, start);
      if o.Failed? {
        rows := savedRows;
      }
    }

    static lemma UpdateThenReplace(n: Normaliser, start: State, id: PropertyId, version: int, name: string,
                                   typeId: LookupId, areaId: LookupId, bodies: seq<Body>, updated: Result)
      requires id in start.rows && updated == StoreUpdate(start, id, name, n.canonical(name), typeId, areaId, version)
      ensures updated.Accepted? ==> id in updated.state.rows && updated.state == start.(rows := updated.state.rows)
      ensures UpdateAndLog(n, start, id, version, name, typeId, areaId, bodies) ==
              if updated.Refused? then updated else ReplaceAndLog(start, updated.state, id, bodies)
    {
    }

    method UpdateInTransaction(id: PropertyId, version: int, name: string, typeId: LookupId, areaId: LookupId,
                               bodies: seq<Body>) returns (o: Outcome)
      requires id in rows
      modifies this
      ensures o == OutcomeOf(UpdateAndLog(n, old(Current()), id, version, name, typeId, areaId, bodies))
      ensures Current() ==
                After(UpdateAndLog(n, old(Current()), id, version, name, typeId, areaId, bodies), old(Current()))
    {
      // The prior state is read before the update, or the record would say nothing changed.
      ghost var start := Current();
      var prior := NewPropertyAuditState(id);
      var savedRows := rows;
      ghost var updated := StoreUpdate(start, id, name, n.canonical(name), typeId, areaId, version);
      UpdateThenReplace(n, start, id, version, name, typeId, areaId, bodies, updated);
      o := UpdateProperty(id, name, n.canonical(name), typeId, areaId, version);
      if o.Done? {
        o := ReplaceOrRollBack(id, prior, bodies, savedRows, start);
      }
    }

    method HandleUpdateProperty(id: PropertyId, version: int, rawName: string, typeId: LookupId, areaId: LookupId,
                                bodies: seq<Body>) returns (o: Outcome)
      modifies this
      ensures var r := Modify(n, old(Current()), id, version, rawName, typeId, areaId, bodies);
              o == OutcomeOf(r) && Current() == After(r, old(Current()))
    {
      var name := NormaliseName(WesternDigits(rawName));
      if !(2 <= |name| <= 120) {
        return Failed(InvalidRequest);
      }
      if typeId !in schema.types || areaId !in schema.areas {
        return Failed(InvalidRequest);
      }
      if id !in rows {
        return Failed(NotFound);
      }
      o := UpdateInTransaction(id, version, name, typeId, areaId, bodies);
    }

    method HandleChangePropertyCode(id: PropertyId, version: int, rawCode: string) returns (o: Outcome)
      modifies this
      ensures var r := ChangeCode(n, old(Current()), id, version, rawCode);
              o == OutcomeOf(r) && Current() == After(r, old(Current()))
    {
      var code := Trim(WesternDigits(rawCode));
      if |code| < 1 || |code| > 32 {
        return Failed(InvalidRequest);
      }
      var oldCode;
      o, oldCode := UpdateCode(id, code, n.canonical(code), version);
      if o.Failed? {
        return;
      }
      WriteAudit(Record(PropertyCodeChanged, code, Some(CodePayload(oldCode)), Some(CodePayload(code)), None));
    }

    method HandleArchiveProperty(id: PropertyId, version: int, rawNote: Option<string>, actor: AccountId, now: int)
      returns (o: Outcome)
      modifies this
      ensures var r := Archive(old(Current()), id, version, rawNote, actor, now);
              o == OutcomeOf(r) && Current() == After(r, old(Current()))
    {
      var note := None;
      if rawNote.Some? {
        var trimmed := Trim(rawNote.value);
        if trimmed != "" {
          if |trimmed| > 500 {
            return Failed(InvalidRequest);
          }
          note := Some(trimmed);
        }
      }
      if id !in rows {
        return Failed(NotFound);
      }
      o := ArchiveRow(id, version, note, actor, now);
      if o.Failed? {
        return;
      }
      WriteAudit(Record(PropertyArchived, rows[id].code, Some(ArchivePayload(false, None)),
                        Some(ArchivePayload(true, rows[id].note)), None));
    }

    method HandleRestoreProperty(id: PropertyId, version: int) returns (o: Outcome)
      modifies this
      ensures var r := Restore(old(Current()), id, version);
              o == OutcomeOf(r) && Current() == After(r, old(Current()))
    {
      if id !in rows {
        return Failed(NotFound);
      }
      var previous := rows[id];
      o := RestoreRow(id, version);
      if o.Failed? {
        return;
      }
      WriteAudit(Record(PropertyRestored, rows[id].code, Some(ArchivePayload(true, previous.note)),
                        Some(ArchivePayload(false, None)), None));
    }

    // ----- creation -----

    method CodeExists(codeNormalized: string) returns (found: bool)
      ensures found == CodeTaken(Current(), codeNormalized)
    {
      var left := rows.Keys;
      while left != {}
        invariant left <= rows.Keys
        invariant forall id :: id in rows && id !in left ==> rows[id].codeNormalized != codeNormalized
      {
        var id :| id in left;
        left := left - {id};
        if rows[id].codeNormalized == codeNormalized {
          return true;
        }
      }
      return false;
    }

    // The bounded retry over the numbers the sequence hands out.
    method GenerateCode(draws: seq<Draw>) returns (code: Option<string>)
      ensures code == FirstFreeCode(n, Current(),
                        if |draws| <= MAX_GENERATE_ATTEMPTS then draws else draws[..MAX_GENERATE_ATTEMPTS])
    {
      var drawn := if |draws| <= MAX_GENERATE_ATTEMPTS then draws else draws[..MAX_GENERATE_ATTEMPTS];
      assert drawn[0..] == drawn;
      for attempt := 0 to |drawn|
        invariant FirstFreeCode(n, Current(), drawn) == FirstFreeCode(n, Current(), drawn[attempt..])
      {
        assert drawn[attempt..][1..] == drawn[attempt + 1..];
        var candidate := GeneratedCode(drawn[attempt]);
        var taken := CodeExists(n.canonical(candidate));
        if !taken {
          return Some(candidate);
        }
      }
      return None;
    }

    method HandleCreateProperty(id: PropertyId, supplied: string, draws: seq<Draw>, rawName: string,
                                typeId: LookupId, areaId: LookupId, bodies: seq<Body>) returns (o: Outcome)
      modifies this
      ensures var r := Create(n, old(Current()), id, supplied, draws, rawName, typeId, areaId, bodies);
              o == OutcomeOf(r) && Current() == After(r, old(Current()))
    {
      var name := NormaliseName(WesternDigits(rawName));
      if !(2 <= |name| <= 120) {
        return Failed(InvalidRequest);
      }
      var code;
      if supplied != "" {
        code := Trim(supplied);
        if !(1 <= |code| <= 32) {
          return Failed(InvalidRequest);
        }
        var taken := CodeExists(n.canonical(code));
        if taken {
          return Failed(DuplicateCode);
        }
      } else {
        var generated := GenerateCode(draws);
        if generated.None? {
          return Failed(CodesExhausted);
        }
        code := generated.value;
      }
      if typeId !in schema.types || areaId !in schema.areas {
        return Failed(InvalidRequest);
      }
      if id in rows {
        return Failed(Internal);
      }
      var savedRows, savedScalar, savedMulti := rows, scalar, multi;
      rows := rows[id := Row(code, n.canonical(code), name, n.canonical(name), typeId, areaId, 1, None, None, None)];
      o := SaveRequestValues(id, bodies);
      if o.Failed? {
        rows, scalar, multi := savedRows, savedScalar, savedMulti;
        return;
      }
      WriteAudit(Record(PropertyCreated, code, None, Some(AttrPayload(map[Name := Str(name), Code := Str(code)])),
          None));
    }

    // ----- undo -----

    // The lookup by canonical code; the unique index makes its answer the only one.
    method ResolvePropertyIdByCode(code: string) returns (at: Resolved)
      requires CodesUnique(Current())
      ensures at == ResolveByCode(n, Current(), code)
    {
      if code == "" {
        return Unresolved(Unrestorable);
      }
      var normalized := n.canonical(Trim(code));
      var left := rows.Keys;
      while left != {}
        invariant left <= rows.Keys
        invariant forall id :: id in rows && id !in left ==> rows[id].codeNormalized != normalized
      {
        var id :| id in left;
        left := left - {id};
        if rows[id].codeNormalized == normalized {
          return Resolved(id);
        }
      }
      return Unresolved(NotFound);
    }

    method ResolvePropertyIdForUndo(entity: string) returns (at: Resolved)
      requires CodesUnique(Current())
      ensures at == ResolveEntity(n, Current(), entity)
    {
      if entity != "" && n.parseId(entity).Some? {
        return Resolved(n.parseId(entity).value);
      }
      at := ResolvePropertyIdByCode(entity);
    }

    // The choice ids of a recorded list, in some order.
    static method Listed(ids: set<ChoiceId>) returns (list: seq<ChoiceId>)
      ensures (set c | c in list) == ids
    {
      list := [];
      var left := ids;
      while left != {}
        invariant left <= ids && forall c :: c in list <==> c in ids && c !in left
      {
        var c :| c in left;
        left := left - {c};
        list := list + [c];
      }
    }

    // customValueInputsFromAudit: the recorded values as inputs, in the order the map
    // happens to be walked. `bare` is the value tables the inputs will be saved into.
    method InputsFromAudit(id: PropertyId, custom: map<FieldId, Json>, ghost bare: Values)
      returns (ok: bool, inputs: seq<CustomInput>)
      requires forall t :: t in bare.multi ==> !(t.0 == id && t.1 in custom)
      ensures ok <==> AllRestorable(schema.defs, custom)
      ensures ok ==> Collected(schema, bare, id, custom, inputs)
    {
      inputs := [];
      var left := custom.Keys;
      ghost var done: map<FieldId, Json> := map[];
      assert PutRecorded(bare, id, done) == bare;
      while left != {}
        invariant left <= custom.Keys && done.Keys == custom.Keys - left
        invariant forall f :: f in done ==> done[f] == custom[f] && Restorable(schema.defs, f, custom[f])
        invariant Collected(schema, bare, id, done, inputs)
      {
        var f :| f in left;
        left := left - {f};
        if f !in schema.defs {
          return false, [];
        }
        var j := custom[f];
        if !Restorable(schema.defs, f, j) {
          return false, [];
        }
        if j == Null {
          CollectNull(schema, bare, id, done, inputs, f);
        } else {
          var ids := [];
          if j.Refs? {
            ids := Listed(j.ids);
          }
          CollectValue(schema, bare, id, done, inputs, f, j, ids);
          inputs := inputs + [RecordedInput(f, schema.defs[f], j, ids)];
        }
        done := done[f := j];
      }
      assert done == custom;
      return true, inputs;
    }

    // Deletes the recorded fields and saves their recorded values.
    method RestoreCustomValues(id: PropertyId, custom: map<FieldId, Json>) returns (o: Outcome)
      modifies `scalar, `multi
      ensures var fault := RestoreFault(schema, custom); o == if fault.Some? then Failed(fault.value) else Done
      ensures o.Done? ==> Values(scalar, multi) == RestoreFields(old(Current()).values, id, custom)
    {
      ghost var was := Current().values;
      DeleteCustomValuesForFields(id, custom.Keys);
      ghost var bare := Values(scalar, multi);
      var ok, inputs := InputsFromAudit(id, custom, bare);
      if !ok {
        return Failed(Unrestorable);
      }
      RestoredIsRecorded(was, bare, id, custom);
      var saved := SaveCustomValues(id, inputs);
      o := if saved then Done else Failed(Internal);
    }

    method UndoPropertyModified(k: nat, r: Record) returns (o: Outcome)
      requires CodesUnique(Current())
      modifies this
      ensures o == OutcomeOf(UndoModified(n, old(Current()), k, r))
      ensures Current() == After(UndoModified(n, old(Current()), k, r), old(Current()))
    {
      if r.before == None {
        return Failed(Unrestorable);
      }
      if r.before.value.sensitive != {} {
        return Failed(SensitiveUnrestorable);
      }
      var at := ResolvePropertyIdForUndo(r.entity);
      if at.Unresolved? {
        return Failed(at.reason);
      }
      if at.id !in rows {
        return Failed(NotFound);
      }
      o := UndoModifiedInTransaction(k, r, at.id);
    }

    method UndoModifiedInTransaction(k: nat, r: Record, id: PropertyId) returns (o: Outcome)
      requires r.before.Some? && id in rows
      modifies this
      ensures o == OutcomeOf(UndoModifiedAt(n, old(Current()), k, r, id))
      ensures Current() == After(UndoModifiedAt(n, old(Current()), k, r, id), old(Current()))
    {
      var before, current := r.before.value, rows[id];
      var name, typeId, areaId := current.name, current.typeId, current.areaId;
      if Name in before.attrs {
        name := AsString(before.attrs[Name]);
      }
      if PropertyTypeId in before.attrs {
        if !before.attrs[PropertyTypeId].Ref? {
          return Failed(Unrestorable);
        }
        typeId := before.attrs[PropertyTypeId].id;
      }
      if AreaId in before.attrs {
        if !before.attrs[AreaId].Ref? {
          return Failed(Unrestorable);
        }
        areaId := before.attrs[AreaId].id;
      }
      o := WriteBack(k, r, id, name, typeId, areaId);
    }

    // The row first, then the values, then the record; a failure takes the row back.
    method WriteBack(k: nat, r: Record, id: PropertyId, name: string, typeId: LookupId, areaId: LookupId)
      returns (o: Outcome)
      requires r.before.Some? && id in rows
      modifies this
      ensures var updated :=
                StoreUpdate(old(Current()), id, name, n.canonical(Trim(name)), typeId, areaId, old(rows)[id].version);
              var written :=
                  if updated.Refused? then updated else ValuesWritten(old(Current()), updated.state, k, r, id);
              o == OutcomeOf(written) && Current() == After(written, old(Current()))
    {
      ghost var start := Current();
      var savedRows := rows;
      var code := rows[id].code;
      o := UpdateProperty(id, name, n.canonical(Trim(name)), typeId, areaId, rows[id].version);
      if o.Done? {
        o := WriteValuesAndLog(k, r, id, code, start);
        if o.Failed? {
          rows := savedRows;
          assert Current() == start;
        }
      }
    }

    // The values and the record; a failure takes the values back.
    method WriteValuesAndLog(k: nat, r: Record, id: PropertyId, code: string, ghost start: State) returns (o: Outcome)
      requires r.before.Some? && id in start.rows && code == start.rows[id].code
      requires start.values == Current().values && start.schema == schema
      modifies `scalar, `multi, `log
      ensures o == OutcomeOf(ValuesWritten(start, old(Current()), k, r, id))
      ensures Current() == After(ValuesWritten(start, old(Current()), k, r, id), old(Current()))
    {
      var savedScalar, savedMulti := scalar, multi;
      ghost var s := Current();
      o := RestoreCustomValues(id, r.before.value.custom);
      if o.Done? {
        assert Current() == s.(values := RestoreFields(start.values, id, r.before.value.custom));
        WriteAudit(Reversal(k, code, WithoutSensitive(r.after), WithoutSensitive(r.before)));
      } else {
        scalar, multi := savedScalar, savedMulti;
        assert Current() == s;
      }
    }

    method UndoPropertyArchived(k: nat, r: Record) returns (o: Outcome)
      requires CodesUnique(Current())
      modifies this
      ensures o == OutcomeOf(UndoArchived(n, old(Current()), k, r))
      ensures Current() == After(UndoArchived(n, old(Current()), k, r), old(Current()))
    {
      var at := ResolvePropertyIdForUndo(r.entity);
      if at.Unresolved? {
        return Failed(at.reason);
      }
      if at.id !in rows {
        return Failed(NotFound);
      }
      var current := rows[at.id];
      if current.archivedAt == None {
        return Failed(AlreadyActive);
      }
      o := RestoreRow(at.id, current.version);
      if o.Done? {
        WriteAudit(Reversal(k, current.code, ArchivePayload(true, current.note), ArchivePayload(false, None)));
      }
    }

    method UndoPropertyRestored(k: nat, r: Record, actor: AccountId, now: int) returns (o: Outcome)
      requires CodesUnique(Current())
      modifies this
      ensures o == OutcomeOf(UndoRestored(n, old(Current()), k, r, actor, now))
      ensures Current() == After(UndoRestored(n, old(Current()), k, r, actor, now), old(Current()))
    {
      var at := ResolvePropertyIdForUndo(r.entity);
      if at.Unresolved? {
        return Failed(at.reason);
      }
      if at.id !in rows {
        return Failed(NotFound);
      }
      var current := rows[at.id];
      if current.archivedAt != None {
        return Failed(AlreadyArchived);
      }
      var recorded := "";
      if r.before.Some? && ArchiveNote in r.before.value.attrs {
        recorded := AsString(r.before.value.attrs[ArchiveNote]);
      }
      var note := TrimmedNote(Some(recorded));
      o := ArchiveRow(at.id, current.version, note, actor, now);
      if o.Done? {
        WriteAudit(Reversal(k, current.code, ArchivePayload(false, None), ArchivePayload(true, note)));
      }
    }

    method UndoPropertyCodeChanged(k: nat, r: Record) returns (o: Outcome)
      requires CodesUnique(Current())
      modifies this
      ensures o == OutcomeOf(UndoCodeChanged(n, old(Current()), k, r))
      ensures Current() == After(UndoCodeChanged(n, old(Current()), k, r), old(Current()))
    {
      var oldCode := "";
      if r.before.Some? && Code in r.before.value.attrs {
        oldCode := AsString(r.before.value.attrs[Code]);
      }
      if oldCode == "" {
        return Failed(Unrestorable);
      }
      var at := ResolvePropertyIdByCode(r.entity);
      if at.Unresolved? {
        return Failed(at.reason);
      }
      if at.id !in rows {
        return Failed(NotFound);
      }
      var current := rows[at.id];
      var previous;
      o, previous := UpdateCode(at.id, oldCode, n.canonical(Trim(oldCode)), current.version);
      if o.Done? {
        WriteAudit(Reversal(k, oldCode, CodePayload(current.code), CodePayload(oldCode)));
      }
    }

    // How many record_reverted rows point at record `k`.
    method CountReversalsOf(k: nat) returns (count: nat)
      ensures count == Reversals(log, k) && (count > 0 <==> Undone(Current(), k))
    {
      count := 0;
      assert log[..|log|] == log;
      for i := 0 to |log|
        invariant count == Reversals(log[..i], k)
        invariant count > 0 <==> exists j :: 0 <= j < i && log[j].reverses == Some(k) && log[j].action == RecordReverted
      {
        assert log[..i + 1][..i] == log[..i];
        if log[i].reverses == Some(k) && log[i].action == RecordReverted {
          count := count + 1;
        }
      }
    }

    method HandleUndoAuditRecord(k: nat, actor: AccountId, now: int) returns (o: Outcome)
      requires CodesUnique(Current())
      modifies this
      ensures o == OutcomeOf(Undo(n, old(Current()), k, actor, now))
      ensures Current() == After(Undo(n, old(Current()), k, actor, now), old(Current()))
    {
      if k >= |log| {
        return Failed(NotFound);
      }
      var target := log[k];
      var count := CountReversalsOf(k);
      if count > 0 {
        return Failed(AlreadyUndone);
      }
      if target.reverses != None {
        return Failed(CannotUndoUndo);
      }
      match target.action
      case PropertyModified => o := UndoPropertyModified(k, target);
      case PropertyArchived => o := UndoPropertyArchived(k, target);
      case PropertyRestored => o := UndoPropertyRestored(k, target, actor, now);
      case PropertyCodeChanged => o := UndoPropertyCodeChanged(k, target);
      case _ => o := Failed(Unrestorable);
    }
  }
}
