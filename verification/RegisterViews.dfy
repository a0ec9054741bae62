/**
 What a reader of the register sees of a property, what a recorded payload does to
 it, and how the value tables move underneath.
 */
module RegisterViews {
  import opened Basics
  import opened RegisterModel

  // The public state of a property: everything the audit log may speak of.
  datatype View = View(name: string, typeId: LookupId, areaId: LookupId, code: string,
                       archived: bool, note: Option<string>, custom: map<FieldId, Json>)

  function ViewOf(s: State, id: PropertyId): View
    requires id in s.rows
  {
    var row := s.rows[id];
    View(row.name, row.typeId, row.areaId, row.code, row.archivedAt.Some?, row.note,
         PublicValues(s.values, s.schema.defs, id))
  }

  function Views(s: State): map<PropertyId, View> {
    map id | id in s.rows :: ViewOf(s, id)
  }

  // Null removes a key, any other value sets it, and an absent key is left alone.
  function PatchMap<K(==)>(m: map<K, Json>, patch: map<K, Json>): map<K, Json> {
    (m - patch.Keys) + (map k | k in patch && patch[k] != Null :: patch[k])
  }

  function PatchView(v: View, p: Payload): View {
    View(
      if Name in p.attrs then AsString(p.attrs[Name]) else v.name,
      if PropertyTypeId in p.attrs && p.attrs[PropertyTypeId].Ref? then p.attrs[PropertyTypeId].id else v.typeId,
      if AreaId in p.attrs && p.attrs[AreaId].Ref? then p.attrs[AreaId].id else v.areaId,
      if Code in p.attrs then AsString(p.attrs[Code]) else v.code,
      if IsArchived in p.attrs && p.attrs[IsArchived].Flag? then p.attrs[IsArchived].flag else v.archived,
      if ArchiveNote in p.attrs then (if p.attrs[ArchiveNote].Str? then Some(p.attrs[ArchiveNote].text) else None)
        else v.note,
      PatchMap(v.custom, p.custom))
  }

  // ----- the diff is exact -----

  ghost predicate NoNulls<K(!new)>(m: map<K, Json>) {
    forall k :: k in m ==> m[k] != Null
  }

  // Applying either side of the diff to the other state gives that side's state back.
  lemma DiffPatches<K(!new)>(before: map<K, Json>, after: map<K, Json>)
    requires NoNulls(before) && NoNulls(after)
    ensures PatchMap(before, DiffSide(DiffKeys(before, after), after)) == after
    ensures PatchMap(after, DiffSide(DiffKeys(before, after), before)) == before
  {
    var forth := PatchMap(before, DiffSide(DiffKeys(before, after), after));
    var back := PatchMap(after, DiffSide(DiffKeys(before, after), before));
    assert forall k :: k in forth <==> k in after;
    assert forall k :: k in back <==> k in before;
  }

  // Maps that agree key by key are the same map.
  lemma SameMap<K(!new), V>(a: map<K, V>, b: map<K, V>)
    requires forall k :: (k in a <==> k in b) && (k in a ==> a[k] == b[k])
    ensures a == b
  {
  }

  // ----- the value tables -----

  predicate SameElsewhere(v: Values, v': Values, id: PropertyId) {
    && (forall k :: k in v.scalar && k.0 != id ==> k in v'.scalar && v'.scalar[k] == v.scalar[k])
    && (forall k :: k in v'.scalar && k.0 != id ==> k in v.scalar)
    && (forall t :: t in v.multi && t.0 != id ==> t in v'.multi)
    && (forall t :: t in v'.multi && t.0 != id ==> t in v.multi)
  }

  lemma InMultiFields(v: Values, id: PropertyId, f: FieldId)
    ensures f in MultiFields(v, id) <==> exists c :: (id, f, c) in v.multi
    ensures f in MultiFields(v, id) <==> ChoicesOf(v, id, f) != {}
    ensures forall c :: c in ChoicesOf(v, id, f) <==> (id, f, c) in v.multi
  {
    if f in MultiFields(v, id) {
      var t :| t in v.multi && t.0 == id && t.1 == f;
      assert t == (id, f, t.2);
      assert t.2 in ChoicesOf(v, id, f);
    }
    if c :| (id, f, c) in v.multi {
      assert (id, f, c).1 == f;
    }
    forall c ensures c in ChoicesOf(v, id, f) <==> (id, f, c) in v.multi {
      if c in ChoicesOf(v, id, f) {
        var t :| t in v.multi && t.0 == id && t.1 == f && t.2 == c;
        assert t == (id, f, c);
      }
      if (id, f, c) in v.multi {
        assert (id, f, c).2 == c;
      }
    }
  }

  // One public value, read off the tables directly.
  function PublicAt(v: Values, defs: map<FieldId, FieldDef>, id: PropertyId, f: FieldId): Option<Json> {
    if ChoicesOf(v, id, f) != {} then Some(Refs(ChoicesOf(v, id, f)))
    else if f in defs && (id, f) in v.scalar && !defs[f].sensitive
    then Some(PublicAuditValue(defs[f].kind, v.scalar[(id, f)]))
    else None
  }

  lemma PublicLookup(v: Values, defs: map<FieldId, FieldDef>, id: PropertyId, f: FieldId)
    ensures f in PublicValues(v, defs, id) <==> PublicAt(v, defs, id, f).Some?
    ensures f in PublicValues(v, defs, id) ==> PublicValues(v, defs, id)[f] == PublicAt(v, defs, id, f).value
  {
    InMultiFields(v, id, f);
  }

  lemma PublicElsewhereAt(v: Values, v': Values, defs: map<FieldId, FieldDef>, id: PropertyId, other: PropertyId,
      f: FieldId)
    requires SameElsewhere(v, v', id) && other != id
    ensures PublicAt(v', defs, other, f) == PublicAt(v, defs, other, f)
  {
    InMultiFields(v, other, f);
    InMultiFields(v', other, f);
    assert ChoicesOf(v', other, f) == ChoicesOf(v, other, f);
    assert (other, f).0 == other;
  }

  lemma SecretElsewhere(v: Values, v': Values, defs: map<FieldId, FieldDef>, id: PropertyId, other: PropertyId)
    requires SameElsewhere(v, v', id) && other != id
    ensures SecretValues(v', defs, other) == SecretValues(v, defs, other)
  {
    forall f: FieldId ensures (other, f) in v'.scalar <==> (other, f) in v.scalar {
      assert (other, f).0 == other;
    }
  }

  lemma PublicElsewhere(v: Values, v': Values, defs: map<FieldId, FieldDef>, id: PropertyId, other: PropertyId)
    requires SameElsewhere(v, v', id) && other != id
    ensures PublicValues(v', defs, other) == PublicValues(v, defs, other)
    ensures SecretValues(v', defs, other) == SecretValues(v, defs, other)
  {
    SecretElsewhere(v, v', defs, id, other);
    forall f: FieldId ensures PublicAt(v', defs, other, f) == PublicAt(v, defs, other, f) {
      PublicElsewhereAt(v, v', defs, id, other, f);
    }
    SamePublic(v, v', defs, defs, other);
  }

  // Equal public values field by field are equal.
  lemma SamePublic(v: Values, v': Values, defs: map<FieldId, FieldDef>, defs': map<FieldId, FieldDef>, id: PropertyId)
    requires forall f: FieldId :: PublicAt(v', defs', id, f) == PublicAt(v, defs, id, f)
    ensures PublicValues(v', defs', id) == PublicValues(v, defs, id)
  {
    var was, now := PublicValues(v, defs, id), PublicValues(v', defs', id);
    forall f: FieldId ensures (f in now <==> f in was) && (f in now ==> now[f] == was[f]) {
      PublicLookup(v, defs, id, f);
      PublicLookup(v', defs', id, f);
    }
    SameMap(now, was);
  }

  predicate InputFits(schema: Schema, i: CustomInput) {
    i.field in schema.defs && i.def == schema.defs[i.field]
  }

  predicate ValuesFit(schema: Schema, v: Values) {
    && (forall f :: f in schema.defs && schema.defs[f].sensitive ==> schema.defs[f].kind == TextField)
    && (forall k :: k in v.scalar ==> Fits(schema, k.1, v.scalar[k]))
    && (forall t :: t in v.multi ==>
          t.1 in schema.defs && schema.defs[t.1].kind == Multiselect && t.2 in schema.choices)
  }

  lemma SaveOneKeeps(schema: Schema, v: Values, id: PropertyId, i: CustomInput)
    requires ValuesFit(schema, v) && InputFits(schema, i) && SaveOne(schema, v, id, i).Some?
    ensures ValuesFit(schema, SaveOne(schema, v, id, i).value)
    ensures SameElsewhere(v, SaveOne(schema, v, id, i).value, id)
  {
  }

  lemma {:induction false} SaveAllKeeps(schema: Schema, v: Values, id: PropertyId, inputs: seq<CustomInput>)
    requires ValuesFit(schema, v) && SaveAll(schema, v, id, inputs).Some?
    requires forall i :: 0 <= i < |inputs| ==> InputFits(schema, inputs[i])
    ensures ValuesFit(schema, SaveAll(schema, v, id, inputs).value)
    ensures SameElsewhere(v, SaveAll(schema, v, id, inputs).value, id)
    decreases |inputs|
  {
    if inputs != [] {
      var first := SaveOne(schema, v, id, inputs[0]).value;
      SaveOneKeeps(schema, v, id, inputs[0]);
      SaveAllKeeps(schema, first, id, inputs[1..]);
      var last := SaveAll(schema, first, id, inputs[1..]).value;
      assert last == SaveAll(schema, v, id, inputs).value;
      assert SameElsewhere(v, last, id);
    }
  }

  lemma {:induction false} InputsFit(schema: Schema, bodies: seq<Body>)
    requires AllAdmissible(schema.defs, bodies)
    ensures forall i :: 0 <= i < |bodies| ==> InputFits(schema, InputsOf(schema.defs, bodies)[i])
    decreases |bodies|
  {
    if bodies != [] {
      InputsFit(schema, bodies[1..]);
    }
  }

  // A public value is never null and never an empty choice list, so a recorded null
  // can only mean "no value".
  lemma PublicShape(schema: Schema, v: Values, id: PropertyId)
    requires ValuesFit(schema, v)
    ensures NoNulls(PublicValues(v, schema.defs, id))
    ensures forall f :: f in PublicValues(v, schema.defs, id) ==>
              f in schema.defs && !schema.defs[f].sensitive &&
              PublicValues(v, schema.defs, id)[f] != Refs({}) &&
              Restorable(schema.defs, f, PublicValues(v, schema.defs, id)[f]) &&
              ChoicesExist(schema, PublicValues(v, schema.defs, id)[f])
  {
    var public := PublicValues(v, schema.defs, id);
    forall f | f in public
      ensures public[f] != Null && public[f] != Refs({}) && f in schema.defs && !schema.defs[f].sensitive
      ensures Restorable(schema.defs, f, public[f]) && ChoicesExist(schema, public[f])
    {
      InMultiFields(v, id, f);
      if f in MultiFields(v, id) {
        var c :| (id, f, c) in v.multi;
        assert schema.defs[f].kind == Multiselect;
        forall c | c in ChoicesOf(v, id, f) ensures c in schema.choices {
          assert (id, f, c) in v.multi;
        }
      } else {
        assert (id, f) in v.scalar && Fits(schema, f, v.scalar[(id, f)]);
      }
    }
  }

  // ----- writing recorded values back -----

  ghost predicate PatchFits(schema: Schema, custom: map<FieldId, Json>) {
    forall f :: f in custom ==>
      Restorable(schema.defs, f, custom[f]) && ChoicesExist(schema, custom[f]) &&
      custom[f] != Refs({}) && !schema.defs[f].sensitive
  }

  lemma RestoredScalar(v: Values, id: PropertyId, custom: map<FieldId, Json>, p: PropertyId, f: FieldId)
    ensures var r := RestoreFields(v, id, custom);
            if p == id && f in custom then
              && ((p, f) in r.scalar <==> custom[f].Str? || custom[f].Flag? || custom[f].Ref?)
              && ((p, f) in r.scalar ==> r.scalar[(p, f)] == ScalarOf(custom[f]))
            else
              && ((p, f) in r.scalar <==> (p, f) in v.scalar)
              && ((p, f) in r.scalar ==> r.scalar[(p, f)] == v.scalar[(p, f)])
  {
  }

  lemma RestoredMulti(v: Values, id: PropertyId, custom: map<FieldId, Json>, p: PropertyId, f: FieldId, c: ChoiceId)
    ensures (p, f, c) in RestoreFields(v, id, custom).multi <==>
            if p == id && f in custom then custom[f].Refs? && c in custom[f].ids else (p, f, c) in v.multi
  {
    if p == id && f in custom && custom[f].Refs? && c in custom[f].ids {
      assert (id, f, c) in RestoreFields(v, id, custom).multi;
    }
  }

  lemma RestoreFieldsKeeps(schema: Schema, v: Values, id: PropertyId, custom: map<FieldId, Json>)
    requires ValuesFit(schema, v) && PatchFits(schema, custom)
    ensures ValuesFit(schema, RestoreFields(v, id, custom))
    ensures SameElsewhere(v, RestoreFields(v, id, custom), id)
  {
    var r := RestoreFields(v, id, custom);
    forall k: (PropertyId, FieldId)
      ensures k in r.scalar ==> Fits(schema, k.1, r.scalar[k])
      ensures k.0 != id ==> (k in r.scalar <==> k in v.scalar)
      ensures k.0 != id && k in v.scalar ==> r.scalar[k] == v.scalar[k]
    {
      RestoredScalar(v, id, custom, k.0, k.1);
    }
    forall t: (PropertyId, FieldId, ChoiceId)
      ensures t in r.multi ==>
                t.1 in schema.defs && schema.defs[t.1].kind == Multiselect && t.2 in schema.choices
      ensures t.0 != id ==> (t in r.multi <==> t in v.multi)
    {
      RestoredMulti(v, id, custom, t.0, t.1, t.2);
    }
  }

  lemma RestoredChoices(v: Values, id: PropertyId, custom: map<FieldId, Json>, f: FieldId)
    ensures ChoicesOf(RestoreFields(v, id, custom), id, f) ==
            if f !in custom then ChoicesOf(v, id, f) else if custom[f].Refs? then custom[f].ids else {}
  {
    var r := RestoreFields(v, id, custom);
    InMultiFields(r, id, f);
    InMultiFields(v, id, f);
    forall c {
      RestoredMulti(v, id, custom, id, f, c);
    }
  }

  lemma PatchLookup<K(!new)>(m: map<K, Json>, patch: map<K, Json>, k: K)
    ensures k in PatchMap(m, patch) <==> if k in patch then patch[k] != Null else k in m
    ensures k in PatchMap(m, patch) ==> PatchMap(m, patch)[k] == if k in patch then patch[k] else m[k]
  {
  }

  lemma RestoredPublicAt(schema: Schema, v: Values, id: PropertyId, custom: map<FieldId, Json>, f: FieldId)
    requires ValuesFit(schema, v) && PatchFits(schema, custom)
    ensures PublicAt(RestoreFields(v, id, custom), schema.defs, id, f) ==
            if f !in custom then PublicAt(v, schema.defs, id, f)
            else if custom[f] == Null then None else Some(custom[f])
  {
    RestoredChoices(v, id, custom, f);
    RestoredScalar(v, id, custom, id, f);
    if f in custom {
      assert Restorable(schema.defs, f, custom[f]);
    }
  }

  lemma RestoredLookup(schema: Schema, v: Values, id: PropertyId, custom: map<FieldId, Json>, f: FieldId,
                       was: map<FieldId, Json>, now: map<FieldId, Json>)
    requires ValuesFit(schema, v) && PatchFits(schema, custom)
    requires was == PublicValues(v, schema.defs, id)
    requires now == PublicValues(RestoreFields(v, id, custom), schema.defs, id)
    ensures f in now <==> f in PatchMap(was, custom)
    ensures f in now ==> now[f] == PatchMap(was, custom)[f]
  {
    RestoredPublicAt(schema, v, id, custom, f);
    PublicLookup(RestoreFields(v, id, custom), schema.defs, id, f);
    PublicLookup(v, schema.defs, id, f);
    PatchLookup(was, custom, f);
  }

  // Deleting the recorded fields and saving their recorded values patches the public
  // values: set where a value was recorded, gone where null was, untouched elsewhere.
  lemma RestoreFieldsPatches(schema: Schema, v: Values, id: PropertyId, custom: map<FieldId, Json>)
    requires ValuesFit(schema, v) && PatchFits(schema, custom)
    ensures PublicValues(RestoreFields(v, id, custom), schema.defs, id) ==
            PatchMap(PublicValues(v, schema.defs, id), custom)
  {
    var was, now := PublicValues(v, schema.defs, id), PublicValues(RestoreFields(v, id, custom), schema.defs, id);
    forall f: FieldId
      ensures (f in now <==> f in PatchMap(was, custom)) && (f in now ==> now[f] == PatchMap(was, custom)[f])
    {
      RestoredLookup(schema, v, id, custom, f, was, now);
    }
    SameMap(now, PatchMap(was, custom));
  }

  // The sensitive values of every property stay what they were.
  lemma RestoreFieldsKeepsSecrets(schema: Schema, v: Values, id: PropertyId, custom: map<FieldId, Json>, p: PropertyId)
    requires PatchFits(schema, custom)
    ensures SecretValues(RestoreFields(v, id, custom), schema.defs, p) == SecretValues(v, schema.defs, p)
  {
    var r := RestoreFields(v, id, custom);
    var was, now := SecretValues(v, schema.defs, p), SecretValues(r, schema.defs, p);
    forall f ensures (f in now <==> f in was) && (f in now ==> now[f] == was[f]) {
      RestoredScalar(v, id, custom, p, f);
    }
  }
}
