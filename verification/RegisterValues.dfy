/**
 What the values of a request become: which custom fields of the property hold one after an
 accepted creation or update, and which value that is, in terms of the request alone.
 */
module RegisterValues {
  import opened Basics
  import opened RegisterModel
  import opened RegisterViews

  // ----- what a request says about a field -----

  // The operand a field of this kind takes from an entry, as readers will see it.
  function Operand(kind: FieldKind, b: Body): Option<Json> {
    match kind
    case TextField => if b.text.Some? then Some(Str(b.text.value)) else None
    case Autocomplete => if b.text.Some? then Some(Str(b.text.value)) else None
    case Checkbox => if b.checked.Some? then Some(Flag(b.checked.value)) else None
    case Dropdown => if b.choice.Some? then Some(Ref(b.choice.value)) else None
    case Multiselect => if b.choices != [] then Some(Refs(set c | c in b.choices)) else None
  }

  // An entry without an operand leaves what an earlier one said; a list of choices replaces it.
  function Says(kind: FieldKind, b: Body, before: Option<Json>): Option<Json> {
    if kind == Multiselect || Operand(kind, b).Some? then Operand(kind, b) else before
  }

  function Said(kind: FieldKind, bodies: seq<Body>, f: FieldId, before: Option<Json>): Option<Json>
    decreases |bodies|
  {
    if bodies == [] then before
    else Said(kind, bodies[1..], f, if bodies[0].field == f then Says(kind, bodies[0], before) else before)
  }

  // The same for the text of a sensitive field.
  function Confided(bodies: seq<Body>, f: FieldId, before: Option<string>): Option<string>
    decreases |bodies|
  {
    if bodies == [] then before
    else Confided(bodies[1..], f, if bodies[0].field == f && bodies[0].text.Some? then bodies[0].text else before)
  }

  function SecretAt(v: Values, defs: map<FieldId, FieldDef>, id: PropertyId, f: FieldId): Option<string> {
    if f in SecretValues(v, defs, id) then Some(SecretValues(v, defs, id)[f]) else None
  }

  // ----- one entry -----

  lemma ChoicesPut(v: Values, id: PropertyId, g: FieldId, chosen: set<ChoiceId>, f: FieldId)
    ensures ChoicesOf(PutChoices(v, id, g, chosen), id, f) == if f == g then chosen else ChoicesOf(v, id, f)
  {
    var v' := PutChoices(v, id, g, chosen);
    InMultiFields(v, id, f);
    InMultiFields(v', id, f);
    forall c ensures (id, f, c) in v'.multi <==> if f == g then c in chosen else (id, f, c) in v.multi {
    }
  }

  lemma NoChoicesElsewhere(schema: Schema, v: Values, id: PropertyId, f: FieldId)
    requires ValuesFit(schema, v) && (f !in schema.defs || schema.defs[f].kind != Multiselect)
    ensures ChoicesOf(v, id, f) == {}
  {
    InMultiFields(v, id, f);
  }

  lemma PublicAfterChoices(schema: Schema, v: Values, id: PropertyId, b: Body, f: FieldId, v': Values)
    requires ValuesFit(schema, v) && b.field in schema.defs && schema.defs[b.field].kind == Multiselect
    requires SaveOne(schema, v, id, InputOf(schema.defs, b)) == Some(v')
    requires f in schema.defs && !schema.defs[f].sensitive
    ensures PublicAt(v', schema.defs, id, f) ==
            if b.field == f then Operand(Multiselect, b) else PublicAt(v, schema.defs, id, f)
  {
    var chosen := set c | c in b.choices;
    ChoicesPut(v, id, b.field, chosen, f);
    assert v'.scalar == v.scalar;
    if b.field == f {
      assert (id, f) !in v.scalar;
      assert b.choices != [] ==> b.choices[0] in chosen;
    }
  }

  lemma PublicAfterScalar(schema: Schema, v: Values, id: PropertyId, b: Body, f: FieldId, v': Values)
    requires ValuesFit(schema, v) && b.field in schema.defs && schema.defs[b.field].kind != Multiselect
    requires SaveOne(schema, v, id, InputOf(schema.defs, b)) == Some(v')
    requires f in schema.defs && !schema.defs[f].sensitive
    ensures PublicAt(v', schema.defs, id, f) ==
            if b.field == f then Says(schema.defs[f].kind, b, PublicAt(v, schema.defs, id, f))
            else PublicAt(v, schema.defs, id, f)
  {
    assert v'.multi == v.multi;
    assert ChoicesOf(v', id, f) == ChoicesOf(v, id, f);
    if b.field == f {
      NoChoicesElsewhere(schema, v, id, f);
    }
  }

  lemma PublicAfter(schema: Schema, v: Values, id: PropertyId, b: Body, f: FieldId, v': Values)
    requires ValuesFit(schema, v) && b.field in schema.defs
    requires SaveOne(schema, v, id, InputOf(schema.defs, b)) == Some(v')
    requires f in schema.defs && !schema.defs[f].sensitive
    ensures PublicAt(v', schema.defs, id, f) ==
            if b.field == f then Says(schema.defs[f].kind, b, PublicAt(v, schema.defs, id, f))
            else PublicAt(v, schema.defs, id, f)
  {
    if schema.defs[b.field].kind == Multiselect {
      PublicAfterChoices(schema, v, id, b, f, v');
    } else {
      PublicAfterScalar(schema, v, id, b, f, v');
    }
  }

  lemma SecretAfter(schema: Schema, v: Values, id: PropertyId, b: Body, f: FieldId, v': Values)
    requires ValuesFit(schema, v) && b.field in schema.defs
    requires SaveOne(schema, v, id, InputOf(schema.defs, b)) == Some(v')
    requires f in schema.defs && schema.defs[f].sensitive
    ensures SecretAt(v', schema.defs, id, f) ==
            if b.field == f && b.text.Some? then b.text else SecretAt(v, schema.defs, id, f)
  {
    assert schema.defs[f].kind == TextField;
  }

  // ----- all of them -----

  lemma {:induction false} PublicAfterAll(schema: Schema, v: Values, id: PropertyId, bodies: seq<Body>, f: FieldId,
      v': Values)
    requires ValuesFit(schema, v) && AllAdmissible(schema.defs, bodies)
    requires SaveAll(schema, v, id, InputsOf(schema.defs, bodies)) == Some(v')
    requires f in schema.defs && !schema.defs[f].sensitive
    ensures PublicAt(v', schema.defs, id, f) ==
            Said(schema.defs[f].kind, bodies, f, PublicAt(v, schema.defs, id, f))
    decreases |bodies|
  {
    if bodies != [] {
      var i := InputOf(schema.defs, bodies[0]);
      assert BodyAdmissible(schema.defs, bodies[0]);
      var first := SaveOne(schema, v, id, i).value;
      SaveOneKeeps(schema, v, id, i);
      PublicAfter(schema, v, id, bodies[0], f, first);
      assert InputsOf(schema.defs, bodies)[1..] == InputsOf(schema.defs, bodies[1..]);
      PublicAfterAll(schema, first, id, bodies[1..], f, v');
    }
  }

  lemma {:induction false} SecretAfterAll(schema: Schema, v: Values, id: PropertyId, bodies: seq<Body>, f: FieldId,
      v': Values)
    requires ValuesFit(schema, v) && AllAdmissible(schema.defs, bodies)
    requires SaveAll(schema, v, id, InputsOf(schema.defs, bodies)) == Some(v')
    requires f in schema.defs && schema.defs[f].sensitive
    ensures SecretAt(v', schema.defs, id, f) == Confided(bodies, f, SecretAt(v, schema.defs, id, f))
    decreases |bodies|
  {
    if bodies != [] {
      var i := InputOf(schema.defs, bodies[0]);
      assert BodyAdmissible(schema.defs, bodies[0]);
      var first := SaveOne(schema, v, id, i).value;
      SaveOneKeeps(schema, v, id, i);
      SecretAfter(schema, v, id, bodies[0], f, first);
      assert InputsOf(schema.defs, bodies)[1..] == InputsOf(schema.defs, bodies[1..]);
      SecretAfterAll(schema, first, id, bodies[1..], f, v');
    }
  }

  // ----- the values of a property are those of the request -----

  // The fields that have a value, and their values, are what the entries of the request say;
  // nothing is left of what the property had before.
  ghost predicate ValuesAreOf(schema: Schema, v: Values, id: PropertyId, bodies: seq<Body>) {
    forall f: FieldId :: FieldIsOf(schema, v, id, bodies, f)
  }

  predicate FieldIsOf(schema: Schema, v: Values, id: PropertyId, bodies: seq<Body>, f: FieldId) {
    var public, secret := PublicAt(v, schema.defs, id, f), SecretAt(v, schema.defs, id, f);
    if f !in schema.defs then public.None? && secret.None?
    else if schema.defs[f].sensitive then public.None? && secret == Confided(bodies, f, None)
    else public == Said(schema.defs[f].kind, bodies, f, None) && secret.None?
  }

  // A property that has no values yet, or whose values have been cleared.
  predicate Bare(v: Values, id: PropertyId) {
    && (forall k :: k in v.scalar ==> k.0 != id)
    && (forall t :: t in v.multi ==> t.0 != id)
  }

  lemma BareHasNone(v: Values, defs: map<FieldId, FieldDef>, id: PropertyId, f: FieldId)
    requires Bare(v, id)
    ensures PublicAt(v, defs, id, f).None? && SecretAt(v, defs, id, f).None?
  {
    InMultiFields(v, id, f);
    assert (id, f).0 == id;
  }

  lemma SavedAreOf(schema: Schema, v: Values, id: PropertyId, bodies: seq<Body>, v': Values)
    requires ValuesFit(schema, v) && ValuesFit(schema, v') && Bare(v, id) && AllAdmissible(schema.defs, bodies)
    requires SaveAll(schema, v, id, InputsOf(schema.defs, bodies)) == Some(v')
    ensures ValuesAreOf(schema, v', id, bodies)
  {
    forall f: FieldId ensures FieldIsOf(schema, v', id, bodies, f) {
      BareHasNone(v, schema.defs, id, f);
      if f in schema.defs && schema.defs[f].sensitive {
        SecretAfterAll(schema, v, id, bodies, f, v');
        NoChoicesElsewhere(schema, v', id, f);
      } else if f in schema.defs {
        PublicAfterAll(schema, v, id, bodies, f, v');
      } else {
        NoChoicesElsewhere(schema, v', id, f);
      }
    }
  }

  // ----- read off a request that names each field once -----

  ghost predicate NamesOnce(bodies: seq<Body>) {
    forall i, j :: 0 <= i < j < |bodies| ==> bodies[i].field != bodies[j].field
  }

  lemma {:induction false} SaidByNone(kind: FieldKind, bodies: seq<Body>, f: FieldId, before: Option<Json>,
      secret: Option<string>)
    requires forall i :: 0 <= i < |bodies| ==> bodies[i].field != f
    ensures Said(kind, bodies, f, before) == before && Confided(bodies, f, secret) == secret
    decreases |bodies|
  {
    if bodies != [] {
      SaidByNone(kind, bodies[1..], f, before, secret);
    }
  }

  lemma {:induction false} SaidByOne(kind: FieldKind, bodies: seq<Body>, k: nat)
    requires k < |bodies| && NamesOnce(bodies)
    ensures Said(kind, bodies, bodies[k].field, None) == Operand(kind, bodies[k])
    ensures Confided(bodies, bodies[k].field, None) == bodies[k].text
    decreases |bodies|
  {
    if k > 0 {
      SaidByOne(kind, bodies[1..], k - 1);
    } else {
      var first := if bodies[0].text.Some? then bodies[0].text else None;
      SaidByNone(kind, bodies[1..], bodies[0].field, Says(kind, bodies[0], None), first);
    }
  }

  // Then a field has a value exactly if an entry names it and carries the operand of its
  // kind, and the value is that operand.
  lemma EachFieldIsItsEntry(schema: Schema, v: Values, id: PropertyId, bodies: seq<Body>)
    requires ValuesAreOf(schema, v, id, bodies) && NamesOnce(bodies)
    ensures forall k :: 0 <= k < |bodies| && bodies[k].field in schema.defs ==>
              var f := bodies[k].field;
              if schema.defs[f].sensitive
              then SecretAt(v, schema.defs, id, f) == bodies[k].text
              else PublicAt(v, schema.defs, id, f) == Operand(schema.defs[f].kind, bodies[k])
    ensures forall f: FieldId :: (forall k :: 0 <= k < |bodies| ==> bodies[k].field != f) ==>
              f !in PublicValues(v, schema.defs, id) && f !in SecretValues(v, schema.defs, id)
  {
    forall k | 0 <= k < |bodies| && bodies[k].field in schema.defs
      ensures var f := bodies[k].field;
              if schema.defs[f].sensitive
              then SecretAt(v, schema.defs, id, f) == bodies[k].text
              else PublicAt(v, schema.defs, id, f) == Operand(schema.defs[f].kind, bodies[k])
    {
      assert FieldIsOf(schema, v, id, bodies, bodies[k].field);
      SaidByOne(schema.defs[bodies[k].field].kind, bodies, k);
    }
    forall f: FieldId | forall k :: 0 <= k < |bodies| ==> bodies[k].field != f
      ensures f !in PublicValues(v, schema.defs, id) && f !in SecretValues(v, schema.defs, id)
    {
      assert FieldIsOf(schema, v, id, bodies, f);
      PublicLookup(v, schema.defs, id, f);
      SaidByNone(if f in schema.defs then schema.defs[f].kind else TextField, bodies, f, None, None);
    }
  }

  // ----- when the values of a request can be stored -----

  // The choices an entry's operand refers to exist.
  predicate ChoicesKnown(schema: Schema, b: Body)
    requires b.field in schema.defs
  {
    match schema.defs[b.field].kind
    case Dropdown => b.choice.Some? ==> b.choice.value in schema.choices
    case Multiselect => forall c :: c in b.choices ==> c in schema.choices
    case _ => true
  }

  predicate AllChoicesKnown(schema: Schema, bodies: seq<Body>)
    requires AllAdmissible(schema.defs, bodies)
  {
    forall k :: 0 <= k < |bodies| ==> BodyAdmissible(schema.defs, bodies[k]) && ChoicesKnown(schema, bodies[k])
  }

  lemma {:induction false} SavedExactly(schema: Schema, v: Values, id: PropertyId, bodies: seq<Body>)
    requires AllAdmissible(schema.defs, bodies)
    ensures SaveAll(schema, v, id, InputsOf(schema.defs, bodies)).Some? <==> AllChoicesKnown(schema, bodies)
    decreases |bodies|
  {
    if bodies != [] {
      var i := InputOf(schema.defs, bodies[0]);
      assert BodyAdmissible(schema.defs, bodies[0]);
      assert InputsOf(schema.defs, bodies)[1..] == InputsOf(schema.defs, bodies[1..]);
      var first := SaveOne(schema, v, id, i);
      assert first.Some? <==> ChoicesKnown(schema, bodies[0]);
      AllKnownSplits(schema, bodies);
      if first.Some? {
        SavedExactly(schema, first.value, id, bodies[1..]);
      }
    }
  }

  lemma AllKnownSplits(schema: Schema, bodies: seq<Body>)
    requires bodies != [] && AllAdmissible(schema.defs, bodies)
    ensures BodyAdmissible(schema.defs, bodies[0]) && AllAdmissible(schema.defs, bodies[1..])
    ensures AllChoicesKnown(schema, bodies) <==>
            ChoicesKnown(schema, bodies[0]) && AllChoicesKnown(schema, bodies[1..])
  {
    assert forall k :: 0 < k < |bodies| ==> bodies[k] == bodies[1..][k - 1];
    assert forall k :: 0 <= k < |bodies| ==> BodyAdmissible(schema.defs, bodies[k]);
  }

  // An entry is admissible if its field is known and a text is at most 1024 characters long.
  lemma AdmissibleExactly(defs: map<FieldId, FieldDef>, b: Body)
    ensures BodyAdmissible(defs, b) <==>
            && b.field in defs
            && (defs[b.field].kind == TextField || defs[b.field].kind == Autocomplete ==>
                  b.text.None? || |b.text.value| <= 1024)
  {
  }
}
