/**
 Which custom filters a search may carry: the six pairs of an operator and a type of field,
 why any other filter is refused, and that a pair is one of the six exactly if some stored
 value could ever satisfy such a filter. And what each filter and each box finds, in terms of
 what readers of the register see.
 */
module SearchFilters {
  import opened Basics
  import opened Text
  import opened Like
  import opened SearchSql
  import opened SearchCompiler
  import opened SearchTheory
  import R = RegisterModel
  import V = RegisterViews

  lemma FilterAcceptedExactly(defs: map<R.FieldId, R.FieldDef>, f: Filter)
    ensures FilterFault(defs, f) == Some(UnknownField) <==> f.field !in defs
    ensures FilterFault(defs, f) == Some(SensitiveField) <==> f.field in defs && defs[f.field].sensitive
    ensures f.field in defs && !defs[f.field].sensitive ==>
              var accepted := FilterFault(defs, f).None?;
              && (accepted <==>
                    (f.op, defs[f.field].kind) in {
                      (OpContains, R.TextField), (OpContains, R.Autocomplete), (OpEquals, R.Dropdown),
                      (OpIncludesAll, R.Multiselect), (OpIsTrue, R.Checkbox), (OpIsFalse, R.Checkbox)})
              && (!accepted ==> FilterFault(defs, f) == Some(OperatorMismatch))
  {
  }

  // The values one property has for the field are of the field's type.
  ghost predicate FieldFits(schema: R.Schema, v: R.Values, p: R.PropertyId, field: R.FieldId) {
    && ((p, field) in v.scalar ==> R.Fits(schema, field, v.scalar[(p, field)]))
    && forall c :: (p, field, c) in v.multi ==>
         field in schema.defs && schema.defs[field].kind == R.Multiselect && c in schema.choices
  }

  // A filter of that operator on that field, with an operand, is satisfied by such a value.
  ghost predicate Satisfies(defs: map<R.FieldId, R.FieldDef>, fold: Folding, f: Filter, schema: R.Schema, t: Tables,
                            g: Filter)
  {
    && schema.defs == defs && FieldFits(schema, t.values, 0, f.field)
    && g.field == f.field && g.op == f.op && HasOperand(g) && FilterHolds(t, fold, g, 0)
  }

  ghost predicate Satisfiable(defs: map<R.FieldId, R.FieldDef>, fold: Folding, f: Filter) {
    exists schema, t, g :: Satisfies(defs, fold, f, schema, t, g)
  }

  lemma SatisfiedOnlyBySuited(defs: map<R.FieldId, R.FieldDef>, fold: Folding, f: Filter, schema: R.Schema,
                              t: Tables, g: Filter)
    requires f.field in defs && !defs[f.field].sensitive && !f.op.OpIsFalse?
    requires Satisfies(defs, fold, f, schema, t, g)
    ensures FilterFault(defs, f).None?
  {
    if g.op.OpIncludesAll? {
      assert g.choices[0] in g.choices;
      assert (0, f.field, g.choices[0]) in t.values.multi;
    }
  }

  // A value that satisfies a filter of that operator: the text looked for, choice 0, or a tick.
  function Example(fold: Folding, field: R.FieldId, op: Operator): (v: R.Values) {
    match op
    case OpContains => R.Values(map[(0, field) := R.PlainText(fold.canonical(""))], {})
    case OpEquals => R.Values(map[(0, field) := R.Chosen(0)], {})
    case OpIncludesAll => R.Values(map[], {(0, field, 0)})
    case _ => R.Values(map[(0, field) := R.Checked(true)], {})
  }

  lemma ContainsItself(s: string)
    ensures Contains(s, s)
  {
    assert s[0..0 + |s|] == s;
  }

  lemma SuitedIsSatisfied(defs: map<R.FieldId, R.FieldDef>, fold: Folding, f: Filter)
    requires FilterFault(defs, f).None? && !f.op.OpIsFalse?
    ensures Satisfiable(defs, fold, f)
  {
    var schema := R.Schema(defs, {0}, {}, {});
    var t := Tables(map[], Example(fold, f.field, f.op), map[], s => s);
    var g := Filter(f.field, f.op, Some(""), Some(0), [0]);
    ContainsItself(fold.canonical(""));
    assert Satisfies(defs, fold, f, schema, t, g);
  }

  // On a field that is not sensitive, an operator other than `isFalse` is accepted exactly if
  // some value the field can hold satisfies it with some operand.
  lemma AcceptedIfSatisfiable(defs: map<R.FieldId, R.FieldDef>, fold: Folding, f: Filter)
    requires f.field in defs && !defs[f.field].sensitive && !f.op.OpIsFalse?
    ensures FilterFault(defs, f).None? <==> Satisfiable(defs, fold, f)
  {
    if FilterFault(defs, f).None? {
      SuitedIsSatisfied(defs, fold, f);
    }
    if Satisfiable(defs, fold, f) {
      var schema, t, g :| Satisfies(defs, fold, f, schema, t, g);
      SatisfiedOnlyBySuited(defs, fold, f, schema, t, g);
    }
  }

  // `isFalse` would hold of any stored value that is not a tick; the check leaves it to boxes,
  // where it holds exactly of one saved without a tick.
  lemma UntickedExactly(t: Tables, fold: Folding, schema: R.Schema, f: Filter, p: R.PropertyId)
    requires f.op.OpIsFalse? && FilterFault(schema.defs, f).None? && FieldFits(schema, t.values, p, f.field)
    ensures FilterHolds(t, fold, f, p) <==>
            (p, f.field) in t.values.scalar && t.values.scalar[(p, f.field)] == R.Checked(false)
  {
  }

  // ----- what is found -----

  // A filter that was let through looks at the value readers see, and asks of it what the
  // operator says; a property without a value is not found.
  lemma FiltersReadWhatReadersSee(t: Tables, fold: Folding, schema: R.Schema, f: Filter, p: R.PropertyId)
    requires V.ValuesFit(schema, t.values) && FilterFault(schema.defs, f).None? && HasOperand(f)
    ensures var seen := V.PublicAt(t.values, schema.defs, p, f.field);
            FilterHolds(t, fold, f, p) <==>
            && seen.Some?
            && match f.op
               case OpContains => seen.value.Str? && Contains(seen.value.text, fold.canonical(f.text.value))
               case OpEquals => seen.value == R.Ref(f.choice.value)
               case OpIncludesAll => seen.value.Refs? && forall c :: c in f.choices ==> c in seen.value.ids
               case OpIsTrue => seen.value == R.Flag(true)
               case OpIsFalse => seen.value == R.Flag(false)
               case OpOther(_) => false
  {
    V.InMultiFields(t.values, p, f.field);
    if (p, f.field) in t.values.scalar {
      assert R.Fits(schema, f.field, t.values.scalar[(p, f.field)]);
    }
    if f.op.OpIncludesAll? {
      assert f.choices[0] in f.choices;
    }
  }

  // What a search without custom filters finds.
  ghost predicate Found(t: Tables, fold: Folding, i: Inputs, p: R.PropertyId) {
    && Compiled(fold, i).Some? && Runs(Compiled(fold, i).value.query, Compiled(fold, i).value.args)
    && SelectedBy(t, Compiled(fold, i).value, p)
  }

  lemma BoxesFind(t: Tables, fold: Folding, i: Inputs, p: R.PropertyId)
    requires i.filters == []
    ensures Found(t, fold, i, p) <==>
            TextBoxesHold(t, fold, i, p) && AttachmentBoxesHold(t, fold, i, p) && LookupBoxesHold(t, i, p)
  {
    assert EachHasOperand([]) && EachNamesOne([]);
    CompilesExactly(fold, BuiltIns(fold, i), []);
    SearchRunsExactly(fold, i);
    CompiledSearchMeans(t, fold, i, p);
  }

  // All boxes left empty.
  function Blank(includeArchived: bool): Inputs {
    Inputs("", None, None, includeArchived, "", "", "", 1, 25, [])
  }

  // An empty search finds every property that is not archived, or simply every property.
  lemma BlankFinds(t: Tables, fold: Folding, p: R.PropertyId)
    ensures Found(t, fold, Blank(true), p) <==> p in t.rows
    ensures Found(t, fold, Blank(false), p) <==> p in t.rows && t.rows[p].archivedAt.None?
  {
    BoxesFind(t, fold, Blank(true), p);
    BoxesFind(t, fold, Blank(false), p);
  }

  lemma LookupsFind(t: Tables, fold: Folding, p: R.PropertyId, id: R.LookupId)
    ensures Found(t, fold, Blank(true).(typeId := Some(id)), p) <==> p in t.rows && t.rows[p].typeId == id
    ensures Found(t, fold, Blank(true).(areaId := Some(id)), p) <==> p in t.rows && t.rows[p].areaId == id
  {
    BoxesFind(t, fold, Blank(true).(typeId := Some(id)), p);
    BoxesFind(t, fold, Blank(true).(areaId := Some(id)), p);
  }

  lemma FreeTextFinds(t: Tables, fold: Folding, p: R.PropertyId, q: string)
    requires Trim(q) != ""
    ensures Found(t, fold, Blank(true).(q := q), p) <==>
            && p in t.rows
            && (Contains(t.rows[p].nameNormalized, fold.canonical(Trim(q))) ||
                Contains(t.rows[p].codeNormalized, fold.canonical(Trim(q))))
  {
    BoxesFind(t, fold, Blank(true).(q := q), p);
  }

  predicate ReadableTextHas(a: Attachment, p: R.PropertyId, text: string) {
    && a.property == p && a.bodyNormalized.Some? && a.bodyNormalized.value.Some?
    && Contains(a.bodyNormalized.value.value, text)
  }

  lemma DocumentTextFinds(t: Tables, fold: Folding, p: R.PropertyId, text: string)
    requires Trim(text) != ""
    ensures Found(t, fold, Blank(true).(documentText := text), p) <==>
            && p in t.rows
            && exists k :: k in t.attachments && ReadableTextHas(t.attachments[k], p, fold.canonical(Trim(text)))
  {
    BoxesFind(t, fold, Blank(true).(documentText := text), p);
    forall k | k in t.attachments
      ensures t.attachments[k].property == p && BodyHolds(t.attachments[k], fold.canonical(Trim(text))) <==>
              ReadableTextHas(t.attachments[k], p, fold.canonical(Trim(text)))
    {
    }
  }

  // Every property is found by exactly one of "yes" and "no": by "yes" if it has an attachment ...
  lemma YesFinds(t: Tables, fold: Folding, p: R.PropertyId)
    ensures Found(t, fold, Blank(true).(hasAttachments := "yes"), p) <==> p in t.rows && HasAttachment(t, p)
  {
    BoxesFind(t, fold, Blank(true).(hasAttachments := "yes"), p);
    assert Trimmed("yes") && "yes"[0] != "no"[0];
  }

  // ... and by "no" if it has none.
  lemma NoFinds(t: Tables, fold: Folding, p: R.PropertyId)
    ensures Found(t, fold, Blank(true).(hasAttachments := "no"), p) <==> p in t.rows && !HasAttachment(t, p)
  {
    BoxesFind(t, fold, Blank(true).(hasAttachments := "no"), p);
    assert Trimmed("no") && "yes"[0] != "no"[0];
  }
}
