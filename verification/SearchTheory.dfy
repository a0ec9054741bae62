/**
 The search compiler preserves meaning: a statement it emits either cannot run - exactly
 when some `includesAll` filter names more than one choice - or selects exactly the
 properties that satisfy every box and every filter.
 */
module SearchTheory {
  import opened Basics
  import opened Text
  import opened Like
  import opened SearchSql
  import opened SearchCompiler
  import R = RegisterModel

  // ----- what a search asks for -----

  ghost predicate HasDocument(t: Tables, p: R.PropertyId, text: string) {
    exists k :: k in t.attachments && t.attachments[k].property == p && BodyHolds(t.attachments[k], text)
  }

  predicate BodyHolds(a: Attachment, text: string) {
    a.bodyNormalized.Some? && a.bodyNormalized.value.Some? && Contains(a.bodyNormalized.value.value, text)
  }

  // A name not yet normalised is matched raw, the typed text being a pattern there.
  predicate NameHolds(t: Tables, normalized: Option<string>, raw: string, text: string, pattern: string) {
    match normalized
    case Some(n) => Contains(n, text)
    case None => Matches(t.lower(raw), pattern)
  }

  predicate CalledLike(t: Tables, a: Attachment, text: string, pattern: string) {
    || NameHolds(t, a.descriptionNormalized, a.description, text, pattern)
    || NameHolds(t, a.filenameNormalized, a.filename, text, pattern)
  }

  ghost predicate HasAttachmentCalled(t: Tables, p: R.PropertyId, text: string, pattern: string) {
    exists k :: k in t.attachments && t.attachments[k].property == p && CalledLike(t, t.attachments[k], text, pattern)
  }

  ghost predicate HasAttachment(t: Tables, p: R.PropertyId) {
    exists k :: k in t.attachments && t.attachments[k].property == p
  }

  ghost predicate TextBoxesHold(t: Tables, fold: Folding, i: Inputs, p: R.PropertyId) {
    && p in t.rows
    && (!i.includeArchived ==> t.rows[p].archivedAt.None?)
    && (Trim(i.q) != "" ==>
          || Contains(t.rows[p].nameNormalized, fold.canonical(Trim(i.q)))
          || Contains(t.rows[p].codeNormalized, fold.canonical(Trim(i.q))))
    && (Trim(i.documentText) != "" ==> HasDocument(t, p, fold.canonical(Trim(i.documentText))))
  }

  ghost predicate AttachmentBoxesHold(t: Tables, fold: Folding, i: Inputs, p: R.PropertyId) {
    && (Trim(i.attachmentName) != "" ==>
          HasAttachmentCalled(t, p, fold.canonical(Trim(i.attachmentName)), Around(fold.lower(Trim(i.attachmentName)))))
    && (Trim(i.hasAttachments) == "yes" ==> HasAttachment(t, p))
    && (Trim(i.hasAttachments) == "no" ==> !HasAttachment(t, p))
  }

  ghost predicate LookupBoxesHold(t: Tables, i: Inputs, p: R.PropertyId) {
    p in t.rows && (i.typeId.Some? ==> t.rows[p].typeId == i.typeId.value) &&
    (i.areaId.Some? ==> t.rows[p].areaId == i.areaId.value)
  }

  // One custom filter, against the property's stored value. A sealed text is never text;
  // a box that was never saved is neither ticked nor unticked.
  predicate FilterHolds(t: Tables, fold: Folding, f: Filter, p: R.PropertyId) {
    var stored := (p, f.field) in t.values.scalar;
    match f.op
    case OpContains =>
      stored && f.text.Some? && t.values.scalar[(p, f.field)].PlainText? &&
      Contains(t.values.scalar[(p, f.field)].text, fold.canonical(f.text.value))
    case OpEquals => stored && f.choice.Some? && t.values.scalar[(p, f.field)] == R.Chosen(f.choice.value)
    case OpIsTrue => stored && t.values.scalar[(p, f.field)] == R.Checked(true)
    case OpIsFalse => stored && t.values.scalar[(p, f.field)] != R.Checked(true)
    case OpIncludesAll => forall c :: c in f.choices ==> (p, f.field, c) in t.values.multi
    case OpOther(_) => false
  }

  ghost predicate Wanted(t: Tables, fold: Folding, i: Inputs, p: R.PropertyId) {
    && TextBoxesHold(t, fold, i, p) && AttachmentBoxesHold(t, fold, i, p) && LookupBoxesHold(t, i, p)
    && AllHold(t, fold, i.filters, p)
  }

  // ----- numbering -----

  // Arguments and placeholders march together, and nothing refers past them.
  ghost predicate Numbered(s: Sql) {
    && s.next == |s.args| + 1
    && (forall c :: c in s.query.where ==> TopParam(c) < s.next && forall a :: a in Aliases(c) ==> a < s.next)
    && (forall j :: j in s.query.joins ==> j.alias < s.next && j.field < s.next)
  }

  // Earlier conditions mean the same with more arguments and another row under a new alias.
  lemma EarlierStable(t: Tables, s: Sql, more: seq<Cell>, x: Scope, y: Scope)
    requires Numbered(s) && x.property == y.property && x.attachment == y.attachment
    requires forall a: nat :: a < s.next ==>
               (a in x.bound <==> a in y.bound) && (a in x.bound ==> x.bound[a] == y.bound[a])
    ensures Witness(t, s.query, s.args, x) <==> Witness(t, s.query, s.args + more, y)
  {
    forall c | c in s.query.where ensures Eval(t, x, s.args, c) == Eval(t, y, s.args + more, c) {
      EvalStable(t, x, y, s.args, more, c);
    }
    forall j | j in s.query.joins ensures JoinHolds(t, x, s.args, j) <==> JoinHolds(t, y, s.args + more, j) {
      assert Param(s.args, j.field) == Param(s.args + more, j.field);
    }
  }

  ghost predicate SelectedBy(t: Tables, s: Sql, p: R.PropertyId) {
    Selected(t, s.query, s.args, p)
  }

  lemma WitnessSelects(t: Tables, s: Sql, p: R.PropertyId, bound: map<nat, R.FieldId>)
    requires p in t.rows && Witness(t, s.query, s.args, Scope(p, bound, None))
    ensures SelectedBy(t, s, p)
  {
  }

  lemma WherePart(t: Tables, q: Query, cond: Cond, args: seq<Cell>, x: Scope)
    ensures Witness(t, q.(where := q.where + [cond]), args, x) <==>
              Witness(t, q, args, x) && Eval(t, x, args, cond) == True
  {
    var q' := q.(where := q.where + [cond]);
    assert forall c :: c in q'.where <==> c in q.where || c == cond;
  }

  lemma JoinPart(t: Tables, q: Query, j: Join, args: seq<Cell>, x: Scope)
    ensures Witness(t, q.(joins := q.joins + [j]), args, x) <==> Witness(t, q, args, x) && JoinHolds(t, x, args, j)
  {
    var q' := q.(joins := q.joins + [j]);
    assert forall k :: k in q'.joins <==> k in q.joins || k == j;
  }

  // A condition on the property alone narrows the selection by exactly itself.
  lemma WhereStep(t: Tables, s: Sql, cond: Cond, more: seq<Cell>, p: R.PropertyId)
    requires Numbered(s) && TopParam(cond) <= |s.args + more| && Aliases(cond) == {}
    ensures var s' := AndWhere(s, cond, more, |more|);
            && Numbered(s')
            && (SelectedBy(t, s', p) <==>
                SelectedBy(t, s, p) && Eval(t, Scope(p, map[], None), s'.args, cond) == True)
  {
    var s' := AndWhere(s, cond, more, |more|);
    var empty := Scope(p, map[], None);
    forall bound: map<nat, R.FieldId>
      ensures Witness(t, s'.query, s'.args, Scope(p, bound, None)) <==>
              Witness(t, s.query, s.args, Scope(p, bound, None)) && Eval(t, empty, s'.args, cond) == True
    {
      var x := Scope(p, bound, None);
      WherePart(t, s.query, cond, s'.args, x);
      EarlierStable(t, s, more, x, x);
      EvalStable(t, x, empty, s'.args, [], cond);
      assert s'.args + [] == s'.args;
    }
  }

  // A join narrows it to the properties that have a value for the field, with the
  // condition holding of that value.
  lemma JoinStep(t: Tables, s: Sql, field: R.FieldId, cond: Cond, more: seq<Cell>, p: R.PropertyId)
    requires Numbered(s) && TopParam(cond) <= |s.args| + 1 + |more| && Aliases(cond) <= {s.next}
    ensures var s' := JoinValue(s, field, cond, more);
            && Numbered(s')
            && (SelectedBy(t, s', p) <==>
                SelectedBy(t, s, p) && (p, field) in t.values.scalar &&
                Eval(t, Scope(p, map[s.next := field], None), s'.args, cond) == True)
  {
    var s' := JoinValue(s, field, cond, more);
    if SelectedBy(t, s', p) {
      var bound: map<nat, R.FieldId> :| Witness(t, s'.query, s'.args, Scope(p, bound, None));
      JoinNarrows(t, s, field, cond, more, p, bound);
    }
    if SelectedBy(t, s, p) && (p, field) in t.values.scalar &&
       Eval(t, Scope(p, map[s.next := field], None), s'.args, cond) == True {
      var bound: map<nat, R.FieldId> :| Witness(t, s.query, s.args, Scope(p, bound, None));
      JoinExtends(t, s, field, cond, more, p, bound);
    }
  }

  lemma JoinNarrows(t: Tables, s: Sql, field: R.FieldId, cond: Cond, more: seq<Cell>, p: R.PropertyId,
      bound: map<nat, R.FieldId>)
    requires Numbered(s) && TopParam(cond) <= |s.args| + 1 + |more| && Aliases(cond) <= {s.next} && p in t.rows
    requires var s' := JoinValue(s, field, cond, more); Witness(t, s'.query, s'.args, Scope(p, bound, None))
    ensures SelectedBy(t, s, p) && (p, field) in t.values.scalar
    ensures Eval(t, Scope(p, map[s.next := field], None), JoinValue(s, field, cond, more).args, cond) == True
  {
    var s' := JoinValue(s, field, cond, more);
    JoinedBefore(t, s, field, cond, more, Scope(p, bound, None));
    WitnessSelects(t, s, p, bound);
    EvalStable(t, Scope(p, bound, None), Scope(p, map[s.next := field], None), s'.args, [], cond);
    assert s'.args + [] == s'.args;
  }

  lemma JoinExtends(t: Tables, s: Sql, field: R.FieldId, cond: Cond, more: seq<Cell>, p: R.PropertyId,
      bound: map<nat, R.FieldId>)
    requires Numbered(s) && TopParam(cond) <= |s.args| + 1 + |more| && Aliases(cond) <= {s.next} && p in t.rows
    requires Witness(t, s.query, s.args, Scope(p, bound, None)) && (p, field) in t.values.scalar
    requires Eval(t, Scope(p, map[s.next := field], None), JoinValue(s, field, cond, more).args, cond) == True
    ensures SelectedBy(t, JoinValue(s, field, cond, more), p)
  {
    var s' := JoinValue(s, field, cond, more);
    var x, y := Scope(p, bound, None), Scope(p, bound[s.next := field], None);
    EarlierStable(t, s, [], x, y);
    EvalStable(t, Scope(p, map[s.next := field], None), y, s'.args, [], cond);
    assert s.args + [] == s.args && s'.args + [] == s'.args;
    JoinedBefore(t, s, field, cond, more, y);
    WitnessSelects(t, s', p, y.bound);
  }

  lemma JoinedBefore(t: Tables, s: Sql, field: R.FieldId, cond: Cond, more: seq<Cell>, y: Scope)
    requires Numbered(s) && y.attachment == None
    ensures var s' := JoinValue(s, field, cond, more);
            Witness(t, s'.query, s'.args, y) <==>
              && Witness(t, s.query, s.args, y) && Eval(t, y, s'.args, cond) == True
              && s.next in y.bound && y.bound[s.next] == field && (y.property, field) in t.values.scalar
  {
    var s' := JoinValue(s, field, cond, more);
    assert s'.args == s.args + ([Id(field)] + more);
    var joined := s.query.(joins := s.query.joins + [Join(s.next, s.next)]);
    WherePart(t, joined, cond, s'.args, y);
    JoinPart(t, s.query, Join(s.next, s.next), s'.args, y);
    EarlierStable(t, s, [Id(field)] + more, y, y);
    assert Param(s'.args, s.next) == Id(field);
  }

  // ----- what each condition means -----

  lemma PatternMeans(fold: Folding, text: string, column: string)
    ensures LikeCells(Text(column), Pattern(fold, text)) == Truth(Contains(column, fold.canonical(text)))
  {
    EscapedSearchIsLiteral(column, fold.canonical(text));
  }

  lemma NameOrCodeMeans(t: Tables, fold: Folding, text: string, idx: nat, args: seq<Cell>, x: Scope)
    requires x.property in t.rows && Param(args, idx) == Pattern(fold, text)
    ensures var row := t.rows[x.property];
            Eval(t, x, args, NameOrCode(idx)) == True <==>
            Contains(row.nameNormalized, fold.canonical(text)) || Contains(row.codeNormalized, fold.canonical(text))
  {
    PatternMeans(fold, text, t.rows[x.property].nameNormalized);
    PatternMeans(fold, text, t.rows[x.property].codeNormalized);
  }

  lemma DocumentHasMeans(t: Tables, fold: Folding, text: string, idx: nat, args: seq<Cell>, x: Scope)
    requires Param(args, idx) == Pattern(fold, text)
    ensures Eval(t, x, args, DocumentHas(idx)) == True <==> HasDocument(t, x.property, fold.canonical(text))
  {
    var inner := And(Not(IsNull(BodyNormalized)), LikeParam(BodyNormalized, idx));
    forall k | k in t.attachments
      ensures InSubquery(t.attachments[k], x.property, true) &&
              Eval(t, x.(attachment := Some(t.attachments[k])), args, inner) == True <==>
              t.attachments[k].property == x.property && BodyHolds(t.attachments[k], fold.canonical(text))
    {
      var a := t.attachments[k];
      if a.bodyNormalized.Some? && a.bodyNormalized.value.Some? {
        PatternMeans(fold, text, a.bodyNormalized.value.value);
      }
    }
  }

  lemma NameCellsMean(t: Tables, fold: Folding, text: string, args: seq<Cell>, idx: nat, x: Scope,
                      normalized: Column, raw: Column, stored: Option<string>, given: string)
    requires CellOf(t, x, normalized) == OptionalText(stored) && CellOf(t, x, raw) == Text(t.lower(given))
    requires Param(args, idx) == Pattern(fold, text) && Param(args, idx + 1) == Text(Around(fold.lower(text)))
    ensures Eval(t, x, args, LikeParam(normalized, idx)) == True ||
            Eval(t, x, args, And(IsNull(normalized), LikeParam(raw, idx + 1))) == True <==>
            NameHolds(t, stored, given, fold.canonical(text), Around(fold.lower(text)))
  {
    if stored.Some? {
      PatternMeans(fold, text, stored.value);
    }
  }

  lemma OneNameMeans(t: Tables, fold: Folding, text: string, args: seq<Cell>, idx: nat, x: Scope, a: Attachment)
    requires x.attachment == Some(a)
    requires Param(args, idx) == Pattern(fold, text) && Param(args, idx + 1) == Text(Around(fold.lower(text)))
    ensures var c, r := fold.canonical(text), Around(fold.lower(text));
            && (Eval(t, x, args, LikeParam(DescriptionNormalized, idx)) == True ||
                Eval(t, x, args, And(IsNull(DescriptionNormalized), LikeParam(LowerDescription, idx + 1))) == True
                <==> NameHolds(t, a.descriptionNormalized, a.description, c, r))
            && (Eval(t, x, args, LikeParam(FilenameNormalized, idx)) == True ||
                Eval(t, x, args, And(IsNull(FilenameNormalized), LikeParam(LowerFilename, idx + 1))) == True
                <==> NameHolds(t, a.filenameNormalized, a.filename, c, r))
  {
    NameCellsMean(t, fold, text, args, idx, x,
                  DescriptionNormalized, LowerDescription, a.descriptionNormalized, a.description);
    NameCellsMean(t, fold, text, args, idx, x, FilenameNormalized, LowerFilename, a.filenameNormalized, a.filename);
  }

  lemma OrMeans(t: Tables, x: Scope, args: seq<Cell>, l: Cond, r: Cond)
    ensures Eval(t, x, args, Or(l, r)) == True <==> Eval(t, x, args, l) == True || Eval(t, x, args, r) == True
  {
  }

  lemma NamedLikeMeans(t: Tables, fold: Folding, text: string, idx: nat, args: seq<Cell>, x: Scope)
    requires Param(args, idx) == Pattern(fold, text) && Param(args, idx + 1) == Text(Around(fold.lower(text)))
    ensures Eval(t, x, args, NamedLike(idx)) == True <==>
            HasAttachmentCalled(t, x.property, fold.canonical(text), Around(fold.lower(text)))
  {
    var n1, n2 := LikeParam(DescriptionNormalized, idx), LikeParam(FilenameNormalized, idx);
    var r1 := And(IsNull(DescriptionNormalized), LikeParam(LowerDescription, idx + 1));
    var r2 := And(IsNull(FilenameNormalized), LikeParam(LowerFilename, idx + 1));
    forall k | k in t.attachments
      ensures Eval(t, x.(attachment := Some(t.attachments[k])), args, Or(Or(n1, n2), Or(r1, r2))) == True <==>
              CalledLike(t, t.attachments[k], fold.canonical(text), Around(fold.lower(text)))
    {
      var y := x.(attachment := Some(t.attachments[k]));
      OneNameMeans(t, fold, text, args, idx, y, t.attachments[k]);
      OrMeans(t, y, args, n1, n2);
      OrMeans(t, y, args, r1, r2);
      OrMeans(t, y, args, Or(n1, n2), Or(r1, r2));
    }
  }

  lemma HasAttachmentMeans(t: Tables, args: seq<Cell>, x: Scope)
    ensures Eval(t, x, args, ExistsAttachment(false, Always)) == Truth(HasAttachment(t, x.property))
  {
  }

  // ----- the built-in boxes -----

  ghost predicate Means(t: Tables, s: Sql, p: R.PropertyId, holds: bool) {
    Numbered(s) && (SelectedBy(t, s, p) <==> holds)
  }

  lemma WhenStep(t: Tables, s: Sql, b: bool, cond: Cond, more: seq<Cell>, p: R.PropertyId, before: bool, holds: bool)
    requires Means(t, s, p, before) && TopParam(cond) <= |s.args + more| && Aliases(cond) == {}
    requires b && before ==> (Eval(t, Scope(p, map[], None), s.args + more, cond) == True <==> holds)
    ensures Means(t, When(b, s, cond, more, |more|), p, before && (b ==> holds))
  {
    WhereStep(t, s, cond, more, p);
  }

  lemma StartMeans(t: Tables, p: R.PropertyId)
    ensures Means(t, Sql(Query([], [Always]), [], 1), p, p in t.rows)
  {
    var s := Sql(Query([], [Always]), [], 1);
    if p in t.rows {
      WitnessSelects(t, s, p, map[]);
    }
  }

  // What the conditions of the text boxes mention.
  lemma ClauseShapes(idx: nat)
    ensures TopParam(NameOrCode(idx)) == idx && Aliases(NameOrCode(idx)) == {}
    ensures TopParam(DocumentHas(idx)) == idx && Aliases(DocumentHas(idx)) == {}
    ensures TopParam(NamedLike(idx)) == idx + 1 && Aliases(NamedLike(idx)) == {}
  {
    DocumentShape(idx);
    NamedShape(idx);
  }

  lemma AndShape(l: Cond, r: Cond)
    ensures TopParam(And(l, r)) == Max(TopParam(l), TopParam(r)) && Aliases(And(l, r)) == Aliases(l) + Aliases(r)
  {
  }

  lemma DocumentShape(idx: nat)
    ensures TopParam(DocumentHas(idx)) == idx && Aliases(DocumentHas(idx)) == {}
  {
    AndShape(Not(IsNull(BodyNormalized)), LikeParam(BodyNormalized, idx));
  }

  lemma OrShape(l: Cond, r: Cond)
    ensures TopParam(Or(l, r)) == Max(TopParam(l), TopParam(r)) && Aliases(Or(l, r)) == Aliases(l) + Aliases(r)
  {
  }

  lemma RawShape(normalized: Column, raw: Column, idx: nat)
    requires normalized in {DescriptionNormalized, FilenameNormalized} && raw in {LowerDescription, LowerFilename}
    ensures var c := And(IsNull(normalized), LikeParam(raw, idx)); TopParam(c) == idx && Aliases(c) == {}
  {
  }

  lemma NamedShape(idx: nat)
    ensures TopParam(NamedLike(idx)) == idx + 1 && Aliases(NamedLike(idx)) == {}
  {
    var l1, l2 := LikeParam(DescriptionNormalized, idx), LikeParam(FilenameNormalized, idx);
    var r1 := And(IsNull(DescriptionNormalized), LikeParam(LowerDescription, idx + 1));
    var r2 := And(IsNull(FilenameNormalized), LikeParam(LowerFilename, idx + 1));
    RawShape(DescriptionNormalized, LowerDescription, idx + 1);
    RawShape(FilenameNormalized, LowerFilename, idx + 1);
    OrShape(l1, l2);
    OrShape(r1, r2);
    OrShape(Or(l1, l2), Or(r1, r2));
  }

  lemma NameOrCodeStep(t: Tables, fold: Folding, text: string, s: Sql, p: R.PropertyId, before: bool)
    requires Means(t, s, p, before) && (before ==> p in t.rows)
    ensures Means(t, When(text != "", s, NameOrCode(s.next), [Pattern(fold, text)], 1), p,
                  before && (text != "" ==>
                    || Contains(t.rows[p].nameNormalized, fold.canonical(text))
                    || Contains(t.rows[p].codeNormalized, fold.canonical(text))))
  {
    ClauseShapes(s.next);
    var h := p in t.rows && (|| Contains(t.rows[p].nameNormalized, fold.canonical(text))
                             || Contains(t.rows[p].codeNormalized, fold.canonical(text)));
    if before {
      NameOrCodeMeans(t, fold, text, s.next, s.args + [Pattern(fold, text)], Scope(p, map[], None));
    }
    WhenStep(t, s, text != "", NameOrCode(s.next), [Pattern(fold, text)], p, before, h);
  }

  lemma DocumentStep(t: Tables, fold: Folding, text: string, s: Sql, p: R.PropertyId, before: bool)
    requires Means(t, s, p, before)
    ensures Means(t, When(text != "", s, DocumentHas(s.next), [Pattern(fold, text)], 1), p,
                  before && (text != "" ==> HasDocument(t, p, fold.canonical(text))))
  {
    ClauseShapes(s.next);
    DocumentHasMeans(t, fold, text, s.next, s.args + [Pattern(fold, text)], Scope(p, map[], None));
    WhenStep(t, s, text != "", DocumentHas(s.next), [Pattern(fold, text)], p, before,
             HasDocument(t, p, fold.canonical(text)));
  }

  lemma ArchivedStep(t: Tables, b: bool, p: R.PropertyId)
    ensures Means(t, When(b, Sql(Query([], [Always]), [], 1), IsNull(ArchivedAt), [], 0), p,
                  p in t.rows && (b ==> t.rows[p].archivedAt.None?))
  {
    StartMeans(t, p);
    WhenStep(t, Sql(Query([], [Always]), [], 1), b, IsNull(ArchivedAt), [], p, p in t.rows,
             p in t.rows && t.rows[p].archivedAt.None?);
  }

  lemma TextClausesMean(t: Tables, fold: Folding, i: Inputs, p: R.PropertyId)
    ensures Means(t, TextClauses(fold, i), p, TextBoxesHold(t, fold, i, p))
  {
    var q := Trim(i.q);
    ArchivedStep(t, !i.includeArchived, p);
    var s1 := When(!i.includeArchived, Sql(Query([], [Always]), [], 1), IsNull(ArchivedAt), [], 0);
    var b1 := p in t.rows && (!i.includeArchived ==> t.rows[p].archivedAt.None?);
    NameOrCodeStep(t, fold, q, s1, p, b1);
    var s2 := When(q != "", s1, NameOrCode(s1.next), [Pattern(fold, q)], 1);
    DocumentStep(t, fold, Trim(i.documentText), s2, p,
                 b1 && (q != "" ==>
                          || Contains(t.rows[p].nameNormalized, fold.canonical(q))
                          || Contains(t.rows[p].codeNormalized, fold.canonical(q))));
  }

  lemma CalledStep(t: Tables, fold: Folding, name: string, s: Sql, p: R.PropertyId, before: bool)
    requires Means(t, s, p, before)
    ensures Means(t,
              When(name != "", s, NamedLike(s.next), [Pattern(fold, name), Text(Around(fold.lower(name)))], 2), p,
              before && (name != "" ==> HasAttachmentCalled(t, p, fold.canonical(name), Around(fold.lower(name)))))
  {
    var more := [Pattern(fold, name), Text(Around(fold.lower(name)))];
    ClauseShapes(s.next);
    assert Param(s.args + more, s.next) == more[0] && Param(s.args + more, s.next + 1) == more[1];
    NamedLikeMeans(t, fold, name, s.next, s.args + more, Scope(p, map[], None));
    WhenStep(t, s, name != "", NamedLike(s.next), more, p, before,
             HasAttachmentCalled(t, p, fold.canonical(name), Around(fold.lower(name))));
  }

  lemma HasStep(t: Tables, b: bool, cond: Cond, s: Sql, p: R.PropertyId, before: bool, holds: bool)
    requires Means(t, s, p, before)
    requires (cond == ExistsAttachment(false, Always) && holds == HasAttachment(t, p)) ||
             (cond == Not(ExistsAttachment(false, Always)) && holds == !HasAttachment(t, p))
    ensures Means(t, When(b, s, cond, [], 0), p, before && (b ==> holds))
  {
    HasAttachmentMeans(t, s.args + [], Scope(p, map[], None));
    WhenStep(t, s, b, cond, [], p, before, holds);
  }

  lemma AttachmentClausesMean(t: Tables, fold: Folding, i: Inputs, s: Sql, p: R.PropertyId, before: bool)
    requires Means(t, s, p, before)
    ensures Means(t, AttachmentClauses(fold, i, s), p, before && AttachmentBoxesHold(t, fold, i, p))
  {
    var name, has := Trim(i.attachmentName), Trim(i.hasAttachments);
    CalledStep(t, fold, name, s, p, before);
    var s1 := When(name != "", s, NamedLike(s.next), [Pattern(fold, name), Text(Around(fold.lower(name)))], 2);
    var b1 := before && (name != "" ==> HasAttachmentCalled(t, p, fold.canonical(name), Around(fold.lower(name))));
    HasStep(t, has == "yes", ExistsAttachment(false, Always), s1, p, b1, HasAttachment(t, p));
    var s2 := When(has == "yes", s1, ExistsAttachment(false, Always), [], 0);
    HasStep(t, has == "no", Not(ExistsAttachment(false, Always)), s2, p,
            b1 && (has == "yes" ==> HasAttachment(t, p)), !HasAttachment(t, p));
  }

  lemma LookupClausesMean(t: Tables, i: Inputs, s: Sql, p: R.PropertyId, before: bool)
    requires Means(t, s, p, before) && (before ==> p in t.rows)
    ensures Means(t, LookupClauses(i, s), p, before && LookupBoxesHold(t, i, p))
  {
    var h1 := p in t.rows && i.typeId.Some? && t.rows[p].typeId == i.typeId.value;
    WhenStep(t, s, i.typeId.Some?, EqParam(TypeId, s.next), [IdOf(i.typeId)], p, before, h1);
    var s1 := When(i.typeId.Some?, s, EqParam(TypeId, s.next), [IdOf(i.typeId)], 1);
    var h2 := p in t.rows && i.areaId.Some? && t.rows[p].areaId == i.areaId.value;
    WhenStep(t, s1, i.areaId.Some?, EqParam(AreaId, s1.next), [IdOf(i.areaId)], p,
        before && (i.typeId.Some? ==> h1), h2);
  }

  // ----- the custom filters -----

  predicate OneChoice(f: Filter) {
    f.op.OpIncludesAll? ==> |f.choices| == 1
  }

  lemma ContainsStep(t: Tables, fold: Folding, s: Sql, f: Filter, p: R.PropertyId, before: bool)
    requires Means(t, s, p, before) && f.op.OpContains? && f.text.Some?
    ensures Means(t, AddFilter(fold, s, f).value, p, before && FilterHolds(t, fold, f, p))
  {
    if (p, f.field) in t.values.scalar && t.values.scalar[(p, f.field)].PlainText? {
      PatternMeans(fold, f.text.value, t.values.scalar[(p, f.field)].text);
    }
    JoinStep(t, s, f.field, LikeParam(TextValue(s.next), s.next + 1), [Pattern(fold, f.text.value)], p);
  }

  lemma EqualsStep(t: Tables, fold: Folding, s: Sql, f: Filter, p: R.PropertyId, before: bool)
    requires Means(t, s, p, before) && f.op.OpEquals? && f.choice.Some?
    ensures Means(t, AddFilter(fold, s, f).value, p, before && FilterHolds(t, fold, f, p))
  {
    JoinStep(t, s, f.field, EqParam(ChoiceId(s.next), s.next + 1), [Id(f.choice.value)], p);
  }

  lemma TickStep(t: Tables, fold: Folding, s: Sql, f: Filter, p: R.PropertyId, before: bool)
    requires Means(t, s, p, before) && f.op.OpIsTrue?
    ensures Means(t, AddFilter(fold, s, f).value, p, before && FilterHolds(t, fold, f, p))
  {
    JoinStep(t, s, f.field, EqFlag(BoolValue(s.next), true), [], p);
  }

  lemma NoTickStep(t: Tables, fold: Folding, s: Sql, f: Filter, p: R.PropertyId, before: bool)
    requires Means(t, s, p, before) && f.op.OpIsFalse?
    ensures Means(t, AddFilter(fold, s, f).value, p, before && FilterHolds(t, fold, f, p))
  {
    JoinStep(t, s, f.field, Or(EqFlag(BoolValue(s.next), false), IsNull(BoolValue(s.next))), [], p);
  }

  lemma ChoiceStep(t: Tables, fold: Folding, s: Sql, f: Filter, p: R.PropertyId, before: bool)
    requires Means(t, s, p, before) && f.op.OpIncludesAll? && |f.choices| == 1
    ensures Means(t, AddFilter(fold, s, f).value, p, before && FilterHolds(t, fold, f, p))
  {
    OneChoiceStep(t, s, f.field, f.choices[0], p);
    assert f.choices == [f.choices[0]];
    OneChoiceAdds(s, f.field, f.choices[0]);
  }

  lemma FilterStep(t: Tables, fold: Folding, s: Sql, f: Filter, p: R.PropertyId, before: bool)
    requires Means(t, s, p, before) && AddFilter(fold, s, f).Some? && OneChoice(f)
    ensures Means(t, AddFilter(fold, s, f).value, p, before && FilterHolds(t, fold, f, p))
  {
    match f.op
    case OpContains => ContainsStep(t, fold, s, f, p, before);
    case OpEquals => EqualsStep(t, fold, s, f, p, before);
    case OpIsTrue => TickStep(t, fold, s, f, p, before);
    case OpIsFalse => NoTickStep(t, fold, s, f, p, before);
    case OpIncludesAll => ChoiceStep(t, fold, s, f, p, before);
  }

  lemma OneChoiceAdds(s: Sql, field: R.FieldId, choice: R.ChoiceId)
    ensures AddChoices(s.(args := s.args + [Id(field)]), [choice]) ==
            AndWhere(s, ExistsChoice(s.next, s.next + 1), [Id(field), Id(choice)], 2)
  {
    var s' := s.(args := s.args + [Id(field)]);
    assert [choice][..0] == [];
    assert AddChoices(s', [choice]) == AndWhere(s', ExistsChoice(s.next, s.next + 1), [Id(choice)], 2);
    assert s.args + [Id(field)] + [Id(choice)] == s.args + [Id(field), Id(choice)];
  }

  lemma OneChoiceStep(t: Tables, s: Sql, field: R.FieldId, choice: R.ChoiceId, p: R.PropertyId)
    requires Numbered(s)
    ensures var s' := AndWhere(s, ExistsChoice(s.next, s.next + 1), [Id(field), Id(choice)], 2);
            Numbered(s') && (SelectedBy(t, s', p) <==> SelectedBy(t, s, p) && (p, field, choice) in t.values.multi)
  {
    var more := [Id(field), Id(choice)];
    WhereStep(t, s, ExistsChoice(s.next, s.next + 1), more, p);
    assert Param(s.args + more, s.next) == Id(field) && Param(s.args + more, s.next + 1) == Id(choice);
    if (p, field, choice) in t.values.multi {
      var m := (p, field, choice);
      assert m in t.values.multi && Equals(Id(m.1), Id(field)) == True;
    }
  }

  ghost predicate AllHold(t: Tables, fold: Folding, filters: seq<Filter>, p: R.PropertyId) {
    forall f :: f in filters ==> FilterHolds(t, fold, f, p)
  }

  lemma AllHoldLast(t: Tables, fold: Folding, filters: seq<Filter>, f: Filter, p: R.PropertyId)
    ensures AllHold(t, fold, filters + [f], p) <==> AllHold(t, fold, filters, p) && FilterHolds(t, fold, f, p)
  {
    assert forall g :: g in filters + [f] <==> g in filters || g == f;
  }

  lemma {:induction false} FiltersMean(t: Tables, fold: Folding, s: Sql, filters: seq<Filter>, p: R.PropertyId,
      before: bool)
    requires Means(t, s, p, before) && AddFilters(fold, s, filters).Some?
    requires EachNamesOne(filters)
    ensures Means(t, AddFilters(fold, s, filters).value, p, before && AllHold(t, fold, filters, p))
  {
    if filters != [] {
      var init, last := filters[..|filters| - 1], filters[|filters| - 1];
      assert filters == init + [last];
      EachNamesOneLast(init, last);
      FiltersMean(t, fold, s, init, p, before);
      FilterStep(t, fold, AddFilters(fold, s, init).value, last, p, before && AllHold(t, fold, init, p));
      AllHoldLast(t, fold, init, last, p);
    }
  }

  // Evaluating the emitted joins and conditions against the emitted arguments selects
  // exactly the wanted properties.
  lemma CompiledSearchMeans(t: Tables, fold: Folding, i: Inputs, p: R.PropertyId)
    requires Compiled(fold, i).Some? && EachNamesOne(i.filters)
    ensures var s := Compiled(fold, i).value;
            Numbered(s) && (Selected(t, s.query, s.args, p) <==> Wanted(t, fold, i, p))
  {
    TextClausesMean(t, fold, i, p);
    var s1 := TextClauses(fold, i);
    AttachmentClausesMean(t, fold, i, s1, p, TextBoxesHold(t, fold, i, p));
    var s2 := AttachmentClauses(fold, i, s1);
    LookupClausesMean(t, i, s2, p, TextBoxesHold(t, fold, i, p) && AttachmentBoxesHold(t, fold, i, p));
    FiltersMean(t, fold, LookupClauses(i, s2), i.filters, p,
                TextBoxesHold(t, fold, i, p) && AttachmentBoxesHold(t, fold, i, p) && LookupBoxesHold(t, i, p));
  }

  // ----- when the statement runs -----

  // The placeholders are 1 up to `next - 1`; `missing` of them have no argument.
  ghost predicate Counted(s: Sql, missing: int) {
    && s.next == |s.args| + 1 + missing && s.next >= 1 && Parameters(s.query) == s.next - 1
    && AliasesDistinct(s.query) && forall j :: j in s.query.joins ==> j.alias < s.next
  }

  lemma WhereCounts(s: Sql, cond: Cond, more: seq<Cell>, used: nat, missing: int)
    requires Counted(s, missing) && TopParam(cond) == if used == 0 then 0 else s.next + used - 1
    ensures Counted(AndWhere(s, cond, more, used), missing + used - |more|)
  {
    WhereGrows(s.query, cond);
  }

  lemma WhereGrows(q: Query, cond: Cond)
    ensures Parameters(q.(where := q.where + [cond])) == Max(Parameters(q), TopParam(cond))
  {
    var where := q.where + [cond];
    assert where[..|where| - 1] == q.where;
    assert TopParams(where) == Max(TopParams(q.where), TopParam(cond));
  }

  lemma JoinGrows(q: Query, j: Join)
    ensures Parameters(q.(joins := q.joins + [j])) == Max(Parameters(q), j.field)
  {
    var joins := q.joins + [j];
    assert joins[..|joins| - 1] == q.joins;
    assert TopJoinParam(joins) == Max(TopJoinParam(q.joins), j.field);
  }

  lemma WhenCounts(b: bool, s: Sql, cond: Cond, more: seq<Cell>)
    requires Counted(s, 0) && TopParam(cond) == if more == [] then 0 else s.next + |more| - 1
    ensures Counted(When(b, s, cond, more, |more|), 0)
  {
    WhereCounts(s, cond, more, |more|, 0);
  }

  lemma JoinCounts(s: Sql, field: R.FieldId, cond: Cond, more: seq<Cell>, missing: int, s': Sql)
    requires Counted(s, missing) && s' == JoinValue(s, field, cond, more)
    requires TopParam(cond) == if more == [] then 0 else s.next + |more|
    ensures Counted(s', missing)
  {
    JoinGrows(s.query, Join(s.next, s.next));
    WhereGrows(s.query.(joins := s.query.joins + [Join(s.next, s.next)]), cond);
    AliasesGrow(s.query, s.next, cond);
  }

  lemma AliasesGrow(q: Query, next: nat, cond: Cond)
    requires AliasesDistinct(q) && forall j :: j in q.joins ==> j.alias < next
    ensures var q' := Query(q.joins + [Join(next, next)], q.where + [cond]);
            AliasesDistinct(q') && forall j :: j in q'.joins ==> j.alias <= next
  {
    assert forall k :: 0 <= k < |q.joins| ==> q.joins[k] in q.joins;
  }

  lemma {:induction false} ChoicesCount(s: Sql, choices: seq<R.ChoiceId>, missing: int, s': Sql)
    requires Counted(s, missing) && s' == AddChoices(s, choices)
    ensures Counted(s', missing + |choices|)
  {
    if choices != [] {
      var init, last := choices[..|choices| - 1], choices[|choices| - 1];
      var before := AddChoices(s, init);
      ChoicesCount(s, init, missing, before);
      ChoiceCounts(before, last, missing + |init|);
    }
  }

  lemma ChoiceCounts(s: Sql, choice: R.ChoiceId, missing: int)
    requires Counted(s, missing)
    ensures Counted(AndWhere(s, ExistsChoice(s.next, s.next + 1), [Id(choice)], 2), missing + 1)
  {
    WhereCounts(s, ExistsChoice(s.next, s.next + 1), [Id(choice)], 2, missing);
  }

  lemma BuiltInsCount(fold: Folding, i: Inputs)
    ensures Counted(BuiltIns(fold, i), 0)
  {
    var q, d, name := Pattern(fold, Trim(i.q)), Pattern(fold, Trim(i.documentText)), Trim(i.attachmentName);
    var s0 := Sql(Query([], [Always]), [], 1);
    assert [Always][..0] == [];
    WhenCounts(!i.includeArchived, s0, IsNull(ArchivedAt), []);
    var s1 := When(!i.includeArchived, s0, IsNull(ArchivedAt), [], 0);
    ClauseShapes(s1.next);
    WhenCounts(Trim(i.q) != "", s1, NameOrCode(s1.next), [q]);
    var s2 := When(Trim(i.q) != "", s1, NameOrCode(s1.next), [q], 1);
    ClauseShapes(s2.next);
    WhenCounts(Trim(i.documentText) != "", s2, DocumentHas(s2.next), [d]);
    var s3 := TextClauses(fold, i);
    AttachmentsCount(fold, i, s3);
    LookupsCount(i, AttachmentClauses(fold, i, s3));
  }

  lemma AttachmentsCount(fold: Folding, i: Inputs, s: Sql)
    requires Counted(s, 0)
    ensures Counted(AttachmentClauses(fold, i, s), 0)
  {
    var name := Trim(i.attachmentName);
    var more := [Pattern(fold, name), Text(Around(fold.lower(name)))];
    ClauseShapes(s.next);
    WhenCounts(name != "", s, NamedLike(s.next), more);
    var s1 := When(name != "", s, NamedLike(s.next), more, 2);
    WhenCounts(Trim(i.hasAttachments) == "yes", s1, ExistsAttachment(false, Always), []);
    var s2 := When(Trim(i.hasAttachments) == "yes", s1, ExistsAttachment(false, Always), [], 0);
    WhenCounts(Trim(i.hasAttachments) == "no", s2, Not(ExistsAttachment(false, Always)), []);
  }

  lemma LookupsCount(i: Inputs, s: Sql)
    requires Counted(s, 0)
    ensures Counted(LookupClauses(i, s), 0)
  {
    WhenCounts(i.typeId.Some?, s, EqParam(TypeId, s.next), [IdOf(i.typeId)]);
    var s1 := When(i.typeId.Some?, s, EqParam(TypeId, s.next), [IdOf(i.typeId)], 1);
    WhenCounts(i.areaId.Some?, s1, EqParam(AreaId, s1.next), [IdOf(i.areaId)]);
  }

  // Two numbers are used up for every choice, but one argument is bound for each choice
  // and one for the field.
  function Missing(f: Filter): int {
    if f.op.OpIncludesAll? then |f.choices| - 1 else 0
  }

  function AllMissing(filters: seq<Filter>): int {
    if filters == [] then 0 else AllMissing(filters[..|filters| - 1]) + Missing(filters[|filters| - 1])
  }

  lemma FilterCounts(fold: Folding, s: Sql, f: Filter, missing: int, s': Sql)
    requires Counted(s, missing) && AddFilter(fold, s, f) == Some(s')
    ensures Counted(s', missing + Missing(f)) && Missing(f) >= 0
  {
    if f.op.OpIncludesAll? {
      FieldBoundCounts(s, f.field, missing);
      ChoicesCount(s.(args := s.args + [Id(f.field)]), f.choices, missing - 1, s');
    } else {
      ValueFilterCounts(fold, s, f, missing, s');
    }
  }

  lemma ValueFilterCounts(fold: Folding, s: Sql, f: Filter, missing: int, s': Sql)
    requires Counted(s, missing) && AddFilter(fold, s, f) == Some(s') && !f.op.OpIncludesAll?
    ensures Counted(s', missing)
  {
    match f.op
    case OpContains =>
      JoinCounts(s, f.field, LikeParam(TextValue(s.next), s.next + 1), [Pattern(fold, f.text.value)], missing, s');
    case OpEquals =>
      JoinCounts(s, f.field, EqParam(ChoiceId(s.next), s.next + 1), [Id(f.choice.value)], missing, s');
    case OpIsTrue =>
      JoinCounts(s, f.field, EqFlag(BoolValue(s.next), true), [], missing, s');
    case OpIsFalse =>
      JoinCounts(s, f.field, Or(EqFlag(BoolValue(s.next), false), IsNull(BoolValue(s.next))), [], missing, s');
  }

  lemma FieldBoundCounts(s: Sql, field: R.FieldId, missing: int)
    requires Counted(s, missing)
    ensures Counted(s.(args := s.args + [Id(field)]), missing - 1)
  {
  }

  lemma {:induction false} FiltersCount(fold: Folding, s: Sql, filters: seq<Filter>)
    requires Counted(s, 0) && AddFilters(fold, s, filters).Some?
    ensures Counted(AddFilters(fold, s, filters).value, AllMissing(filters)) && AllMissing(filters) >= 0
    ensures AllMissing(filters) == 0 <==> EachNamesOne(filters)
  {
    if filters != [] {
      var init, last := filters[..|filters| - 1], filters[|filters| - 1];
      FiltersCount(fold, s, init);
      FilterCounts(fold, AddFilters(fold, s, init).value, last, AllMissing(init), AddFilters(fold, s, filters).value);
      assert filters == init + [last];
      EachNamesOneLast(init, last);
      if OneChoice(last) {
        assert Missing(last) == 0;
      }
    }
  }

  ghost predicate EachNamesOne(filters: seq<Filter>) {
    forall f :: f in filters ==> OneChoice(f)
  }

  lemma EachNamesOneLast(filters: seq<Filter>, last: Filter)
    ensures EachNamesOne(filters + [last]) <==> EachNamesOne(filters) && OneChoice(last)
  {
    assert last in filters + [last];
    assert forall f :: f in filters ==> f in filters + [last];
  }

  // The page query adds LIMIT and OFFSET as the next two placeholders.
  predicate PageRuns(s: Sql) {
    AliasesDistinct(s.query) && |s.args| + 2 == Max(Parameters(s.query), s.next + 1)
  }

  // Both statements run exactly when every `includesAll` filter names one choice only; a
  // search for two choices of one field is an error, whatever the register holds.
  lemma SearchRunsExactly(fold: Folding, i: Inputs)
    requires Compiled(fold, i).Some?
    ensures var s := Compiled(fold, i).value;
            && (Runs(s.query, s.args) <==> EachNamesOne(i.filters))
            && (PageRuns(s) <==> Runs(s.query, s.args))
  {
    BuiltInsCount(fold, i);
    FiltersCount(fold, BuiltIns(fold, i), i.filters);
  }

  // Two choices of one multiselect, and nothing else asked for: compiled, and refused.
  lemma TwoChoicesNeverRun(fold: Folding, field: R.FieldId, a: R.ChoiceId, b: R.ChoiceId)
    ensures var i :=
              Inputs("", None, None, false, "", "", "", 1, 25, [Filter(field, OpIncludesAll, None, None, [a, b])]);
            Compiled(fold, i).Some? && !Runs(Compiled(fold, i).value.query, Compiled(fold, i).value.args)
  {
    var f := Filter(field, OpIncludesAll, None, None, [a, b]);
    var i := Inputs("", None, None, false, "", "", "", 1, 25, [f]);
    assert EachHasOperand([f]) && f in i.filters && !OneChoice(f);
    CompilesExactly(fold, BuiltIns(fold, i), [f]);
    SearchRunsExactly(fold, i);
  }

  // A statement that runs selects exactly what was asked for.
  lemma SearchFindsExactly(t: Tables, fold: Folding, i: Inputs, p: R.PropertyId)
    requires Compiled(fold, i).Some? && Runs(Compiled(fold, i).value.query, Compiled(fold, i).value.args)
    ensures var s := Compiled(fold, i).value;
            Selected(t, s.query, s.args, p) <==> Wanted(t, fold, i, p)
  {
    SearchRunsExactly(fold, i);
    CompiledSearchMeans(t, fold, i, p);
  }

  predicate HasOperand(f: Filter) {
    match f.op
    case OpContains => f.text.Some?
    case OpEquals => f.choice.Some?
    case OpIncludesAll => f.choices != []
    case OpOther(_) => false
    case _ => true
  }

  ghost predicate EachHasOperand(filters: seq<Filter>) {
    forall f :: f in filters ==> HasOperand(f)
  }

  lemma EachHasOperandLast(filters: seq<Filter>, last: Filter)
    ensures EachHasOperand(filters + [last]) <==> EachHasOperand(filters) && HasOperand(last)
  {
    assert last in filters + [last];
    assert forall f :: f in filters ==> f in filters + [last];
  }

  // Of the filters that passed the check, the compiler refuses those that came without
  // their operand, and no others.
  lemma {:induction false} CompilesExactly(fold: Folding, s: Sql, filters: seq<Filter>)
    ensures AddFilters(fold, s, filters).Some? <==> EachHasOperand(filters)
  {
    if filters != [] {
      var init, last := filters[..|filters| - 1], filters[|filters| - 1];
      CompilesExactly(fold, s, init);
      assert filters == init + [last];
      EachHasOperandLast(init, last);
    }
  }

  // ----- what is sealed stays out of reach -----

  predicate SameButSecret(v: R.Scalar, w: R.Scalar) {
    v == w || (v.Sealed? && w.Sealed?)
  }

  // The same tables, but for what the sealed texts say.
  ghost predicate SameButSecrets(t: Tables, t': Tables) {
    && t' == t.(values := t.values.(scalar := t'.values.scalar))
    && t'.values.scalar.Keys == t.values.scalar.Keys
    && forall k :: k in t.values.scalar ==> SameButSecret(t.values.scalar[k], t'.values.scalar[k])
  }

  lemma CellIsBlind(t: Tables, t': Tables, s: Scope, c: Column)
    requires SameButSecrets(t, t')
    ensures CellOf(t, s, c) == CellOf(t', s, c)
  {
    if c.TextValue? || c.BoolValue? || c.ChoiceId? {
      var k := (s.property, if c.alias in s.bound then s.bound[c.alias] else 0);
      assert k in t.values.scalar <==> k in t'.values.scalar;
    }
  }

  lemma {:induction false} EvalIsBlind(t: Tables, t': Tables, s: Scope, args: seq<Cell>, c: Cond)
    requires SameButSecrets(t, t')
    ensures Eval(t, s, args, c) == Eval(t', s, args, c)
    decreases c
  {
    match c
    case IsNull(col) => CellIsBlind(t, t', s, col);
    case LikeParam(col, _) => CellIsBlind(t, t', s, col);
    case EqParam(col, _) => CellIsBlind(t, t', s, col);
    case EqFlag(col, _) => CellIsBlind(t, t', s, col);
    case And(l, r) =>
      EvalIsBlind(t, t', s, args, l);
      EvalIsBlind(t, t', s, args, r);
    case Or(l, r) =>
      EvalIsBlind(t, t', s, args, l);
      EvalIsBlind(t, t', s, args, r);
    case Not(i) => EvalIsBlind(t, t', s, args, i);
    case ExistsAttachment(withText, i) =>
      forall k | k in t.attachments
        ensures Eval(t, s.(attachment := Some(t.attachments[k])), args, i) ==
                Eval(t', s.(attachment := Some(t.attachments[k])), args, i)
      {
        EvalIsBlind(t, t', s.(attachment := Some(t.attachments[k])), args, i);
      }
    case _ =>
  }

  lemma WitnessIsBlind(t: Tables, t': Tables, q: Query, args: seq<Cell>, s: Scope)
    requires SameButSecrets(t, t')
    ensures Witness(t, q, args, s) <==> Witness(t', q, args, s)
  {
    forall c | c in q.where ensures Eval(t, s, args, c) == Eval(t', s, args, c) {
      EvalIsBlind(t, t', s, args, c);
    }
    forall j | j in q.joins ensures JoinHolds(t, s, args, j) <==> JoinHolds(t', s, args, j) {
      var k := (s.property, if j.alias in s.bound then s.bound[j.alias] else 0);
      assert k in t.values.scalar <==> k in t'.values.scalar;
    }
  }

  // No statement of this fragment, compiled or not, selects or leaves out a property on
  // account of what a sealed text says.
  lemma SealedTextIsNotSearched(t: Tables, t': Tables, q: Query, args: seq<Cell>, p: R.PropertyId)
    requires SameButSecrets(t, t')
    ensures Selected(t, q, args, p) <==> Selected(t', q, args, p)
  {
    forall bound: map<nat, R.FieldId>
      ensures Witness(t, q, args, Scope(p, bound, None)) <==> Witness(t', q, args, Scope(p, bound, None))
    {
      WitnessIsBlind(t, t', q, args, Scope(p, bound, None));
    }
  }

  // ----- readings one might not expect -----

  // A search that asks for one thing only.
  function Alone(f: Filter): Inputs {
    Inputs("", None, None, true, "", "", "", 1, 25, [f])
  }

  // What the statement compiled from it selects.
  ghost predicate FoundBy(t: Tables, fold: Folding, f: Filter, p: R.PropertyId) {
    && Compiled(fold, Alone(f)).Some? && Runs(Compiled(fold, Alone(f)).value.query, Compiled(fold, Alone(f)).value.args)
    && SelectedBy(t, Compiled(fold, Alone(f)).value, p)
  }

  lemma FoundExactly(t: Tables, fold: Folding, f: Filter, p: R.PropertyId)
    requires HasOperand(f) && OneChoice(f)
    ensures FoundBy(t, fold, f, p) <==> p in t.rows && FilterHolds(t, fold, f, p)
  {
    assert f in [f] && EachHasOperand([f]) && EachNamesOne([f]);
    CompilesExactly(fold, BuiltIns(fold, Alone(f)), [f]);
    SearchRunsExactly(fold, Alone(f));
    CompiledSearchMeans(t, fold, Alone(f), p);
  }

  // The custom filter of one property for a text field, with its own stored text typed in.
  function Retyped(field: R.FieldId, text: string): Filter {
    Filter(field, OpContains, Some(text), None, [])
  }

  // A text is stored as it was typed and compared with a canonical query: typing the whole
  // stored text finds it exactly if it contains its own canonical form - which, where that
  // is no shorter, means exactly if it is canonical already.
  lemma StoredTextIsFoundExactly(t: Tables, fold: Folding, p: R.PropertyId, field: R.FieldId, text: string)
    requires p in t.rows && (p, field) in t.values.scalar && t.values.scalar[(p, field)] == R.PlainText(text)
    ensures FoundBy(t, fold, Retyped(field, text), p) <==> Contains(text, fold.canonical(text))
    ensures |fold.canonical(text)| >= |text| ==>
              (FoundBy(t, fold, Retyped(field, text), p) <==> fold.canonical(text) == text)
  {
    FoundExactly(t, fold, Retyped(field, text), p);
    if |fold.canonical(text)| >= |text| {
      ContainedInShorter(text, fold.canonical(text));
    }
  }

  // So with any canonical form that folds case, a stored "A" is not found by typing "A".
  lemma AStoredTextIsMissed(t: Tables, fold: Folding, p: R.PropertyId, field: R.FieldId)
    requires fold.canonical("A") == "a"
    requires p in t.rows && (p, field) in t.values.scalar && t.values.scalar[(p, field)] == R.PlainText("A")
    ensures !FoundBy(t, fold, Retyped(field, "A"), p)
  {
    StoredTextIsFoundExactly(t, fold, p, field, "A");
    assert "a"[0] != "A"[0];
  }

  // A property is found by one of `isTrue` and `isFalse` exactly if the box was ever saved
  // on it, and by one of them only.
  lemma TickedOrNotExactly(t: Tables, fold: Folding, p: R.PropertyId, yes: Filter, no: Filter)
    requires p in t.rows && yes.op.OpIsTrue? && no.op.OpIsFalse? && yes.field == no.field
    ensures FoundBy(t, fold, yes, p) || FoundBy(t, fold, no, p) <==> (p, yes.field) in t.values.scalar
    ensures !(FoundBy(t, fold, yes, p) && FoundBy(t, fold, no, p))
  {
    FoundExactly(t, fold, yes, p);
    FoundExactly(t, fold, no, p);
  }

  // An attachment name not yet normalised is searched with the lower-cased text as a
  // pattern: literally, whatever the name is, exactly if nothing in it is a wildcard.
  lemma RawNameIsLiteralExactly(lowered: string)
    ensures (forall t: Tables, raw: string, text: string ::
               NameHolds(t, None, raw, text, Around(lowered)) <==> Contains(t.lower(raw), lowered)) <==> NoWild(lowered)
  {
    TypedSearchIsLiteralExactly(lowered);
    if !NoWild(lowered) {
      var name :| !(Matches(name, Around(lowered)) <==> Contains(name, lowered));
      var t := Tables(map[], R.Values(map[], {}), map[], s => s);
      assert t.lower(name) == name;
      assert !(NameHolds(t, None, name, "", Around(lowered)) <==> Contains(t.lower(name), lowered));
    }
  }

  // A lone percent sign finds every attachment whose name is not yet normalised.
  lemma APercentSignFindsEveryRawName(t: Tables, raw: string, text: string)
    ensures NameHolds(t, None, raw, text, Around("%"))
  {
    var name := t.lower(raw);
    assert Around("%") == "%" + "%%" && "%%" == "%" + "%";
    PercentMatchesAll(name);
    PercentSkips(name, "%");
    assert name[0..] == name;
    PercentSkips(name, "%%");
  }
}
