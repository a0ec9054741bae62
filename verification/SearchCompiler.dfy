/**
 The advanced search: filters checked against the definitions, then compiled clause by
 clause into a statement, its arguments and the next free placeholder number.
 */
module SearchCompiler {
  import opened Basics
  import opened Text
  import opened Like
  import opened SearchSql
  import R = RegisterModel

  // ----- the inputs -----

  datatype Operator = OpContains | OpEquals | OpIncludesAll | OpIsTrue | OpIsFalse | OpOther(name: string)

  datatype Filter = Filter(
    field: R.FieldId,
    op: Operator,
    text: Option<string>,
    choice: Option<R.ChoiceId>,
    choices: seq<R.ChoiceId>)

  datatype Inputs = Inputs(
    q: string,
    typeId: Option<R.LookupId>,
    areaId: Option<R.LookupId>,
    includeArchived: bool,
    documentText: string,
    attachmentName: string,
    hasAttachments: string,
    page: int,
    pageSize: int,
    filters: seq<Filter>)

  // The canonical form of free text and the program's own lower-casing.
  datatype Folding = Folding(canonical: string -> string, lower: string -> string)

  datatype SearchError = UnknownField | SensitiveField | OperatorMismatch

  // ----- checking the filters -----

  predicate Suits(op: Operator, kind: R.FieldKind) {
    match op
    case OpContains => kind.TextField? || kind.Autocomplete?
    case OpEquals => kind.Dropdown?
    case OpIncludesAll => kind.Multiselect?
    case OpIsTrue => kind.Checkbox?
    case OpIsFalse => kind.Checkbox?
    case OpOther(_) => false
  }

  function FilterFault(defs: map<R.FieldId, R.FieldDef>, f: Filter): Option<SearchError> {
    if f.field !in defs then Some(UnknownField)
    else if defs[f.field].sensitive then Some(SensitiveField)
    else if !Suits(f.op, defs[f.field].kind) then Some(OperatorMismatch)
    else None
  }

  // The first filter at fault decides the error.
  method BuildSearchInputs(defs: map<R.FieldId, R.FieldDef>, filters: seq<Filter>)
    returns (error: Option<SearchError>, fields: map<R.FieldId, R.FieldDef>)
    ensures error.None? <==> forall f :: f in filters ==> FilterFault(defs, f).None?
    ensures error.Some? ==> exists k :: 0 <= k < |filters| && FilterFault(defs, filters[k]) == error &&
                              forall f :: f in filters[..k] ==> FilterFault(defs, f).None?
    ensures error.None? ==>
              && (forall f :: f in filters ==> f.field in fields)
              && (forall id :: id in fields ==> id in defs && fields[id] == defs[id] && !defs[id].sensitive)
  {
    fields := map[];
    for i := 0 to |filters|
      invariant forall k :: 0 <= k < i ==> FilterFault(defs, filters[k]).None? && filters[k].field in fields
      invariant forall id :: id in fields ==> id in defs && fields[id] == defs[id] && !defs[id].sensitive
    {
      var f := filters[i];
      assert f in filters;
      if f.field !in defs {
        return Some(UnknownField), fields;
      }
      if defs[f.field].sensitive {
        return Some(SensitiveField), fields;
      }
      if !Suits(f.op, defs[f.field].kind) {
        return Some(OperatorMismatch), fields;
      }
      fields := fields[f.field := defs[f.field]];
    }
    error := None;
  }

  // ----- the compiled statement -----

  datatype Sql = Sql(query: Query, args: seq<Cell>, next: nat)

  // One more condition, the arguments for its placeholders, and as many numbers used up.
  function AndWhere(s: Sql, cond: Cond, more: seq<Cell>, used: nat): Sql {
    Sql(s.query.(where := s.query.where + [cond]), s.args + more, s.next + used)
  }

  function When(b: bool, s: Sql, cond: Cond, more: seq<Cell>, used: nat): Sql {
    if b then AndWhere(s, cond, more, used) else s
  }

  function NameOrCode(idx: nat): Cond {
    Or(LikeParam(NameNormalized, idx), LikeParam(CodeNormalized, idx))
  }

  function DocumentHas(idx: nat): Cond {
    ExistsAttachment(true, And(Not(IsNull(BodyNormalized)), LikeParam(BodyNormalized, idx)))
  }

  function NamedLike(idx: nat): Cond {
    ExistsAttachment(false,
      Or(Or(LikeParam(DescriptionNormalized, idx), LikeParam(FilenameNormalized, idx)),
         Or(And(IsNull(DescriptionNormalized), LikeParam(LowerDescription, idx + 1)),
            And(IsNull(FilenameNormalized), LikeParam(LowerFilename, idx + 1)))))
  }

  function Pattern(fold: Folding, text: string): Cell {
    Text(Around(Escape(fold.canonical(text))))
  }

  function IdOf(id: Option<nat>): Cell {
    if id.Some? then Id(id.value) else Null
  }

  // Archived rows, free text and document text.
  function TextClauses(fold: Folding, i: Inputs): Sql {
    var s0 := Sql(Query([], [Always]), [], 1);
    var s1 := When(!i.includeArchived, s0, IsNull(ArchivedAt), [], 0);
    var s2 := When(Trim(i.q) != "", s1, NameOrCode(s1.next), [Pattern(fold, Trim(i.q))], 1);
    When(Trim(i.documentText) != "", s2, DocumentHas(s2.next), [Pattern(fold, Trim(i.documentText))], 1)
  }

  // What an attachment is called, and whether there is one.
  function AttachmentClauses(fold: Folding, i: Inputs, s: Sql): Sql {
    var name := Trim(i.attachmentName);
    var s1 := When(name != "", s, NamedLike(s.next), [Pattern(fold, name), Text(Around(fold.lower(name)))], 2);
    var s2 := When(Trim(i.hasAttachments) == "yes", s1, ExistsAttachment(false, Always), [], 0);
    When(Trim(i.hasAttachments) == "no", s2, Not(ExistsAttachment(false, Always)), [], 0)
  }

  function LookupClauses(i: Inputs, s: Sql): Sql {
    var s1 := When(i.typeId.Some?, s, EqParam(TypeId, s.next), [IdOf(i.typeId)], 1);
    When(i.areaId.Some?, s1, EqParam(AreaId, s1.next), [IdOf(i.areaId)], 1)
  }

  function BuiltIns(fold: Folding, i: Inputs): Sql {
    LookupClauses(i, AttachmentClauses(fold, i, TextClauses(fold, i)))
  }

  // JOIN on the value row of the filter's field, and one condition on that row.
  function JoinValue(s: Sql, field: R.FieldId, cond: Cond, more: seq<Cell>): Sql {
    Sql(Query(s.query.joins + [Join(s.next, s.next)], s.query.where + [cond]),
        s.args + [Id(field)] + more, s.next + 1 + |more|)
  }

  // One EXISTS per choice; the field id is bound once, before all of them.
  function AddChoices(s: Sql, choices: seq<R.ChoiceId>): Sql {
    if choices == [] then s
    else
      var rest := AddChoices(s, choices[..|choices| - 1]);
      AndWhere(rest, ExistsChoice(rest.next, rest.next + 1), [Id(choices[|choices| - 1])], 2)
  }

  function AddFilter(fold: Folding, s: Sql, f: Filter): Option<Sql> {
    match f.op
    case OpContains =>
      if f.text.None? then None
      else Some(JoinValue(s, f.field, LikeParam(TextValue(s.next), s.next + 1), [Pattern(fold, f.text.value)]))
    case OpEquals =>
      if f.choice.None? then None
      else Some(JoinValue(s, f.field, EqParam(ChoiceId(s.next), s.next + 1), [Id(f.choice.value)]))
    case OpIsTrue => Some(JoinValue(s, f.field, EqFlag(BoolValue(s.next), true), []))
    case OpIsFalse =>
      Some(JoinValue(s, f.field, Or(EqFlag(BoolValue(s.next), false), IsNull(BoolValue(s.next))), []))
    case OpIncludesAll =>
      if f.choices == [] then None
      else Some(AddChoices(s.(args := s.args + [Id(f.field)]), f.choices))
    case OpOther(_) => None
  }

  function AddFilters(fold: Folding, s: Sql, filters: seq<Filter>): Option<Sql> {
    if filters == [] then Some(s)
    else
      var before := AddFilters(fold, s, filters[..|filters| - 1]);
      if before.None? then None else AddFilter(fold, before.value, filters[|filters| - 1])
  }

  function Compiled(fold: Folding, i: Inputs): Option<Sql> {
    AddFilters(fold, BuiltIns(fold, i), i.filters)
  }

  // ----- the code that compiles -----

  method BuildChoices(where: seq<Cond>, args: seq<Cell>, idx: nat, joins: seq<Join>, choices: seq<R.ChoiceId>)
    returns (where': seq<Cond>, args': seq<Cell>, next: nat)
    ensures Sql(Query(joins, where'), args', next) == AddChoices(Sql(Query(joins, where), args, idx), choices)
  {
    where', args', next := where, args, idx;
    for k := 0 to |choices|
      invariant Sql(Query(joins, where'), args', next) == AddChoices(Sql(Query(joins, where), args, idx), choices[..k])
    {
      assert choices[..k + 1][..k] == choices[..k];
      where' := where' + [ExistsChoice(next, next + 1)];
      args' := args' + [Id(choices[k])];
      next := next + 2;
    }
    assert choices[..|choices|] == choices;
  }

  method BuildCustomFilter(fold: Folding, f: Filter, joins: seq<Join>, where: seq<Cond>, args: seq<Cell>, idx: nat)
    returns (ok: bool, joins': seq<Join>, where': seq<Cond>, args': seq<Cell>, next: nat)
    ensures AddFilter(fold, Sql(Query(joins, where), args, idx), f) ==
            if ok then Some(Sql(Query(joins', where'), args', next)) else None
  {
    ok, joins', where', args', next := true, joins, where, args, idx;
    match f.op {
      case OpContains =>
        if f.text.None? {
          ok := false;
          return;
        }
        joins' := joins' + [Join(idx, idx)];
        args' := args' + [Id(f.field)];
        where' := where' + [LikeParam(TextValue(idx), idx + 1)];
        args' := args' + [Pattern(fold, f.text.value)];
        next := idx + 2;
      case OpEquals =>
        if f.choice.None? {
          ok := false;
          return;
        }
        joins' := joins' + [Join(idx, idx)];
        args' := args' + [Id(f.field)];
        where' := where' + [EqParam(ChoiceId(idx), idx + 1)];
        args' := args' + [Id(f.choice.value)];
        next := idx + 2;
      case OpIsTrue =>
        joins' := joins' + [Join(idx, idx)];
        args' := args' + [Id(f.field)] + [];
        where' := where' + [EqFlag(BoolValue(idx), true)];
        next := idx + 1;
      case OpIsFalse =>
        joins' := joins' + [Join(idx, idx)];
        args' := args' + [Id(f.field)] + [];
        where' := where' + [Or(EqFlag(BoolValue(idx), false), IsNull(BoolValue(idx)))];
        next := idx + 1;
      case OpIncludesAll =>
        if f.choices == [] {
          ok := false;
          return;
        }
        args' := args' + [Id(f.field)];
        where', args', next := BuildChoices(where', args', idx, joins, f.choices);
      case OpOther(_) =>
        ok := false;
    }
  }

  method BuildTextClauses(fold: Folding, i: Inputs) returns (where: seq<Cond>, args: seq<Cell>, idx: nat)
    ensures Sql(Query([], where), args, idx) == TextClauses(fold, i)
  {
    where, args, idx := [Always], [], 1;
    if !i.includeArchived {
      where := where + [IsNull(ArchivedAt)];
    }
    var q := Trim(i.q);
    if q != "" {
      where := where + [NameOrCode(idx)];
      args := args + [Pattern(fold, q)];
      idx := idx + 1;
    }
    var documentText := Trim(i.documentText);
    if documentText != "" {
      where := where + [DocumentHas(idx)];
      args := args + [Pattern(fold, documentText)];
      idx := idx + 1;
    }
  }

  method BuildAttachmentClauses(fold: Folding, i: Inputs, where: seq<Cond>, args: seq<Cell>, idx: nat)
    returns (where': seq<Cond>, args': seq<Cell>, next: nat)
    ensures Sql(Query([], where'), args', next) == AttachmentClauses(fold, i, Sql(Query([], where), args, idx))
  {
    where', args', next := where, args, idx;
    var name := Trim(i.attachmentName);
    if name != "" {
      where' := where' + [NamedLike(next)];
      args' := args' + [Pattern(fold, name), Text(Around(fold.lower(name)))];
      next := next + 2;
    }
    var has := Trim(i.hasAttachments);
    if has == "yes" {
      where' := where' + [ExistsAttachment(false, Always)];
    } else if has == "no" {
      where' := where' + [Not(ExistsAttachment(false, Always))];
    }
  }

  method BuildLookupClauses(i: Inputs, where: seq<Cond>, args: seq<Cell>, idx: nat)
    returns (where': seq<Cond>, args': seq<Cell>, next: nat)
    ensures Sql(Query([], where'), args', next) == LookupClauses(i, Sql(Query([], where), args, idx))
  {
    where', args', next := where, args, idx;
    if i.typeId.Some? {
      where' := where' + [EqParam(TypeId, next)];
      args' := args' + [Id(i.typeId.value)];
      next := next + 1;
    }
    if i.areaId.Some? {
      where' := where' + [EqParam(AreaId, next)];
      args' := args' + [Id(i.areaId.value)];
      next := next + 1;
    }
  }

  // The clause building of SearchProperties: `join`, `where`, `args` and `idx` grow filter by filter.
  method CompileSearch(fold: Folding, i: Inputs) returns (r: Option<Sql>)
    ensures r == Compiled(fold, i)
  {
    var joins: seq<Join> := [];
    var where, args, idx := BuildTextClauses(fold, i);
    where, args, idx := BuildAttachmentClauses(fold, i, where, args, idx);
    where, args, idx := BuildLookupClauses(i, where, args, idx);
    ghost var start := BuiltIns(fold, i);
    for k := 0 to |i.filters|
      invariant AddFilters(fold, start, i.filters[..k]) == Some(Sql(Query(joins, where), args, idx))
    {
      ghost var before := Sql(Query(joins, where), args, idx);
      var ok;
      ok, joins, where, args, idx := BuildCustomFilter(fold, i.filters[k], joins, where, args, idx);
      OneFilterMore(fold, start, i.filters, k, before);
      if !ok {
        FailedFilterFails(fold, start, i.filters, k + 1);
        return None;
      }
    }
    assert i.filters[..|i.filters|] == i.filters;
    r := Some(Sql(Query(joins, where), args, idx));
  }

  lemma OneFilterMore(fold: Folding, s: Sql, filters: seq<Filter>, k: nat, before: Sql)
    requires k < |filters| && AddFilters(fold, s, filters[..k]) == Some(before)
    ensures AddFilters(fold, s, filters[..k + 1]) == AddFilter(fold, before, filters[k])
  {
    assert filters[..k + 1][..k] == filters[..k];
  }

  lemma {:induction false} FailedFilterFails(fold: Folding, s: Sql, filters: seq<Filter>, k: nat)
    requires k <= |filters| && AddFilters(fold, s, filters[..k]).None?
    ensures AddFilters(fold, s, filters).None?
    decreases |filters| - k
  {
    if k == |filters| {
      assert filters[..k] == filters;
    } else {
      assert filters[..k + 1][..k] == filters[..k];
      FailedFilterFails(fold, s, filters, k + 1);
    }
  }
}
