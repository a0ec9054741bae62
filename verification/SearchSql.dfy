/**
 The fragment of SQL the property search is compiled to: inner joins on the value table,
 a conjunction of conditions over columns and numbered placeholders, and three-valued
 evaluation against the register's tables.
 */
module SearchSql {
  import opened Basics
  import opened Like
  import R = RegisterModel

  // ----- the tables -----

  datatype Attachment = Attachment(
    property: R.PropertyId,
    description: string,
    filename: string,
    descriptionNormalized: Option<string>,
    filenameNormalized: Option<string>,
    bodyNormalized: Option<Option<string>>)   // None: no attachment_text row at all

  datatype Tables = Tables(
    rows: map<R.PropertyId, R.Row>,
    values: R.Values,
    attachments: map<nat, Attachment>,
    lower: string -> string)                  // the server's lower()

  datatype Cell = Null | Text(text: string) | Id(id: nat) | Bool(flag: bool) | Number(n: int)

  // ----- the language -----

  datatype Column =
    | ArchivedAt | NameNormalized | CodeNormalized | TypeId | AreaId
    | TextValue(alias: nat) | BoolValue(alias: nat) | ChoiceId(alias: nat)
    | BodyNormalized | DescriptionNormalized | FilenameNormalized | LowerDescription | LowerFilename

  datatype Cond =
    | Always
    | IsNull(column: Column)
    | LikeParam(column: Column, param: nat)
    | EqParam(column: Column, param: nat)
    | EqFlag(column: Column, flag: bool)
    | And(left: Cond, right: Cond)
    | Or(left: Cond, right: Cond)
    | Not(inner: Cond)
    | ExistsAttachment(withText: bool, inner: Cond)
    | ExistsChoice(field: nat, choice: nat)

  // JOIN property_field_value v<alias> ON it belongs to p and to the field bound to $<field>.
  datatype Join = Join(alias: nat, field: nat)

  datatype Query = Query(joins: seq<Join>, where: seq<Cond>)

  // ----- evaluation -----

  datatype Tri = True | False | Unknown

  function Truth(b: bool): Tri {
    if b then True else False
  }

  // The rows in scope: the property, the value row under each alias (named by its field),
  // and inside a subquery the attachment.
  datatype Scope = Scope(property: R.PropertyId, bound: map<nat, R.FieldId>, attachment: Option<Attachment>)

  function Param(args: seq<Cell>, n: nat): Cell {
    if 1 <= n <= |args| then args[n - 1] else Null
  }

  function StoredValue(t: Tables, s: Scope, alias: nat): Option<R.Scalar> {
    if alias in s.bound && (s.property, s.bound[alias]) in t.values.scalar
    then Some(t.values.scalar[(s.property, s.bound[alias])]) else None
  }

  function OptionalText(o: Option<string>): Cell {
    if o.Some? then Text(o.value) else Null
  }

  function PropertyCell(row: R.Row, c: Column): Cell {
    match c
    case ArchivedAt => if row.archivedAt.Some? then Number(0) else Null
    case NameNormalized => Text(row.nameNormalized)
    case CodeNormalized => Text(row.codeNormalized)
    case TypeId => Id(row.typeId)
    case AreaId => Id(row.areaId)
    case _ => Null
  }

  function ValueCell(v: R.Scalar, c: Column): Cell {
    match c
    case TextValue(_) => if v.PlainText? then Text(v.text) else Null
    case BoolValue(_) => if v.Checked? then Bool(v.flag) else Null
    case ChoiceId(_) => if v.Chosen? then Id(v.choice) else Null
    case _ => Null
  }

  function AttachmentCell(t: Tables, a: Attachment, c: Column): Cell {
    match c
    case BodyNormalized => if a.bodyNormalized.Some? then OptionalText(a.bodyNormalized.value) else Null
    case DescriptionNormalized => OptionalText(a.descriptionNormalized)
    case FilenameNormalized => OptionalText(a.filenameNormalized)
    case LowerDescription => Text(t.lower(a.description))
    case LowerFilename => Text(t.lower(a.filename))
    case _ => Null
  }

  function CellOf(t: Tables, s: Scope, c: Column): Cell {
    if c.TextValue? || c.BoolValue? || c.ChoiceId? then
      var v := StoredValue(t, s, c.alias);
      if v.Some? then ValueCell(v.value, c) else Null
    else if c.ArchivedAt? || c.NameNormalized? || c.CodeNormalized? || c.TypeId? || c.AreaId? then
      if s.property in t.rows then PropertyCell(t.rows[s.property], c) else Null
    else if s.attachment.Some? then AttachmentCell(t, s.attachment.value, c)
    else Null
  }

  function Equals(a: Cell, b: Cell): Tri {
    if a == Null || b == Null then Unknown else Truth(a == b)
  }

  function LikeCells(a: Cell, p: Cell): Tri {
    if a.Text? && p.Text? then Truth(Matches(a.text, p.text)) else Unknown
  }

  function Both(a: Tri, b: Tri): Tri {
    if a == False || b == False then False else if a == True && b == True then True else Unknown
  }

  function Flip(a: Tri): Tri {
    match a
    case True => False
    case False => True
    case Unknown => Unknown
  }

  // The attachment rows a subquery ranges over.
  predicate InSubquery(a: Attachment, p: R.PropertyId, withText: bool) {
    a.property == p && (withText ==> a.bodyNormalized.Some?)
  }

  ghost function Eval(t: Tables, s: Scope, args: seq<Cell>, c: Cond): Tri
    decreases c
  {
    match c
    case Always => True
    case IsNull(col) => Truth(CellOf(t, s, col) == Null)
    case LikeParam(col, n) => LikeCells(CellOf(t, s, col), Param(args, n))
    case EqParam(col, n) => Equals(CellOf(t, s, col), Param(args, n))
    case EqFlag(col, b) => Equals(CellOf(t, s, col), Bool(b))
    case And(l, r) => Both(Eval(t, s, args, l), Eval(t, s, args, r))
    case Or(l, r) => Flip(Both(Flip(Eval(t, s, args, l)), Flip(Eval(t, s, args, r))))
    case Not(i) => Flip(Eval(t, s, args, i))
    case ExistsAttachment(withText, i) =>
      Truth(exists k :: k in t.attachments && InSubquery(t.attachments[k], s.property, withText) &&
              Eval(t, s.(attachment := Some(t.attachments[k])), args, i) == True)
    case ExistsChoice(f, ch) =>
      Truth(exists m :: m in t.values.multi && m.0 == s.property &&
              Equals(Id(m.1), Param(args, f)) == True && Equals(Id(m.2), Param(args, ch)) == True)
  }

  ghost predicate JoinHolds(t: Tables, s: Scope, args: seq<Cell>, j: Join) {
    StoredValue(t, s, j.alias).Some? && Equals(Id(s.bound[j.alias]), Param(args, j.field)) == True
  }

  // One way of choosing the joined rows under which everything holds.
  ghost predicate Witness(t: Tables, q: Query, args: seq<Cell>, s: Scope) {
    && (forall j :: j in q.joins ==> JoinHolds(t, s, args, j))
    && (forall c :: c in q.where ==> Eval(t, s, args, c) == True)
  }

  ghost predicate Selected(t: Tables, q: Query, args: seq<Cell>, p: R.PropertyId) {
    p in t.rows && exists bound: map<nat, R.FieldId> :: Witness(t, q, args, Scope(p, bound, None))
  }

  // ----- when a statement runs at all -----

  function Max(a: nat, b: nat): nat {
    if a >= b then a else b
  }

  function TopParam(c: Cond): nat {
    match c
    case LikeParam(_, n) => n
    case EqParam(_, n) => n
    case And(l, r) => Max(TopParam(l), TopParam(r))
    case Or(l, r) => Max(TopParam(l), TopParam(r))
    case Not(i) => TopParam(i)
    case ExistsAttachment(_, i) => TopParam(i)
    case ExistsChoice(f, ch) => Max(f, ch)
    case _ => 0
  }

  function TopParams(cs: seq<Cond>): nat {
    if cs == [] then 0 else Max(TopParams(cs[..|cs| - 1]), TopParam(cs[|cs| - 1]))
  }

  function TopJoinParam(js: seq<Join>): nat {
    if js == [] then 0 else Max(TopJoinParam(js[..|js| - 1]), js[|js| - 1].field)
  }

  // The highest placeholder in the statement: its number of parameters.
  function Parameters(q: Query): nat {
    Max(TopParams(q.where), TopJoinParam(q.joins))
  }

  predicate AliasesDistinct(q: Query) {
    forall i, j :: 0 <= i < j < |q.joins| ==> q.joins[i].alias != q.joins[j].alias
  }

  // The server refuses a repeated alias; the driver refuses a number of arguments other
  // than the number of parameters.
  predicate Runs(q: Query, args: seq<Cell>) {
    AliasesDistinct(q) && |args| == Parameters(q)
  }

  // ----- what evaluation depends on -----

  function Aliases(c: Cond): set<nat> {
    match c
    case IsNull(col) => ColumnAliases(col)
    case LikeParam(col, _) => ColumnAliases(col)
    case EqParam(col, _) => ColumnAliases(col)
    case EqFlag(col, _) => ColumnAliases(col)
    case And(l, r) => Aliases(l) + Aliases(r)
    case Or(l, r) => Aliases(l) + Aliases(r)
    case Not(i) => Aliases(i)
    case ExistsAttachment(_, i) => Aliases(i)
    case _ => {}
  }

  function ColumnAliases(c: Column): set<nat> {
    match c
    case TextValue(a) => {a}
    case BoolValue(a) => {a}
    case ChoiceId(a) => {a}
    case _ => {}
  }

  // The same value row under every alias in `used`.
  ghost predicate Agree(s: Scope, s': Scope, used: set<nat>) {
    && s.property == s'.property && s.attachment == s'.attachment
    && forall a :: a in used ==> ((a in s.bound <==> a in s'.bound) && (a in s.bound ==> s.bound[a] == s'.bound[a]))
  }

  // A condition sees neither arguments after its own placeholders nor other aliases.
  lemma {:induction false} EvalStable(t: Tables, s: Scope, s': Scope, args: seq<Cell>, more: seq<Cell>, c: Cond)
    requires TopParam(c) <= |args| && Agree(s, s', Aliases(c))
    ensures Eval(t, s, args, c) == Eval(t, s', args + more, c)
    decreases c
  {
    match c
    case And(l, r) =>
      EvalStable(t, s, s', args, more, l);
      EvalStable(t, s, s', args, more, r);
    case Or(l, r) =>
      EvalStable(t, s, s', args, more, l);
      EvalStable(t, s, s', args, more, r);
    case Not(i) =>
      EvalStable(t, s, s', args, more, i);
    case ExistsAttachment(withText, i) =>
      forall k | k in t.attachments
        ensures Eval(t, s.(attachment := Some(t.attachments[k])), args, i) ==
                Eval(t, s'.(attachment := Some(t.attachments[k])), args + more, i)
      {
        EvalStable(t, s.(attachment := Some(t.attachments[k])), s'.(attachment := Some(t.attachments[k])), args, more,
            i);
      }
    case ExistsChoice(f, ch) =>
      assert Param(args, f) == Param(args + more, f) && Param(args, ch) == Param(args + more, ch);
    case _ =>
  }
}
