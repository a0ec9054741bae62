/**
 Whole runs of the register: the invariant in every reachable state, the audit log as
 an event source, undo taken back to the start, and one writer per version.
 */
module RegisterHistory {
  import opened Basics
  import opened RegisterModel
  import opened RegisterViews
  import opened RegisterTheory

  // ----- the edits of one property -----

  predicate IsEdit(step: Step) {
    step.DoModify? || step.DoChangeCode? || step.DoArchive? || step.DoRestore?
  }

  ghost function EditOwner(step: Step): PropertyId
    requires IsEdit(step)
  {
    match step
    case DoModify(id, _, _, _, _, _) => id
    case DoChangeCode(id, _, _) => id
    case DoArchive(id, _, _, _, _) => id
    case DoRestore(id, _) => id
  }

  function ActionOf(step: Step): Action
    requires IsEdit(step)
  {
    match step
    case DoModify(_, _, _, _, _, _) => PropertyModified
    case DoChangeCode(_, _, _) => PropertyCodeChanged
    case DoArchive(_, _, _, _, _) => PropertyArchived
    case DoRestore(_, _) => PropertyRestored
  }

  lemma ModifyStepFacts(n: Normaliser, s: State, step: Step, s': State)
    requires Valid(n, s) && step.DoModify? && Apply(n, s, step) == Accepted(s')
    ensures StepFacts(n, s, s', step.id, step.version, PropertyModified)
  {
    ModifyFacts(n, s, step.id, step.version, step.name, step.typeId, step.areaId, step.bodies, s');
  }

  lemma EditStepFacts(n: Normaliser, s: State, step: Step, s': State)
    requires Valid(n, s) && IsEdit(step) && Apply(n, s, step) == Accepted(s')
    ensures StepFacts(n, s, s', EditOwner(step), step.version, ActionOf(step))
  {
    match step
    case DoModify(_, _, _, _, _, _) => ModifyStepFacts(n, s, step, s');
    case DoChangeCode(id, version, code) => ChangeCodeFacts(n, s, id, version, code, s');
    case DoArchive(id, version, note, actor, now) => ArchiveFacts(n, s, id, version, note, actor, now, s');
    case DoRestore(id, version) => RestoreFacts(n, s, id, version, s');
  }

  // ----- every reachable state -----

  lemma ApplyKeepsValid(n: Normaliser, s: State, step: Step)
    requires Valid(n, s) && Apply(n, s, step).Accepted?
    ensures Valid(n, Apply(n, s, step).state)
  {
    match step
    case DoCreate(id, supplied, draws, name, typeId, areaId, bodies) =>
      CreateFacts(n, s, id, supplied, draws, name, typeId, areaId, bodies);
    case DoUndo(record, actor, now) => UndoIsThreeWayMerge(n, s, record, actor, now);
    case DoRedefine(schema) => RedefineFacts(n, s, schema);
    case _ => EditStepFacts(n, s, step, Apply(n, s, step).state);
  }

  ghost predicate SchemaSound(schema: Schema) {
    forall f :: f in schema.defs && schema.defs[f].sensitive ==> schema.defs[f].kind == TextField
  }

  lemma {:induction false} RunKeepsValid(n: Normaliser, s: State, steps: seq<Step>)
    requires Valid(n, s)
    ensures Valid(n, Run(n, s, steps))
    decreases |steps|
  {
    if steps != [] {
      if Apply(n, s, steps[0]).Accepted? {
        ApplyKeepsValid(n, s, steps[0]);
      }
      RunKeepsValid(n, Next(n, s, steps[0]), steps[1..]);
    }
  }

  // Codes stay unique over active and archived rows, stored canonical forms match, the
  // archive columns are set and cleared together, every value fits its field, and
  // reversals point backward at ordinary records, once each.
  lemma EveryReachableStateIsValid(n: Normaliser, schema: Schema, steps: seq<Step>)
    requires SchemaSound(schema)
    ensures Valid(n, Run(n, Empty(schema), steps))
  {
    RunKeepsValid(n, Empty(schema), steps);
  }

  // ----- what one accepted step changes -----

  // The property a step other than a redefinition writes to.
  ghost function Owner(n: Normaliser, s: State, step: Step): PropertyId {
    match step
    case DoCreate(id, _, _, _, _, _, _) => id
    case DoModify(id, _, _, _, _, _) => id
    case DoChangeCode(id, _, _) => id
    case DoArchive(id, _, _, _, _) => id
    case DoRestore(id, _) => id
    case DoUndo(record, _, _) =>
      if record < |s.log| && UndoTarget(n, s, record).Resolved? then UndoTarget(n, s, record).id else 0
    case DoRedefine(_) => 0
  }

  lemma RedefineIsNoWrite(n: Normaliser, s: State, schema: Schema, s': State)
    requires Valid(n, s) && Redefine(s, schema) == Accepted(s')
    ensures s'.rows == s.rows && s'.values == s.values && s'.log == s.log && Views(s') == Views(s)
  {
    RedefineFacts(n, s, schema);
  }

  lemma PatchOfUndo(n: Normaliser, s: State, s': State, k: nat)
    requires k < |s.log| && UndoFacts(n, s, s', k)
    ensures UndoTarget(n, s, k).Resolved?
    ensures Edited(s, s', UndoTarget(n, s, k).id) && Patched(s, s', UndoTarget(n, s, k).id, Last(s').after)
  {
  }

  lemma UndoIsItsPatch(n: Normaliser, s: State, k: nat, actor: AccountId, now: int, s': State)
    requires Valid(n, s) && Undo(n, s, k, actor, now) == Accepted(s')
    ensures k < |s.log| && UndoTarget(n, s, k).Resolved?
    ensures Edited(s, s', UndoTarget(n, s, k).id) && Patched(s, s', UndoTarget(n, s, k).id, Last(s').after)
  {
    UndoIsThreeWayMerge(n, s, k, actor, now);
    PatchOfUndo(n, s, s', k);
  }

  lemma EditIsItsPatch(n: Normaliser, s: State, step: Step, s': State)
    requires Valid(n, s) && IsEdit(step) && Apply(n, s, step) == Accepted(s')
    ensures Edited(s, s', Owner(n, s, step)) && Patched(s, s', Owner(n, s, step), Last(s').after)
  {
    EditStepFacts(n, s, step, s');
  }

  // An accepted write is exactly the patch its own audit row records, on one property,
  // whose version goes up by one; a creation adds one property at version 1.
  lemma StepIsItsPatch(n: Normaliser, s: State, step: Step)
    requires Valid(n, s) && Apply(n, s, step).Accepted?
    ensures var s', id := Apply(n, s, step).state, Owner(n, s, step);
            if step.DoRedefine?
              then s'.rows == s.rows && s'.values == s.values && s'.log == s.log && Views(s') == Views(s)
            else if step.DoCreate? then CreationFacts(n, s, s', id)
            else Edited(s, s', id) && Patched(s, s', id, Last(s').after)
  {
    match step
    case DoCreate(id, supplied, draws, name, typeId, areaId, bodies) =>
      CreateFacts(n, s, id, supplied, draws, name, typeId, areaId, bodies);
    case DoUndo(record, actor, now) => UndoIsItsPatch(n, s, record, actor, now, Apply(n, s, step).state);
    case DoRedefine(schema) => RedefineIsNoWrite(n, s, schema, Apply(n, s, step).state);
    case _ => EditIsItsPatch(n, s, step, Apply(n, s, step).state);
  }

  // ----- the log as an event source -----

  // The register together with whose record each log row is and what each property
  // looked like when it was created; neither is a column, both are bookkeeping here.
  datatype Ledger = Ledger(state: State, owners: seq<PropertyId>, born: map<PropertyId, View>)

  ghost function Advance(n: Normaliser, l: Ledger, step: Step): Ledger {
    var r := Apply(n, l.state, step);
    if r.Refused? then l
    else if step.DoRedefine? then l.(state := r.state)
    else
      var id := Owner(n, l.state, step);
      Ledger(r.state, l.owners + [id],
             if step.DoCreate? && id in r.state.rows then l.born[id := ViewOf(r.state, id)] else l.born)
  }

  lemma Appended<T>(a: seq<T>, b: seq<T>)
    requires |b| == |a| + 1 && b[..|a|] == a
    ensures b == a + [b[|a|]]
  {
  }

  predicate AllIn(ids: seq<PropertyId>, rows: set<PropertyId>) {
    forall i :: 0 <= i < |ids| ==> ids[i] in rows
  }

  lemma AllInAppend(ids: seq<PropertyId>, rows: set<PropertyId>, id: PropertyId, rows': set<PropertyId>)
    requires AllIn(ids, rows) && rows <= rows' && id in rows'
    ensures AllIn(ids + [id], rows')
  {
  }

  // The `after` payloads of one property's rows, applied in id order.
  function Replay(v: View, log: seq<Record>, owners: seq<PropertyId>, id: PropertyId): View
    requires |owners| == |log|
    decreases |log|
  {
    if log == [] then v
    else
      var k := |log| - 1;
      var earlier := Replay(v, log[..k], owners[..k], id);
      if owners[k] == id && log[k].after.Some? then PatchView(earlier, log[k].after.value) else earlier
  }

  ghost predicate Tracked(l: Ledger) {
    && |l.owners| == |l.state.log|
    && AllIn(l.owners, l.state.rows.Keys)
    && (forall id :: id in l.state.rows ==>
          id in l.born && Replay(l.born[id], l.state.log, l.owners, id) == ViewOf(l.state, id))
  }

  lemma {:induction false} ReplayForeign(v: View, log: seq<Record>, owners: seq<PropertyId>, id: PropertyId)
    requires |owners| == |log| && forall i :: 0 <= i < |owners| ==> owners[i] != id
    ensures Replay(v, log, owners, id) == v
    decreases |log|
  {
    if log != [] {
      ReplayForeign(v, log[..|log| - 1], owners[..|log| - 1], id);
    }
  }

  lemma ReplayAppend(v: View, log: seq<Record>, r: Record, owners: seq<PropertyId>, owner: PropertyId, id: PropertyId)
    requires |owners| == |log|
    ensures Replay(v, log + [r], owners + [owner], id) ==
            if owner == id && r.after.Some? then PatchView(Replay(v, log, owners, id), r.after.value)
            else Replay(v, log, owners, id)
  {
    assert (log + [r])[..|log|] == log && (owners + [owner])[..|log|] == owners;
  }

  lemma ViewAt(s: State, s': State, m: map<PropertyId, View>, id: PropertyId)
    requires id in s'.rows && Views(s') == m
    ensures id in m && m[id] == ViewOf(s', id)
  {
  }

  lemma PatchedAt(s: State, s': State, id: PropertyId, p: Option<Payload>, other: PropertyId)
    requires Patched(s, s', id, p) && other in s'.rows
    ensures other in s.rows
    ensures ViewOf(s', other) == if other == id then PatchView(ViewOf(s, id), p.value) else ViewOf(s, other)
  {
    ViewAt(s, s', Views(s)[id := PatchView(ViewOf(s, id), p.value)], other);
  }

  lemma EditTracksOne(l: Ledger, s': State, r: Record, id: PropertyId, other: PropertyId)
    requires Tracked(l) && s'.log == l.state.log + [r] && Patched(l.state, s', id, r.after) && other in s'.rows
    ensures other in l.born && Replay(l.born[other], s'.log, l.owners + [id], other) == ViewOf(s', other)
  {
    PatchedAt(l.state, s', id, r.after, other);
    ReplayAppend(l.born[other], l.state.log, r, l.owners, id, other);
  }

  lemma EditTracks(l: Ledger, s': State, id: PropertyId)
    requires Tracked(l) && Written(l.state, s', id, false)
    ensures Tracked(Ledger(s', l.owners + [id], l.born))
  {
    AllInAppend(l.owners, l.state.rows.Keys, id, s'.rows.Keys);
    forall other | other in s'.rows
      ensures other in l.born && Replay(l.born[other], s'.log, l.owners + [id], other) == ViewOf(s', other)
    {
      EditTracksOne(l, s', Last(s'), id, other);
    }
  }

  lemma CreateTracksOne(l: Ledger, s': State, id: PropertyId, born: map<PropertyId, View>, other: PropertyId)
    requires Tracked(l) && Written(l.state, s', id, true)
    requires born == l.born[id := ViewOf(s', id)] && other in s'.rows
    ensures other in born && Replay(born[other], s'.log, l.owners + [id], other) == ViewOf(s', other)
  {
    var s := l.state;
    ReplayAppend(born[other], s.log, Last(s'), l.owners, id, other);
    if other == id {
      ReplayForeign(born[id], s.log, l.owners, id);
    } else {
      ViewAt(s, s', Views(s)[id := ViewOf(s', id)], other);
    }
  }

  lemma CreateTracks(l: Ledger, s': State, id: PropertyId)
    requires Tracked(l) && Written(l.state, s', id, true)
    ensures Tracked(Ledger(s', l.owners + [id], l.born[id := ViewOf(s', id)]))
  {
    var born := l.born[id := ViewOf(s', id)];
    AllInAppend(l.owners, l.state.rows.Keys, id, s'.rows.Keys);
    forall other | other in s'.rows
      ensures other in born && Replay(born[other], s'.log, l.owners + [id], other) == ViewOf(s', other)
    {
      CreateTracksOne(l, s', id, born, other);
    }
  }

  lemma RedefineTracks(l: Ledger, s': State)
    requires Tracked(l) && Views(s') == Views(l.state)
    requires s'.rows == l.state.rows && s'.log == l.state.log
    ensures Tracked(l.(state := s'))
  {
    forall other | other in s'.rows ensures ViewOf(s', other) == ViewOf(l.state, other) {
      ViewAt(l.state, s', Views(l.state), other);
    }
  }

  // What the ledger needs to know of an accepted write.
  ghost predicate Written(s: State, s': State, id: PropertyId, created: bool) {
    && id in s'.rows && s'.rows.Keys == s.rows.Keys + {id}
    && s'.log != [] && s'.log == s.log + [Last(s')] && Last(s').after.Some?
    && if created then
         && id !in s.rows
         && Views(s') == Views(s)[id := ViewOf(s', id)]
         && PatchView(ViewOf(s', id), Last(s').after.value) == ViewOf(s', id)
       else Patched(s, s', id, Last(s').after)
  }

  lemma EditIsWritten(s: State, s': State, id: PropertyId)
    requires Edited(s, s', id) && Patched(s, s', id, Last(s').after)
    ensures Written(s, s', id, false)
  {
    Appended(s.log, s'.log);
  }

  lemma AddIsWritten(s: State, s': State, id: PropertyId)
    requires Added(s, s', id) && Views(s') == Views(s)[id := ViewOf(s', id)]
    requires Last(s').after.Some? && PatchView(ViewOf(s', id), Last(s').after.value) == ViewOf(s', id)
    ensures Written(s, s', id, true)
  {
    Appended(s.log, s'.log);
  }

  lemma StepIsWritten(n: Normaliser, s: State, step: Step, s': State)
    requires Valid(n, s) && Apply(n, s, step) == Accepted(s') && !step.DoRedefine?
    ensures Written(s, s', Owner(n, s, step), step.DoCreate?)
  {
    StepIsItsPatch(n, s, step);
    if step.DoCreate? {
      AddIsWritten(s, s', step.id);
    } else {
      EditIsWritten(s, s', Owner(n, s, step));
    }
  }

  lemma RedefineAdvances(n: Normaliser, l: Ledger, step: Step, s': State)
    requires Tracked(l) && Views(s') == Views(l.state) && s'.rows == l.state.rows && s'.log == l.state.log
    requires step.DoRedefine? && Apply(n, l.state, step) == Accepted(s')
    ensures Tracked(Advance(n, l, step))
  {
    RedefineTracks(l, s');
  }

  lemma AdvanceTracks(n: Normaliser, l: Ledger, step: Step)
    requires Valid(n, l.state) && Tracked(l)
    ensures Tracked(Advance(n, l, step))
  {
    var r := Apply(n, l.state, step);
    if r.Accepted? {
      if step.DoRedefine? {
        RedefineIsNoWrite(n, l.state, step.schema, r.state);
        RedefineAdvances(n, l, step, r.state);
      } else {
        StepIsWritten(n, l.state, step, r.state);
        WriteTracks(n, l, step, r.state);
      }
    }
  }

  lemma WriteTracks(n: Normaliser, l: Ledger, step: Step, s': State)
    requires Tracked(l) && Apply(n, l.state, step) == Accepted(s') && !step.DoRedefine?
    requires Written(l.state, s', Owner(n, l.state, step), step.DoCreate?)
    ensures Tracked(Advance(n, l, step))
  {
    if step.DoCreate? {
      CreateTracks(l, s', step.id);
    } else {
      EditTracks(l, s', Owner(n, l.state, step));
    }
  }

  ghost function LedgerRun(n: Normaliser, l: Ledger, steps: seq<Step>): Ledger
    decreases |steps|
  {
    if steps == [] then l else LedgerRun(n, Advance(n, l, steps[0]), steps[1..])
  }

  lemma {:induction false} LedgerRunAppend(n: Normaliser, l: Ledger, steps: seq<Step>, step: Step)
    ensures LedgerRun(n, l, steps + [step]) == Advance(n, LedgerRun(n, l, steps), step)
    decreases |steps|
  {
    if steps == [] {
      assert [] + [step] == [step] && [step][1..] == [];
    } else {
      assert (steps + [step])[1..] == steps[1..] + [step];
      LedgerRunAppend(n, Advance(n, l, steps[0]), steps[1..], step);
    }
  }

  lemma {:induction false} LedgerRunTracks(n: Normaliser, l: Ledger, steps: seq<Step>)
    requires Valid(n, l.state) && Tracked(l)
    ensures Tracked(LedgerRun(n, l, steps)) && LedgerRun(n, l, steps).state == Run(n, l.state, steps)
    decreases |steps|
  {
    if steps != [] {
      AdvanceTracks(n, l, steps[0]);
      if Apply(n, l.state, steps[0]).Accepted? {
        ApplyKeepsValid(n, l.state, steps[0]);
      }
      LedgerRunTracks(n, Advance(n, l, steps[0]), steps[1..]);
    }
  }

  // In every reachable state the audit rows of a property, reversals included, replayed
  // from its creation in id order, give its name, type, area, code, archive state, note
  // and non-sensitive custom values.
  lemma ReplayReproducesTheRegister(n: Normaliser, schema: Schema, steps: seq<Step>, id: PropertyId)
    requires SchemaSound(schema)
    requires id in Run(n, Empty(schema), steps).rows
    ensures var l := LedgerRun(n, Ledger(Empty(schema), [], map[]), steps);
            && l.state == Run(n, Empty(schema), steps)
            && id in l.born && |l.owners| == |l.state.log|
            && Replay(l.born[id], l.state.log, l.owners, id) == ViewOf(l.state, id)
  {
    LedgerRunTracks(n, Ledger(Empty(schema), [], map[]), steps);
  }

  // ----- one writer per version -----

  lemma NextKeepsRows(n: Normaliser, s: State, step: Step, id: PropertyId)
    requires Valid(n, s) && id in s.rows
    ensures id in Next(n, s, step).rows && Next(n, s, step).rows[id].version >= s.rows[id].version
    ensures s.log <= Next(n, s, step).log
  {
    if Apply(n, s, step).Accepted? {
      StepIsItsPatch(n, s, step);
    }
  }

  // Versions never go back, rows never vanish and the log only grows.
  lemma {:induction false} RunKeepsRows(n: Normaliser, s: State, steps: seq<Step>, id: PropertyId)
    requires Valid(n, s) && id in s.rows
    ensures id in Run(n, s, steps).rows && Run(n, s, steps).rows[id].version >= s.rows[id].version
    ensures s.log <= Run(n, s, steps).log
    decreases |steps|
  {
    if steps != [] {
      NextKeepsRows(n, s, steps[0], id);
      if Apply(n, s, steps[0]).Accepted? {
        ApplyKeepsValid(n, s, steps[0]);
      }
      RunKeepsRows(n, Next(n, s, steps[0]), steps[1..], id);
    }
  }

  // The version a write expects, where it names one.
  function Expected(step: Step): Option<(PropertyId, int)> {
    match step
    case DoModify(id, version, _, _, _, _) => Some((id, version))
    case DoChangeCode(id, version, _) => Some((id, version))
    case DoArchive(id, version, _, _, _) => Some((id, version))
    case DoRestore(id, version) => Some((id, version))
    case _ => None
  }

  lemma AcceptedFromItsVersion(n: Normaliser, s: State, step: Step)
    requires Expected(step).Some? && Apply(n, s, step).Accepted?
    ensures var (id, version) := Expected(step).value; id in s.rows && s.rows[id].version == version
  {
  }

  lemma AcceptedAtItsVersion(n: Normaliser, s: State, step: Step)
    requires Valid(n, s) && Expected(step).Some? && Apply(n, s, step).Accepted?
    ensures var (id, version) := Expected(step).value;
            id in s.rows && s.rows[id].version == version && Apply(n, s, step).state.rows.Keys == s.rows.Keys &&
            Apply(n, s, step).state.rows[id].version == version + 1
  {
    AcceptedFromItsVersion(n, s, step);
    StepIsItsPatch(n, s, step);
    EditedVersion(s, Apply(n, s, step).state, Expected(step).value.0);
  }

  lemma EditedVersion(s: State, s': State, id: PropertyId)
    requires Edited(s, s', id)
    ensures s'.rows.Keys == s.rows.Keys && s'.rows[id].version == s.rows[id].version + 1
  {
  }

  // Two writers that read the same version of a property: once one of them has been
  // accepted the other is refused, whatever happens in between.
  lemma OneWriterPerVersion(n: Normaliser, s: State, first: Step, between: seq<Step>, second: Step)
    requires Valid(n, s) && Apply(n, s, first).Accepted?
    requires Expected(first).Some? && Expected(second) == Expected(first)
    ensures Apply(n, Run(n, Apply(n, s, first).state, between), second).Refused?
  {
    var (id, version) := Expected(first).value;
    var s' := Apply(n, s, first).state;
    AcceptedAtItsVersion(n, s, first);
    ApplyKeepsValid(n, s, first);
    RunKeepsRows(n, s', between, id);
    RunKeepsValid(n, s', between);
    if Apply(n, Run(n, s', between), second).Accepted? {
      AcceptedAtItsVersion(n, Run(n, s', between), second);
    }
  }

  // ----- undo, taken all the way back -----

  // When a record's entity is read as a code, an undo lands on the property that holds
  // that code now, and on no other.
  lemma UndoLandsWhereTheCodeIs(n: Normaliser, s: State, k: nat, id: PropertyId)
    requires Valid(n, s) && k < |s.log|
    requires s.log[k].action == PropertyCodeChanged || n.parseId(s.log[k].entity).None?
    ensures UndoTarget(n, s, k) == Resolved(id) <==>
            id in s.rows && s.rows[id].codeNormalized == n.canonical(s.log[k].entity)
  {
    assert RecordOk(s.schema.defs, s.log[k]);
    var found := FindByCode(s, n.canonical(s.log[k].entity));
    if id in s.rows && s.rows[id].codeNormalized == n.canonical(s.log[k].entity) {
      assert CodeTaken(s, n.canonical(s.log[k].entity));
    }
  }

  // So a code that changed hands takes its old records with it: once a property has given
  // up its code and a new one has been created under it, undoing what was recorded about
  // the first is aimed at the second.
  lemma ReusedCodeMisleadsUndo(n: Normaliser, s: State, k: nat, change: Step, s1: State, create: Step, s2: State)
    requires Valid(n, s) && k < |s.log| && s.log[k].action == PropertyModified && n.parseId(s.log[k].entity).None?
    requires change.DoChangeCode? && change.id in s.rows && s.log[k].entity == s.rows[change.id].code
    requires Apply(n, s, change) == Accepted(s1)
    requires create.DoCreate? && Apply(n, s1, create) == Accepted(s2)
    requires create.id in s2.rows && s2.rows[create.id].codeNormalized == n.canonical(s.log[k].entity)
    ensures k < |s2.log| && UndoTarget(n, s2, k) == Resolved(create.id)
    ensures create.id != change.id && change.id in s2.rows
  {
    ApplyKeepsValid(n, s, change);
    ApplyKeepsValid(n, s1, create);
    StepIsItsPatch(n, s, change);
    StepIsItsPatch(n, s1, create);
    assert s2.log[k] == s1.log[k] == s.log[k];
    UndoLandsWhereTheCodeIs(n, s2, k, create.id);
  }

  // An accepted edit that touched no sensitive field and whose entity reads as a code.
  ghost predicate PlainEdit(n: Normaliser, s: State, step: Step, s': State) {
    && IsEdit(step) && Apply(n, s, step) == Accepted(s')
    && s'.log != [] && Last(s').before.Some? && Last(s').before.value.sensitive == {}
    && (step.DoChangeCode? || n.parseId(Last(s').entity).None?)
  }

  // A later register that looks as it did right after the edit: the record is still
  // there, nothing has reversed it, and every property reads the same.
  ghost predicate LooksLike(n: Normaliser, t: State, s': State, k: nat) {
    && Valid(n, t) && t.schema == s'.schema && Views(t) == Views(s')
    && k < |s'.log| && s'.log <= t.log && !Undone(t, k)
  }

  lemma OrdinaryRecord(n: Normaliser, s: State, s': State, id: PropertyId, version: int, action: Action)
    requires StepFacts(n, s, s', id, version, action) && action != RecordReverted
    ensures s'.log != [] && Last(s').reverses.None?
  {
    assert RecordOk(s'.schema.defs, s'.log[|s'.log| - 1]);
  }

  lemma EditFacts(n: Normaliser, s: State, step: Step, s': State)
    requires Valid(n, s) && PlainEdit(n, s, step, s')
    ensures StepFacts(n, s, s', EditOwner(step), step.version, ActionOf(step)) && Last(s').reverses.None?
  {
    EditStepFacts(n, s, step, s');
    OrdinaryRecord(n, s, s', EditOwner(step), step.version, ActionOf(step));
  }

  lemma SameViews(t: State, s: State, id: PropertyId)
    requires Views(t) == Views(s) && id in s.rows
    ensures id in t.rows && ViewOf(t, id) == ViewOf(s, id)
    ensures t.rows[id].code == s.rows[id].code && t.rows[id].archivedAt.Some? == s.rows[id].archivedAt.Some?
  {
    assert id in Views(s) && Views(s)[id] == ViewOf(s, id);
    assert id in Views(t) && Views(t)[id] == ViewOf(t, id);
  }

  lemma LooksLikeAt(n: Normaliser, t: State, s': State, k: nat, id: PropertyId)
    requires LooksLike(n, t, s', k) && id in s'.rows
    ensures id in t.rows && ViewOf(t, id) == ViewOf(s', id) && t.log[k] == s'.log[k] && RowOk(n, t.rows[id])
    ensures t.rows[id].code == s'.rows[id].code && t.rows[id].archivedAt.Some? == s'.rows[id].archivedAt.Some?
  {
    SameViews(t, s', id);
    RowIsOk(n, t, id);
  }

  lemma ModifyRecord(n: Normaliser, s: State, step: Step, s': State)
    requires ValuesFit(s.schema, s.values) && step.DoModify? && Apply(n, s, step) == Accepted(s')
    ensures step.id in s'.rows && s'.log == s.log + [Last(s')]
    ensures Last(s').entity == s'.rows[step.id].code && Last(s').action == PropertyModified
  {
    ModifySteps(n, s, step.id, step.version, step.name, step.typeId, step.areaId, step.bodies, s');
    Appended(s.log, s'.log);
  }

  lemma EditRecord(n: Normaliser, s: State, step: Step, s': State)
    requires ValuesFit(s.schema, s.values) && PlainEdit(n, s, step, s')
    ensures EditOwner(step) in s'.rows && s'.log == s.log + [Last(s')]
    ensures Last(s').entity == s'.rows[EditOwner(step)].code
    ensures step.DoChangeCode? <==> Last(s').action == PropertyCodeChanged
  {
    if step.DoModify? {
      ModifyRecord(n, s, step, s');
    }
  }

  // Equal views agree on the code, so the undo finds the property the edit was about.
  lemma UndoFindsTheOwner(n: Normaliser, s: State, step: Step, s': State, t: State)
    requires Valid(n, s) && PlainEdit(n, s, step, s') && LooksLike(n, t, s', |s.log|)
    ensures t.log[|s.log|] == Last(s') && EditOwner(step) in t.rows
    ensures UndoTarget(n, t, |s.log|) == Resolved(EditOwner(step))
  {
    var id := EditOwner(step);
    EditRecord(n, s, step, s');
    LooksLikeAt(n, t, s', |s.log|, id);
    UndoLandsWhereTheCodeIs(n, t, |s.log|, id);
  }
}
