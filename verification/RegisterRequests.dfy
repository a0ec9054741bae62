/**
 What each request to the register does, read off the request: the row and the values it leaves,
 when it is accepted, and what it is otherwise refused for.
 */
module RegisterRequests {
  import opened Basics
  import opened Text
  import opened RegisterModel
  import opened RegisterViews
  import opened RegisterTheory
  import opened RegisterValues

  // ----- the reference code of a new property -----

  // What the digits of a generated code say.
  function Decimal(s: string): nat
    requires forall i :: 0 <= i < |s| ==> '0' <= s[i] <= '9'
  {
    if s == "" then 0 else 10 * Decimal(s[..|s| - 1]) + (s[|s| - 1] - '0') as nat
  }

  lemma {:induction false} DigitsSay(n: nat)
    ensures forall i :: 0 <= i < |Digits(n)| ==> '0' <= Digits(n)[i] <= '9'
    ensures Decimal(Digits(n)) == n && Digits(n) != "" && (n > 0 ==> Digits(n)[0] != '0')
    ensures n >= 10 ==> |Digits(n)| >= 2
    ensures n >= 100 ==> |Digits(n)| >= 3
    ensures n < 10 ==> |Digits(n)| == 1
    ensures 10 <= n < 100 ==> |Digits(n)| == 2
  {
    if n >= 10 {
      DigitsSay(n / 10);
      assert Digits(n)[..|Digits(n)| - 1] == Digits(n / 10);
    } else {
      assert Digits(n)[..0] == "";
    }
  }

  lemma LeadingZeros(s: string)
    requires forall i :: 0 <= i < |s| ==> '0' <= s[i] <= '9'
    ensures (forall i :: 0 <= i < |"0" + s| ==> '0' <= ("0" + s)[i] <= '9') && Decimal("0" + s) == Decimal(s)
  {
    if s != "" {
      assert ("0" + s)[..|s|] == "0" + s[..|s| - 1];
      LeadingZeros(s[..|s| - 1]);
    } else {
      assert ("0" + s)[..0] == "";
    }
  }

  // "P-" and the number, with zeros in front up to three digits.
  lemma GeneratedCodeIs(m: Draw)
    ensures var code := GeneratedCode(m);
            && |code| >= 5 && code[..2] == "P-" && (|code| > 5 ==> code[2] != '0')
            && (forall i :: 0 <= i < |code[2..]| ==> '0' <= code[2..][i] <= '9')
            && Decimal(code[2..]) == m
  {
    DigitsSay(m);
    var code := GeneratedCode(m);
    assert code[..2] == "P-";
    if m < 10 {
      LeadingZeros(Digits(m));
      LeadingZeros("0" + Digits(m));
      assert code[2..] == "0" + ("0" + Digits(m));
    } else if m < 100 {
      LeadingZeros(Digits(m));
      assert code[2..] == "0" + Digits(m);
    } else {
      assert code[2..] == Digits(m);
      assert code[2] == code[2..][0];
    }
  }

  // The first of the numbers drawn whose code is free.
  lemma {:induction false} FirstFreeIs(n: Normaliser, s: State, draws: seq<Draw>) returns (k: nat)
    ensures k <= |draws|
    ensures forall j :: 0 <= j < k ==> CodeTaken(s, n.canonical(GeneratedCode(draws[j])))
    ensures k < |draws| ==> !CodeTaken(s, n.canonical(GeneratedCode(draws[k])))
    ensures FirstFreeCode(n, s, draws) == if k < |draws| then Some(GeneratedCode(draws[k])) else None
    decreases |draws|
  {
    if draws == [] || !CodeTaken(s, n.canonical(GeneratedCode(draws[0]))) {
      k := 0;
    } else {
      k := FirstFreeIs(n, s, draws[1..]);
      k := k + 1;
      assert forall j :: 0 < j < |draws| ==> draws[j] == draws[1..][j - 1];
    }
  }

  // A supplied code is used as typed but for white space around it; otherwise the first free
  // one of at most five is.
  ghost predicate CodeComesFrom(n: Normaliser, s: State, supplied: string, draws: seq<Draw>, code: string) {
    if supplied != "" then code == Trim(supplied)
    else exists k :: 0 <= k < |draws| && k < 5 && FirstFreeAt(n, s, draws, k) && code == GeneratedCode(draws[k])
  }

  ghost predicate FirstFreeAt(n: Normaliser, s: State, draws: seq<Draw>, k: nat)
    requires k < |draws|
  {
    && !CodeTaken(s, n.canonical(GeneratedCode(draws[k])))
    && forall j :: 0 <= j < k ==> CodeTaken(s, n.canonical(GeneratedCode(draws[j])))
  }

  lemma ChosenCodeComesFrom(n: Normaliser, s: State, supplied: string, draws: seq<Draw>)
    requires ChooseCode(n, s, supplied, draws).Coded?
    ensures CodeComesFrom(n, s, supplied, draws, ChooseCode(n, s, supplied, draws).code)
  {
    if supplied == "" {
      var drawn := if |draws| <= 5 then draws else draws[..5];
      var k := FirstFreeIs(n, s, drawn);
      assert drawn[k] == draws[k] && FirstFreeAt(n, s, draws, k);
    }
  }

  // ----- what an accepted request leaves -----

  lemma CreatedValues(n: Normaliser, s: State, id: PropertyId, supplied: string, draws: seq<Draw>, rawName: string,
                      typeId: LookupId, areaId: LookupId, bodies: seq<Body>, s': State)
    requires Create(n, s, id, supplied, draws, rawName, typeId, areaId, bodies) == Accepted(s')
    ensures id !in s.rows && AllAdmissible(s.schema.defs, bodies) && s'.schema == s.schema
    ensures SaveAll(s.schema, s.values, id, InputsOf(s.schema.defs, bodies)) == Some(s'.values)
  {
  }

  lemma OwnedIsBare(s: State, id: PropertyId)
    requires ValuesOwned(s) && id !in s.rows
    ensures Bare(s.values, id)
  {
  }

  // A new property: the name and the code as asked for, both lookups, not archived, at version
  // one, and exactly the values of the request.
  lemma CreationIs(n: Normaliser, s: State, id: PropertyId, supplied: string, draws: seq<Draw>, rawName: string,
                   typeId: LookupId, areaId: LookupId, bodies: seq<Body>, s': State)
    requires Valid(n, s) && Create(n, s, id, supplied, draws, rawName, typeId, areaId, bodies) == Accepted(s')
    ensures id !in s.rows && id in s'.rows && s'.rows == s.rows[id := s'.rows[id]]
    ensures var row, name := s'.rows[id], NormalisedName(WesternDigits(rawName));
            && row == Row(row.code, n.canonical(row.code), name, n.canonical(name), typeId, areaId, 1, None, None, None)
            && CodeComesFrom(n, s, supplied, draws, row.code)
    ensures ValuesAreOf(s.schema, s'.values, id, bodies) && SameElsewhere(s.values, s'.values, id)
    ensures var row := s'.rows[id];
            s'.log == s.log + [Record(PropertyCreated, row.code, None,
                                      Some(Payload(map[Name := Str(row.name), Code := Str(row.code)], map[], {})),
                                      None)]
  {
    CreateSteps(n, s, id, supplied, draws, rawName, typeId, areaId, bodies, s');
    ChosenCodeComesFrom(n, s, supplied, draws);
    CreatedValues(n, s, id, supplied, draws, rawName, typeId, areaId, bodies, s');
    OwnedIsBare(s, id);
    SavedAreOf(s.schema, s.values, id, bodies, s'.values);
  }

  lemma SavedBodies(s: State, id: PropertyId, bodies: seq<Body>, s': State)
    requires SaveBodies(s, id, bodies) == Accepted(s')
    ensures AllAdmissible(s.schema.defs, bodies) && s'.schema == s.schema
    ensures SaveAll(s.schema, s.values, id, InputsOf(s.schema.defs, bodies)) == Some(s'.values)
  {
  }

  lemma ReplacedValues(s: State, updated: State, id: PropertyId, bodies: seq<Body>, s': State)
    requires id in s.rows && id in updated.rows && updated == s.(rows := updated.rows)
    requires ValuesFit(s.schema, s.values) && ReplaceAndLog(s, updated, id, bodies) == Accepted(s')
    ensures AllAdmissible(s.schema.defs, bodies) && s'.schema == s.schema
    ensures SaveAll(s.schema, WithoutProperty(s.values, id), id, InputsOf(s.schema.defs, bodies)) == Some(s'.values)
  {
    var saved := ReplaceSteps(s, updated, id, bodies);
    SavedBodies(updated.(values := WithoutProperty(updated.values, id)), id, bodies, saved);
  }

  lemma ModifiedValues(n: Normaliser, s: State, id: PropertyId, version: int, name: string,
                       typeId: LookupId, areaId: LookupId, bodies: seq<Body>, s': State)
    requires id in s.rows && ValuesFit(s.schema, s.values)
    requires UpdateAndLog(n, s, id, version, name, typeId, areaId, bodies) == Accepted(s')
    ensures AllAdmissible(s.schema.defs, bodies) && s'.schema == s.schema
    ensures SaveAll(s.schema, WithoutProperty(s.values, id), id, InputsOf(s.schema.defs, bodies)) == Some(s'.values)
  {
    var updated := StoreUpdateSteps(s, id, name, n.canonical(name), typeId, areaId, version);
    ReplacedValues(s, updated, id, bodies, s');
  }

  // An update: the name and both lookups as asked for, everything else of the row as it was
  // but the version, and exactly the values of the request, whatever there was before.
  lemma ModificationIs(n: Normaliser, s: State, id: PropertyId, version: int, rawName: string,
                       typeId: LookupId, areaId: LookupId, bodies: seq<Body>, s': State)
    requires Valid(n, s) && Modify(n, s, id, version, rawName, typeId, areaId, bodies) == Accepted(s')
    ensures id in s.rows && s.rows[id].version == version && id in s'.rows && s'.rows == s.rows[id := s'.rows[id]]
    ensures var name := NormalisedName(WesternDigits(rawName));
            s'.rows[id] == Row(s.rows[id].code, s.rows[id].codeNormalized, name, n.canonical(name), typeId, areaId,
                               version + 1, None, None, None)
    ensures ValuesAreOf(s.schema, s'.values, id, bodies) && SameElsewhere(s.values, s'.values, id)
  {
    ModifySteps(n, s, id, version, rawName, typeId, areaId, bodies, s');
    RowIsOk(n, s, id);
    ModifiedValues(n, s, id, version, NormalisedName(WesternDigits(rawName)), typeId, areaId, bodies, s');
    ClearedKeeps(s.schema, s.values, id);
    SavedAreOf(s.schema, WithoutProperty(s.values, id), id, bodies, s'.values);
  }

  lemma CodeChangeIs(n: Normaliser, s: State, id: PropertyId, version: int, rawCode: string, s': State)
    requires ChangeCode(n, s, id, version, rawCode) == Accepted(s')
    ensures id in s.rows && s.rows[id].version == version && s.rows[id].archivedAt.None?
    ensures var code := Trim(WesternDigits(rawCode));
            var row := s.rows[id].(code := code, codeNormalized := n.canonical(code), version := version + 1);
            s'.rows == s.rows[id := row]
    ensures s'.values == s.values && s'.schema == s.schema
  {
  }

  lemma ArchivingIs(s: State, id: PropertyId, version: int, note: Option<string>, actor: AccountId, now: int, s': State)
    requires Archive(s, id, version, note, actor, now) == Accepted(s')
    ensures id in s.rows && s.rows[id].version == version && s.rows[id].archivedAt.None? && id in s'.rows
    ensures var row := s'.rows[id];
            && row.archivedAt == Some(now) && row.archivedBy == Some(actor) && row.version == version + 1
            && (row.note.Some? <==> note.Some? && Trim(note.value) != "")
            && (row.note.Some? ==> row.note == Some(Trim(note.value)))
            && row == s.rows[id].(archivedAt := row.archivedAt, archivedBy := row.archivedBy, note := row.note,
                                  version := row.version)
            && s'.rows == s.rows[id := row]
    ensures s'.values == s.values && s'.schema == s.schema
  {
  }

  lemma RestoringIs(s: State, id: PropertyId, version: int, s': State)
    requires Restore(s, id, version) == Accepted(s')
    ensures id in s.rows && s.rows[id].version == version && s.rows[id].archivedAt.Some?
    ensures s'.rows == s.rows[id := s.rows[id].(archivedAt := None, archivedBy := None, note := None,
                                                version := version + 1)]
    ensures s'.values == s.values && s'.schema == s.schema
  {
  }
}
