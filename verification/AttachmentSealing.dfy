/**
 A sensitive attachment stays sensitive and its text sealed - as long as no promotion overlaps
 another request that goes by the flag.
 */
module AttachmentSealing {
  import opened Basics
  import opened Text
  import opened Like
  import opened Utf8Cap
  import opened AttachmentModel
  import opened AttachmentTheory

  // ----- what calm runs keep -----

  predicate HarmlessText(sensitive: bool, body: Body) {
    sensitive && body.Readable? ==> body.text == ""
  }

  predicate SameFlag(now: bool, was: bool, promote: bool) {
    (was ==> now) && (!promote ==> was == now)
  }

  // What a request has read is still so, as far as it matters.
  predicate UpToDate(s: State, r: Request) {
    r.id in s.rows ==>
      match r
      case Correcting(id, _, sensitive) => sensitive == s.rows[id].sensitive
      case Requeueing(_) => true
      case Loaded(id, was, promote) => SameFlag(s.rows[id].sensitive, was, promote)
      case Editing(id, was, promote, body) =>
        && SameFlag(s.rows[id].sensitive, was, promote)
        && (promote && !was ==> SealsWhatIsRead(s, id, body))
  }

  predicate SealsWhatIsRead(s: State, id: AttachmentId, body: Option<string>)
    requires id in s.rows
  {
    && (id in s.texts && s.texts[id].body.Readable? && s.texts[id].body.text != "" ==>
          body == Some(s.texts[id].body.text))
    && (Seals(body) ==> ReadText(s, id) == body)
  }

  // A sensitive attachment has no readable text but the empty one, any other no sealed one,
  // and nobody goes by a flag that has changed.
  ghost predicate Confidential(s: State) {
    && (forall id :: id in s.texts && id in s.rows ==>
          HarmlessText(s.rows[id].sensitive, s.texts[id].body) && (s.texts[id].body.Sealed? ==> s.rows[id].sensitive))
    && (s.worker.Claimed? && s.worker.id in s.rows ==> s.worker.sensitive == s.rows[s.worker.id].sensitive)
    && (forall req :: req in s.requests ==> UpToDate(s, s.requests[req]))
  }

  // Goes by the flag as it was read: an edit that promotes nothing writes it back.
  predicate GoesByFlag(r: Request) {
    r.Correcting? || (r.Loaded? && !r.promote)
  }

  // Somebody has read the flag of `id` and is yet to write.
  predicate Writing(s: State, id: AttachmentId) {
    || (s.worker.Claimed? && s.worker.id == id)
    || exists req :: req in s.requests && GoesByFlag(s.requests[req]) && s.requests[req].id == id
  }

  predicate IsSealing(r: Request) {
    r.Editing? && r.promote && !r.wasSensitive
  }

  // A promotion to sensitive has read the text of `id` and is yet to commit.
  predicate Sealing(s: State, id: AttachmentId) {
    exists req :: req in s.requests && IsSealing(s.requests[req]) && s.requests[req].id == id
  }

  // No promotion overtakes somebody who has read the flag, and no text is written past one.
  predicate Calm(s: State, step: Step) {
    match step
    case CommitEdit(req) => req in s.requests && IsSealing(s.requests[req]) ==> !Writing(s, s.requests[req].id)
    case Finish(result) => result.Extracted? && s.worker.Claimed? ==> !Sealing(s, s.worker.id)
    case WriteCorrection(req) => req in s.requests ==> !Sealing(s, s.requests[req].id)
    case _ => true
  }

  predicate CalmRun(s: State, steps: seq<Step>) {
    steps != [] ==>
      var before := Run(s, steps[..|steps| - 1]);
      CalmRun(s, steps[..|steps| - 1]) && (before.Some? ==> Calm(before.value, steps[|steps| - 1]))
  }

  lemma MarkKeepsConfidential(s: State, s': State)
    requires Confidential(s) && s'.texts == s.texts && s'.requests == s.requests && s'.rows.Keys == s.rows.Keys
    requires forall id :: id in s.rows ==> s'.rows[id].sensitive == s.rows[id].sensitive
    requires s'.worker.Claimed? ==>
               s'.worker == s.worker ||
               (s'.worker.id in s.rows && s'.worker.sensitive == s.rows[s'.worker.id].sensitive)
    ensures Confidential(s')
  {
    forall req | req in s'.requests ensures UpToDate(s', s'.requests[req]) {
      assert UpToDate(s, s.requests[req]);
    }
  }

  lemma StoreKeepsConfidential(s: State, text: string, truncated: bool, outcome: ExtractState)
    requires Inv(s) && Confidential(s) && s.worker.Claimed? && !Sealing(s, s.worker.id)
    ensures Confidential(StoreText(s, s.worker.id, s.worker.sensitive, text, truncated, outcome))
  {
    var s' := StoreText(s, s.worker.id, s.worker.sensitive, text, truncated, outcome);
    forall req | req in s'.requests ensures UpToDate(s', s'.requests[req]) {
      assert UpToDate(s, s.requests[req]);
    }
  }

  lemma FinishKeepsConfidential(s: State, result: Extraction)
    requires Inv(s) && Confidential(s) && s.worker.Claimed? && (result.Extracted? ==> !Sealing(s, s.worker.id))
    ensures Confidential(Finished(s, s.worker.id, s.worker.attempts, s.worker.sensitive, result))
  {
    var s' := Finished(s, s.worker.id, s.worker.attempts, s.worker.sensitive, result);
    if result.Extracted? {
      StoreKeepsConfidential(s, "", false, Empty);
      StoreKeepsConfidential(s, Capped(result.text, result.maxText), IsCapped(result.text, result.maxText), Done);
    } else {
      MarkKeepsConfidential(s, s');
    }
  }

  lemma CorrectionKeepsConfidential(s: State, req: RequestId)
    requires Inv(s) && Confidential(s) && req in s.requests && s.requests[req].Correcting?
    requires !Sealing(s, s.requests[req].id)
    ensures Confidential(Next(s, WriteCorrection(req)).value)
  {
    var s' := Next(s, WriteCorrection(req)).value;
    assert UpToDate(s, s.requests[req]);
    forall other | other in s'.requests ensures UpToDate(s', s'.requests[other]) {
      assert UpToDate(s, s.requests[other]);
    }
  }

  // An edit that seals nothing leaves the flag as it finds it.
  lemma PlainEditKeepsConfidential(s: State, req: RequestId)
    requires Inv(s) && Confidential(s) && req in s.requests && s.requests[req].Editing? && !IsSealing(s.requests[req])
    ensures Confidential(Next(s, CommitEdit(req)).value)
  {
    var s', r := Next(s, CommitEdit(req)).value, s.requests[req];
    assert UpToDate(s, r) && RequestOk(s, r);
    assert s'.rows[r.id].sensitive == s.rows[r.id].sensitive;
    assert s'.texts == s.texts;
    forall other | other in s'.requests ensures UpToDate(s', s'.requests[other]) {
      assert UpToDate(s, s.requests[other]);
    }
  }

  lemma PromotionKeepsConfidential(s: State, req: RequestId)
    requires Inv(s) && Confidential(s) && req in s.requests && IsSealing(s.requests[req])
    requires !Writing(s, s.requests[req].id)
    ensures Confidential(Next(s, CommitEdit(req)).value)
  {
    var s', r := Next(s, CommitEdit(req)).value, s.requests[req];
    assert UpToDate(s, r) && RequestOk(s, r);
    forall other | other in s'.requests ensures UpToDate(s', s'.requests[other]) {
      assert UpToDate(s, s.requests[other]);
      if s.requests[other].Editing? {
        assert !BothEditing(s.requests, req, other);
      }
    }
  }

  lemma RowsKeepConfidential(s: State, step: Step)
    requires Inv(s) && Confidential(s) && Next(s, step).Some? && (step.Upload? || step.Delete?)
    ensures Confidential(Next(s, step).value)
  {
    var s' := Next(s, step).value;
    forall req | req in s'.requests ensures UpToDate(s', s'.requests[req]) {
      assert UpToDate(s, s.requests[req]);
    }
  }

  lemma ReadKeepsConfidential(s: State, step: Step)
    requires Inv(s) && Confidential(s) && NextOfRequest(s, step).Some?
    requires step.ReadForCorrection? || step.ReadForRequeue? || step.LoadForEdit? || step.BeginEdit?
               || step.Abandon?
    ensures Confidential(NextOfRequest(s, step).value)
  {
    var s' := NextOfRequest(s, step).value;
    forall req | req in s'.requests ensures UpToDate(s', s'.requests[req]) {
      if req in s.requests {
        assert UpToDate(s, s.requests[req]);
      }
    }
  }

  lemma RequeueKeepsConfidential(s: State, req: RequestId, now: int)
    requires Confidential(s) && Next(s, WriteRequeue(req, now)).Some?
    ensures Confidential(Next(s, WriteRequeue(req, now)).value)
  {
    var s' := Next(s, WriteRequeue(req, now)).value;
    forall other | other in s'.requests ensures UpToDate(s', s'.requests[other]) {
      assert UpToDate(s, s.requests[other]);
    }
  }

  lemma StepKeepsConfidential(s: State, step: Step)
    requires Inv(s) && Confidential(s) && Next(s, step).Some? && Calm(s, step)
    ensures Confidential(Next(s, step).value)
  {
    match step
    case Finish(result) => FinishKeepsConfidential(s, result);
    case MarkStored => MarkKeepsConfidential(s, Next(s, step).value);
    case Claim(_, _) => MarkKeepsConfidential(s, Next(s, step).value);
    case GiveUp => MarkKeepsConfidential(s, Next(s, step).value);
    case Upload(_, _, _) => RowsKeepConfidential(s, step);
    case Delete(_) => RowsKeepConfidential(s, step);
    case WriteCorrection(req) => CorrectionKeepsConfidential(s, req);
    case CommitEdit(req) =>
      if IsSealing(s.requests[req]) {
        PromotionKeepsConfidential(s, req);
      } else {
        PlainEditKeepsConfidential(s, req);
      }
    case WriteRequeue(req, now) => RequeueKeepsConfidential(s, req, now);
    case _ => ReadKeepsConfidential(s, step);
  }

  lemma {:induction false} CalmRunsAreConfidential(steps: seq<Step>)
    requires Run(START, steps).Some? && CalmRun(START, steps)
    ensures Inv(Run(START, steps).value) && Confidential(Run(START, steps).value)
  {
    if steps != [] {
      var init := steps[..|steps| - 1];
      CalmRunsAreConfidential(init);
      StepKeepsInv(Run(START, init).value, steps[|steps| - 1]);
      StepKeepsConfidential(Run(START, init).value, steps[|steps| - 1]);
    }
  }

  // ----- search -----

  // The search finds what the canonical query is a part of.
  lemma FoundExactly(s: State, canonical: string -> string, q: string, id: AttachmentId)
    ensures Found(s, canonical, q, id) <==>
            && id in s.rows && id in s.texts && s.texts[id].body.Readable?
            && Contains(canonical(s.texts[id].body.text), canonical(Trim(q)))
  {
    if id in s.texts && s.texts[id].body.Readable? {
      EscapedSearchIsLiteral(canonical(s.texts[id].body.text), canonical(Trim(q)));
    }
  }

  // ----- what an edit does to the flag and the text -----

  // It changes what a reader gets exactly if it seals something else than what is there, or
  // seals nothing and changes the flag beside a sealed text.
  lemma EditChangesTheTextExactly(s: State, req: RequestId)
    requires Inv(s) && req in s.requests && s.requests[req].Editing?
    ensures var r, s' := s.requests[req], Next(s, CommitEdit(req)).value;
            && r.id in s.rows && r.id in s'.rows
            && (ReadText(s', r.id) != ReadText(s, r.id) <==>
                r.id in s.texts &&
                if Seals(r.body) then ReadText(s, r.id) != r.body
                else s.texts[r.id].body.Sealed? && s.rows[r.id].sensitive != (r.promote || r.wasSensitive))
            && forall other :: other in s.rows && other != r.id ==> ReadText(s', other) == ReadText(s, other)
  {
    assert RequestOk(s, s.requests[req]);
  }

  lemma ConfidentialEditKeeps(s: State, req: RequestId, s': State, id: AttachmentId)
    requires Inv(s) && Confidential(s) && Next(s, CommitEdit(req)) == Some(s') && id in s.rows
    ensures id in s'.rows && ReadText(s', id) == ReadText(s, id) && (s.rows[id].sensitive ==> s'.rows[id].sensitive)
  {
    assert UpToDate(s, s.requests[req]) && RequestOk(s, s.requests[req]);
    EditChangesTheTextExactly(s, req);
  }

  // In calm runs it never does, and never takes the flag away.
  lemma EditKeepsFlagAndText(steps: seq<Step>, req: RequestId, id: AttachmentId)
    requires Run(START, steps).Some? && CalmRun(START, steps)
    requires Next(Run(START, steps).value, CommitEdit(req)).Some? && id in Run(START, steps).value.rows
    ensures var s := Run(START, steps).value;
            var s' := Next(s, CommitEdit(req)).value;
            id in s'.rows && ReadText(s', id) == ReadText(s, id) && (s.rows[id].sensitive ==> s'.rows[id].sensitive)
  {
    CalmRunsAreConfidential(steps);
    var s := Run(START, steps).value;
    ConfidentialEditKeeps(s, req, Next(s, CommitEdit(req)).value, id);
  }
}
