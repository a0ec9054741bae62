/**
 Where the sealing fails: which steps let out a text, or take the flag away, and which runs
 therefore keep every sensitive attachment sealed and sensitive throughout.
 */
module AttachmentLeaks {
  import opened Basics
  import opened Text
  import opened Like
  import opened Utf8Cap
  import opened AttachmentModel
  import opened AttachmentTheory
  import opened AttachmentSealing

  // ----- each overlap, exactly -----

  // The worker storing under a claim made before the promotion ...
  lemma StoringLeaksExactly(s: State, text: string, maxText: int)
    requires Inv(s) && s.worker.Claimed? && s.worker.id in s.rows
    ensures var id := s.worker.id;
            var s' := Next(s, Finish(Extracted(text, maxText))).value;
            !HarmlessText(s'.rows[id].sensitive, s'.texts[id].body) <==>
            s.rows[id].sensitive && !s.worker.sensitive && Capped(text, maxText) != ""
  {
    CappedIsLongest(text, maxText);
  }

  // ... a correction whose reading came before it ...
  lemma CorrectionLeaksExactly(s: State, req: RequestId)
    requires Inv(s) && req in s.requests && s.requests[req].Correcting? && s.requests[req].id in s.rows
    ensures var r, s' := s.requests[req], Next(s, WriteCorrection(req)).value;
            r.id in s'.rows && r.id in s'.texts &&
            (!HarmlessText(s'.rows[r.id].sensitive, s'.texts[r.id].body) <==>
             s.rows[r.id].sensitive && !r.sensitive && Trim(r.text) != "")
  {
  }

  // ... or an edit that sets the flag over a text it has not sealed.
  lemma EditLeaksExactly(s: State, req: RequestId)
    requires Inv(s) && req in s.requests && s.requests[req].Editing?
    ensures var r, s' := s.requests[req], Next(s, CommitEdit(req)).value;
            r.id in s'.rows &&
            (r.id in s'.texts && !HarmlessText(s'.rows[r.id].sensitive, s'.texts[r.id].body) <==>
             (r.promote || r.wasSensitive) && !Seals(r.body) &&
             r.id in s.texts && s.texts[r.id].body.Readable? && s.texts[r.id].body.text != "")
  {
    assert RequestOk(s, s.requests[req]);
  }

  // And the flag itself: an edit takes it away exactly if it promotes nothing and had read it
  // before the promotion. A text sealed by then is read by nobody.
  lemma EditUncoversExactly(s: State, req: RequestId)
    requires Inv(s) && req in s.requests && s.requests[req].Editing? && s.requests[req].id in s.rows
    requires s.rows[s.requests[req].id].sensitive
    ensures var r, s' := s.requests[req], Next(s, CommitEdit(req)).value;
            && r.id in s'.rows && (!s'.rows[r.id].sensitive <==> !r.promote && !r.wasSensitive)
            && (!s'.rows[r.id].sensitive && r.id in s.texts && s.texts[r.id].body.Sealed? ==>
                  ReadText(s, r.id).Some? && ReadText(s', r.id).None?)
  {
    assert RequestOk(s, s.requests[req]);
  }

  // ----- no other step lets a text out -----

  predicate Harmless(s: State, id: AttachmentId) {
    id in s.texts && id in s.rows ==> HarmlessText(s.rows[id].sensitive, s.texts[id].body)
  }

  ghost predicate AllHarmless(s: State) {
    forall id :: Harmless(s, id)
  }

  // The three conditions above.
  predicate Leaks(s: State, step: Step) {
    match step
    case Finish(result) =>
      && result.Extracted? && s.worker.Claimed? && s.worker.id in s.rows
      && s.rows[s.worker.id].sensitive && !s.worker.sensitive && Capped(result.text, result.maxText) != ""
    case WriteCorrection(req) =>
      && req in s.requests && s.requests[req].Correcting? && s.requests[req].id in s.rows
      && s.rows[s.requests[req].id].sensitive && !s.requests[req].sensitive && Trim(s.requests[req].text) != ""
    case CommitEdit(req) => req in s.requests && s.requests[req].Editing? && LeavesReadable(s, s.requests[req])
    case _ => false
  }

  predicate LeavesReadable(s: State, r: Request)
    requires r.Editing?
  {
    && (r.promote || r.wasSensitive) && !Seals(r.body)
    && r.id in s.texts && s.texts[r.id].body.Readable? && s.texts[r.id].body.text != ""
  }

  lemma OneChanges(s: State, s': State, id: AttachmentId)
    requires AllHarmless(s) && forall other :: other != id && Harmless(s, other) ==> Harmless(s', other)
    ensures AllHarmless(s') <==> Harmless(s', id)
  {
  }

  lemma FinishLeaksExactly(s: State, result: Extraction)
    requires Inv(s) && AllHarmless(s) && Next(s, Finish(result)).Some?
    ensures AllHarmless(Next(s, Finish(result)).value) <==> !Leaks(s, Finish(result))
  {
    var s' := Next(s, Finish(result)).value;
    OneChanges(s, s', s.worker.id);
    if result.Extracted? && s.worker.id in s.rows {
      StoringLeaksExactly(s, result.text, result.maxText);
    } else {
      assert Harmless(s, s.worker.id);
    }
  }

  lemma WriteCorrectionLeaksExactly(s: State, req: RequestId)
    requires Inv(s) && AllHarmless(s) && Next(s, WriteCorrection(req)).Some?
    ensures AllHarmless(Next(s, WriteCorrection(req)).value) <==> !Leaks(s, WriteCorrection(req))
  {
    OneChanges(s, Next(s, WriteCorrection(req)).value, s.requests[req].id);
    if s.requests[req].id in s.rows {
      CorrectionLeaksExactly(s, req);
    }
  }

  lemma CommitEditLeaksExactly(s: State, req: RequestId)
    requires Inv(s) && AllHarmless(s) && Next(s, CommitEdit(req)).Some?
    ensures AllHarmless(Next(s, CommitEdit(req)).value) <==> !Leaks(s, CommitEdit(req))
  {
    OneChanges(s, Next(s, CommitEdit(req)).value, s.requests[req].id);
    EditLeaksExactly(s, req);
  }

  predicate MayLeak(step: Step) {
    step.Finish? || step.WriteCorrection? || step.CommitEdit?
  }

  lemma OthersNeverLeak(s: State, step: Step, s': State)
    requires AllHarmless(s) && !MayLeak(step) && Next(s, step) == Some(s')
    ensures AllHarmless(s')
  {
    forall id ensures Harmless(s', id) {
      assert Harmless(s, id);
    }
  }

  lemma StepLeaksExactly(s: State, step: Step)
    requires Inv(s) && AllHarmless(s) && Next(s, step).Some?
    ensures !AllHarmless(Next(s, step).value) <==> Leaks(s, step)
  {
    match step
    case Finish(result) => FinishLeaksExactly(s, result);
    case WriteCorrection(req) => WriteCorrectionLeaksExactly(s, req);
    case CommitEdit(req) => CommitEditLeaksExactly(s, req);
    case _ => OthersNeverLeak(s, step, Next(s, step).value);
  }

  // ----- whole runs -----

  // In every state the run goes through, no sensitive attachment has a readable text but the
  // empty one.
  ghost predicate SealedThroughout(s: State, steps: seq<Step>) {
    && (Run(s, steps).Some? ==> AllHarmless(Run(s, steps).value))
    && (steps != [] ==> SealedThroughout(s, steps[..|steps| - 1]))
  }

  predicate NeverLeaks(s: State, steps: seq<Step>) {
    steps != [] ==>
      var before := Run(s, steps[..|steps| - 1]);
      NeverLeaks(s, steps[..|steps| - 1]) && (before.Some? ==> !Leaks(before.value, steps[|steps| - 1]))
  }

  // Exactly the runs without such a step.
  lemma {:induction false} SealedExactly(steps: seq<Step>)
    requires Run(START, steps).Some?
    ensures SealedThroughout(START, steps) <==> NeverLeaks(START, steps)
  {
    if steps != [] {
      var init := steps[..|steps| - 1];
      SealedExactly(init);
      if SealedThroughout(START, init) {
        RetriesAreBounded(init);
        StepLeaksExactly(Run(START, init).value, steps[|steps| - 1]);
      }
    }
  }

  // The calm ones are among them ...
  lemma {:induction false} CalmRunsAreSealed(steps: seq<Step>)
    requires Run(START, steps).Some? && CalmRun(START, steps)
    ensures SealedThroughout(START, steps)
  {
    CalmRunsAreConfidential(steps);
    if steps != [] {
      CalmRunsAreSealed(steps[..|steps| - 1]);
    }
  }

  lemma HarmlessIsNotFound(s: State, canonical: string -> string, q: string, id: AttachmentId)
    requires AllHarmless(s) && canonical("") == "" && canonical(Trim(q)) != ""
    requires id in s.rows && s.rows[id].sensitive
    ensures !Found(s, canonical, q, id)
  {
    FoundExactly(s, canonical, q, id);
    assert Harmless(s, id);
    if id in s.texts && s.texts[id].body.Readable? {
      ContainedInShorter("", canonical(Trim(q)));
    }
  }

  // ... and in all of them a query that is not empty once normalised never finds a sensitive
  // attachment.
  lemma SensitiveIsNeverFound(steps: seq<Step>, canonical: string -> string, q: string, id: AttachmentId)
    requires Run(START, steps).Some? && NeverLeaks(START, steps)
    requires canonical("") == "" && canonical(Trim(q)) != ""
    requires id in Run(START, steps).value.rows && Run(START, steps).value.rows[id].sensitive
    ensures !Found(Run(START, steps).value, canonical, q, id)
  {
    SealedExactly(steps);
    HarmlessIsNotFound(Run(START, steps).value, canonical, q, id);
  }

  // ----- the flag -----

  // No row that stays loses the flag.
  ghost predicate KeepsFlags(s: State, s': State) {
    forall id :: id in s.rows && id in s'.rows && s.rows[id].sensitive ==> s'.rows[id].sensitive
  }

  predicate Uncovers(s: State, step: Step) {
    && step.CommitEdit? && step.req in s.requests && s.requests[step.req].Editing?
    && s.requests[step.req].id in s.rows && s.rows[s.requests[step.req].id].sensitive
    && !s.requests[step.req].promote && !s.requests[step.req].wasSensitive
  }

  lemma CommitEditUncoversExactly(s: State, req: RequestId, s': State)
    requires Inv(s) && Next(s, CommitEdit(req)) == Some(s')
    ensures !KeepsFlags(s, s') <==> Uncovers(s, CommitEdit(req))
  {
    var r := s.requests[req];
    assert RequestOk(s, r);
    if s.rows[r.id].sensitive {
      EditUncoversExactly(s, req);
    }
  }

  predicate IsRequest(step: Step) {
    || step.ReadForCorrection? || step.WriteCorrection? || step.ReadForRequeue? || step.WriteRequeue?
    || step.LoadForEdit? || step.BeginEdit? || step.CommitEdit? || step.Abandon?
  }

  lemma RequestsKeepFlags(s: State, step: Step, s': State)
    requires NextOfRequest(s, step) == Some(s') && !step.CommitEdit?
    ensures KeepsFlags(s, s')
  {
  }

  lemma OthersKeepFlags(s: State, step: Step, s': State)
    requires Next(s, step) == Some(s') && !IsRequest(step)
    ensures KeepsFlags(s, s')
  {
  }

  lemma StepUncoversExactly(s: State, step: Step, s': State)
    requires Inv(s) && Next(s, step) == Some(s')
    ensures !KeepsFlags(s, s') <==> Uncovers(s, step)
  {
    match step
    case CommitEdit(req) => CommitEditUncoversExactly(s, req, s');
    case _ =>
      if IsRequest(step) {
        RequestsKeepFlags(s, step, s');
      } else {
        OthersKeepFlags(s, step, s');
      }
  }

  ghost predicate FlagsKeptThroughout(s: State, steps: seq<Step>) {
    steps != [] ==>
      var before, after := Run(s, steps[..|steps| - 1]), Run(s, steps);
      && FlagsKeptThroughout(s, steps[..|steps| - 1])
      && (before.Some? && after.Some? ==> KeepsFlags(before.value, after.value))
  }

  predicate NeverUncovers(s: State, steps: seq<Step>) {
    steps != [] ==>
      var before := Run(s, steps[..|steps| - 1]);
      NeverUncovers(s, steps[..|steps| - 1]) && (before.Some? ==> !Uncovers(before.value, steps[|steps| - 1]))
  }

  // No attachment ever goes back from sensitive exactly in the runs without such an edit.
  lemma {:induction false} FlagsKeptExactly(steps: seq<Step>)
    requires Run(START, steps).Some?
    ensures FlagsKeptThroughout(START, steps) <==> NeverUncovers(START, steps)
  {
    if steps != [] {
      var init := steps[..|steps| - 1];
      FlagsKeptExactly(init);
      RetriesAreBounded(init);
      StepUncoversExactly(Run(START, init).value, steps[|steps| - 1], Run(START, steps).value);
    }
  }
}
