/**
 What every step of the attachment model keeps, whatever interleaves: bounded retries, the
 worker's claim still good, one edit at a time on a row.
 */
module AttachmentTheory {
  import opened Basics
  import opened Utf8Cap
  import opened AttachmentModel

  // ----- retries -----

  // A queued row has room for another attempt; any other has no next time.
  predicate RowOk(r: Row) {
    && r.attempts <= 3 && r.runs <= 3
    && (r.state == Pending ==> r.attempts <= 2 && r.runs == r.attempts)
    && (r.state != Pending ==> r.nextAt.None?)
  }

  // The row the worker holds is still queued, with the attempts it was claimed with.
  ghost predicate WorkerOk(s: State) {
    !s.worker.Idle? && s.worker.id in s.rows ==>
      && s.rows[s.worker.id].state == Pending
      && (s.worker.Claimed? ==> s.rows[s.worker.id].attempts == s.worker.attempts)
  }

  predicate OutcomeOk(w: Worker) {
    w.Stored? ==> w.outcome == Done || w.outcome == Empty
  }

  ghost predicate RowsOk(s: State) {
    forall id :: id in s.rows ==> RowOk(s.rows[id])
  }

  ghost predicate TextsOk(s: State) {
    forall id :: id in s.texts ==> id in s.rows
  }

  // The row being edited is there; only a promotion has read a body.
  predicate RequestOk(s: State, r: Request) {
    r.Editing? ==> r.id in s.rows && (r.body.Some? ==> r.promote && !r.wasSensitive)
  }

  ghost predicate RequestsOk(s: State) {
    forall req :: req in s.requests ==> RequestOk(s, s.requests[req])
  }

  predicate BothEditing(requests: map<RequestId, Request>, a: RequestId, b: RequestId) {
    && a in requests && b in requests && requests[a].Editing? && requests[b].Editing?
    && requests[a].id == requests[b].id
  }

  ghost predicate OneLock(requests: map<RequestId, Request>) {
    forall a, b :: BothEditing(requests, a, b) ==> a == b
  }

  ghost predicate Inv(s: State) {
    RowsOk(s) && WorkerOk(s) && OutcomeOk(s.worker) && TextsOk(s) && RequestsOk(s) && OneLock(s.requests)
  }

  lemma MarkKeepsInv(s: State, id: AttachmentId, state: ExtractState, more: nat)
    requires Inv(s) && Holding(s.worker, id) && more <= 1 && state != Pending
    ensures Inv(Mark(s, id, state, more).(worker := Idle))
  {
  }

  lemma RetryKeepsInv(s: State, id: AttachmentId, when: int)
    requires Inv(s) && Holding(s.worker, id) && (id in s.rows ==> s.rows[id].attempts < 2)
    ensures Inv(ScheduleRetry(s, id, when).(worker := Idle))
  {
  }

  lemma StoreKeepsInv(s: State, text: string, truncated: bool, outcome: ExtractState)
    requires Inv(s) && s.worker.Claimed? && (outcome == Done || outcome == Empty)
    ensures Inv(StoreText(s, s.worker.id, s.worker.sensitive, text, truncated, outcome))
  {
  }

  lemma FinishKeepsInv(s: State, result: Extraction)
    requires Inv(s) && s.worker.Claimed?
    ensures Inv(Finished(s, s.worker.id, s.worker.attempts, s.worker.sensitive, result))
  {
    var id := s.worker.id;
    match result
    case Unsuitable => MarkKeepsInv(s, id, NotEligible, 0);
    case TooManyPages => MarkKeepsInv(s, id, TooLarge, 0);
    case ExtractorError(now) =>
      if s.worker.attempts + 1 >= |RETRY_DELAYS| {
        MarkKeepsInv(s, id, Failed, 1);
      } else {
        RetryKeepsInv(s, id, now + RETRY_DELAYS[s.worker.attempts + 1]);
      }
    case Extracted(text, maxText) =>
      StoreKeepsInv(s, "", false, Empty);
      StoreKeepsInv(s, Capped(text, maxText), IsCapped(text, maxText), Done);
  }

  lemma ClaimKeepsInv(s: State, step: Step)
    requires Inv(s) && Next(s, step).Some? && (step.Claim? || step.GiveUp?)
    ensures Inv(Next(s, step).value)
  {
  }

  lemma RowStepKeepsInv(s: State, step: Step)
    requires Inv(s) && Next(s, step).Some? && (step.Upload? || step.Delete?)
    ensures Inv(Next(s, step).value)
  {
  }

  lemma EndKeepsInv(s: State, req: RequestId)
    requires Inv(s)
    ensures Inv(Ended(s, req))
  {
    assert forall a, b :: BothEditing(s.requests - {req}, a, b) ==> BothEditing(s.requests, a, b);
  }

  lemma KeepKeepsInv(s: State, req: RequestId, r: Request)
    requires Inv(s) && RequestOk(s, r) && (r.Editing? ==> !Locked(s, r.id))
    ensures Inv(Keep(s, req, r))
  {
    var s' := Keep(s, req, r);
    forall a, b | BothEditing(s'.requests, a, b) ensures a == b {
      if a != req && b != req {
        assert BothEditing(s.requests, a, b);
      }
    }
  }

  lemma CorrectionKeepsInv(s: State, id: AttachmentId, text: string, sensitive: bool)
    requires Inv(s)
    ensures Inv(Corrected(s, id, text, sensitive))
  {
  }

  lemma RequeueKeepsInv(s: State, id: AttachmentId, now: int)
    requires Inv(s)
    ensures Inv(Requeued(s, id, now))
  {
  }

  lemma EditKeepsInv(s: State, id: AttachmentId, sensitive: bool, body: Option<string>)
    requires Inv(s)
    ensures Inv(Edited(s, id, sensitive, body))
  {
  }

  lemma ReadKeepsInv(s: State, step: Step)
    requires Inv(s) && NextOfRequest(s, step).Some?
    requires step.ReadForCorrection? || step.ReadForRequeue? || step.LoadForEdit? || step.BeginEdit?
    ensures Inv(NextOfRequest(s, step).value)
  {
    match step
    case ReadForCorrection(req, id, text) => KeepKeepsInv(s, req, Correcting(id, text, s.rows[id].sensitive));
    case ReadForRequeue(req, id) => KeepKeepsInv(s, req, Requeueing(id));
    case LoadForEdit(req, id, asked, _) => KeepKeepsInv(s, req, Loaded(id, s.rows[id].sensitive, asked == Some(true)));
    case BeginEdit(req) =>
      var r := s.requests[req];
      assert RequestOk(s, r);
      if r.id in s.rows {
        KeepKeepsInv(s, req, Editing(r.id, r.wasSensitive, r.promote, BodyToSeal(s, r)));
      } else {
        EndKeepsInv(s, req);
      }
  }

  lemma WriteKeepsInv(s: State, step: Step)
    requires Inv(s) && NextOfRequest(s, step).Some?
    requires step.WriteCorrection? || step.WriteRequeue? || step.CommitEdit? || step.Abandon?
    ensures Inv(NextOfRequest(s, step).value)
  {
    var r := s.requests[step.req];
    assert RequestOk(s, r);
    match step
    case WriteCorrection(req) =>
      CorrectionKeepsInv(s, r.id, r.text, r.sensitive);
      EndKeepsInv(Corrected(s, r.id, r.text, r.sensitive), req);
    case WriteRequeue(req, now) =>
      RequeueKeepsInv(s, r.id, now);
      EndKeepsInv(Requeued(s, r.id, now), req);
    case CommitEdit(req) =>
      EditKeepsInv(s, r.id, r.promote || r.wasSensitive, r.body);
      EndKeepsInv(Edited(s, r.id, r.promote || r.wasSensitive, r.body), req);
    case Abandon(req) => EndKeepsInv(s, req);
  }

  lemma StepKeepsInv(s: State, step: Step)
    requires Inv(s) && Next(s, step).Some?
    ensures Inv(Next(s, step).value)
  {
    match step
    case Finish(result) => FinishKeepsInv(s, result);
    case MarkStored => MarkKeepsInv(s, s.worker.id, s.worker.outcome, 0);
    case Claim(_, _) => ClaimKeepsInv(s, step);
    case GiveUp => ClaimKeepsInv(s, step);
    case Upload(_, _, _) => RowStepKeepsInv(s, step);
    case Delete(_) => RowStepKeepsInv(s, step);
    case _ =>
      if step.ReadForCorrection? || step.ReadForRequeue? || step.LoadForEdit? || step.BeginEdit? {
        ReadKeepsInv(s, step);
      } else {
        WriteKeepsInv(s, step);
      }
  }

  // In every run, whatever interleaves: at most three runs a queueing and three attempts
  // ever, no next time on a row that has come to an end.
  lemma {:induction false} RetriesAreBounded(steps: seq<Step>)
    requires Run(START, steps).Some?
    ensures Inv(Run(START, steps).value)
  {
    if steps != [] {
      RetriesAreBounded(steps[..|steps| - 1]);
      StepKeepsInv(Run(START, steps[..|steps| - 1]).value, steps[|steps| - 1]);
    }
  }

  // A run that fails brings its row nearer to its end: the wait is one the schedule has, and
  // the third failure is the last. The first entry of the schedule is never used.
  lemma EveryFailureCounts(s: State, now: int)
    requires Inv(s) && s.worker.Claimed? && s.worker.id in s.rows && !Locked(s, s.worker.id)
    ensures Next(s, Finish(ExtractorError(now))).Some?
    ensures var s' := Next(s, Finish(ExtractorError(now))).value;
            var r, r' := s.rows[s.worker.id], s'.rows[s.worker.id];
            && r'.attempts == r.attempts + 1 && r'.runs == r.runs + 1 && s'.worker.Idle?
            && (r'.state == Failed <==> r'.attempts == 3)
            && (r'.state == Pending <==> r'.attempts < 3)
            && (r'.state == Pending ==>
                  r'.nextAt == Some(now + RETRY_DELAYS[r'.attempts]) && RETRY_DELAYS[r'.attempts] in {120, 600})
  {
  }

  // ----- longer runs -----

  lemma Then(from: State, steps: seq<Step>, s: State, step: Step) returns (steps': seq<Step>, s': State)
    requires Run(from, steps) == Some(s) && Next(s, step).Some?
    ensures steps' == steps + [step] && Next(s, step) == Some(s') && Run(from, steps') == Some(s')
  {
    steps', s' := steps + [step], Next(s, step).value;
    assert steps'[..|steps|] == steps;
  }
}
