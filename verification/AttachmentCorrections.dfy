/**
 A text corrected by hand: what the worker, the promotions and the requests to extract again
 can do to it, and when nothing they do, in whatever order, will ever change it.
 */
module AttachmentCorrections {
  import opened Basics
  import opened Text
  import opened AttachmentModel
  import opened AttachmentTheory

  // Not a deletion, not another correction, not a promotion that seals the text and clears
  // the mark. A promotion that leaves the mark is one of the steps allowed.
  predicate LeavesAlone(s: State, step: Step, id: AttachmentId) {
    match step
    case Delete(other) => other != id
    case WriteCorrection(req) => req in s.requests ==> s.requests[req].id != id
    case CommitEdit(req) =>
      req in s.requests && s.requests[req].id == id && s.requests[req].Editing? ==> !Seals(s.requests[req].body)
    case _ => true
  }

  predicate AllLeaveAlone(s: State, steps: seq<Step>, id: AttachmentId) {
    steps != [] ==>
      var before := Run(s, steps[..|steps| - 1]);
      AllLeaveAlone(s, steps[..|steps| - 1], id) && (before.Some? ==> LeavesAlone(before.value, steps[|steps| - 1], id))
  }

  predicate AboutToQueue(requests: map<RequestId, Request>, id: AttachmentId) {
    exists req :: req in requests && requests[req] == Requeueing(id)
  }

  predicate HasText(s: State, id: AttachmentId, text: TextRow) {
    id in s.rows && id in s.texts && s.texts[id] == text
  }

  // Whatever the others do from here, the text stays as it is.
  ghost predicate IsSafe(s: State, id: AttachmentId, text: TextRow) {
    forall steps :: AllLeaveAlone(s, steps, id) && Run(s, steps).Some? ==> HasText(Run(s, steps).value, id, text)
  }

  // ----- a row that is not queued, and that nobody is about to queue -----

  predicate Settled(s: State, id: AttachmentId, text: TextRow) {
    HasText(s, id, text) && text.corrected && s.rows[id].state != Pending && !AboutToQueue(s.requests, id)
  }

  lemma RequestKeepsSettled(s: State, id: AttachmentId, text: TextRow, step: Step)
    requires Inv(s) && Settled(s, id, text) && LeavesAlone(s, step, id) && NextOfRequest(s, step).Some?
    ensures Settled(NextOfRequest(s, step).value, id, text)
  {
    var s' := NextOfRequest(s, step).value;
    forall req | req in s'.requests ensures s'.requests[req] != Requeueing(id) {
      if req in s.requests {
        assert s.requests[req] != Requeueing(id);
      }
    }
    if step.WriteRequeue? {
      assert s.requests[step.req] != Requeueing(id);
    }
  }

  lemma StepKeepsSettled(s: State, id: AttachmentId, text: TextRow, step: Step)
    requires Inv(s) && Settled(s, id, text) && LeavesAlone(s, step, id) && Next(s, step).Some?
    ensures Settled(Next(s, step).value, id, text)
  {
    match step
    case Finish(result) => assert s.worker.id != id;
    case MarkStored => assert s.worker.id != id;
    case Upload(_, _, _) =>
    case Claim(_, _) =>
    case GiveUp =>
    case Delete(_) =>
    case _ => RequestKeepsSettled(s, id, text, step);
  }

  lemma {:induction false} RunKeepsSettled(s: State, id: AttachmentId, text: TextRow, steps: seq<Step>)
    requires Inv(s) && Settled(s, id, text) && AllLeaveAlone(s, steps, id) && Run(s, steps).Some?
    ensures Inv(Run(s, steps).value) && Settled(Run(s, steps).value, id, text)
  {
    if steps != [] {
      var init := steps[..|steps| - 1];
      RunKeepsSettled(s, id, text, init);
      StepKeepsInv(Run(s, init).value, steps[|steps| - 1]);
      StepKeepsSettled(Run(s, init).value, id, text, steps[|steps| - 1]);
    }
  }

  // ----- every other row -----

  lemma ThenAlone(from: State, steps: seq<Step>, s: State, step: Step, id: AttachmentId)
    returns (steps': seq<Step>, s': State)
    requires Inv(s) && Run(from, steps) == Some(s) && AllLeaveAlone(from, steps, id)
    requires Next(s, step).Some? && LeavesAlone(s, step, id)
    ensures Next(s, step) == Some(s') && Inv(s') && Run(from, steps') == Some(s') && AllLeaveAlone(from, steps', id)
  {
    StepKeepsInv(s, step);
    steps', s' := Then(from, steps, s, step);
    assert steps'[..|steps|] == steps;
  }

  // An edit under way can always be given up.
  lemma Unlocked(s: State, id: AttachmentId) returns (steps: seq<Step>, s': State)
    requires Inv(s)
    ensures Inv(s') && Run(s, steps) == Some(s') && AllLeaveAlone(s, steps, id) && !Locked(s', id)
    ensures s'.rows == s.rows && AboutToQueue(s'.requests, id) == AboutToQueue(s.requests, id)
  {
    steps, s' := [], s;
    if Locked(s, id) {
      var req :| req in s.requests && s.requests[req].Editing? && s.requests[req].id == id;
      steps, s' := ThenAlone(s, steps, s', Abandon(req), id);
      forall other | other in s'.requests && s'.requests[other].Editing? ensures s'.requests[other].id != id {
        assert !BothEditing(s.requests, req, other);
      }
      if AboutToQueue(s.requests, id) {
        var other :| other in s.requests && s.requests[other] == Requeueing(id);
        assert other in s'.requests && s'.requests[other] == Requeueing(id);
      }
    }
  }

  // A queued row the worker may claim is one whose text it may overwrite.
  lemma QueuedIsOverwritten(from: State, init: seq<Step>, s: State, id: AttachmentId)
    returns (steps: seq<Step>, s': State)
    requires Inv(s) && Run(from, init) == Some(s) && AllLeaveAlone(from, init, id)
    requires id in s.rows && s.rows[id].state == Pending && !Locked(s, id)
    ensures Run(from, steps) == Some(s') && AllLeaveAlone(from, steps, id) && id in s'.texts && !s'.texts[id].corrected
  {
    steps, s' := init, s;
    if !s.worker.Idle? {
      steps, s' := ThenAlone(from, steps, s', GiveUp, id);
    }
    var due := if s.rows[id].nextAt.Some? then s.rows[id].nextAt.value else 0;
    steps, s' := ThenAlone(from, steps, s', Claim(id, due), id);
    steps, s' := ThenAlone(from, steps, s', Finish(Extracted("", 0)), id);
  }

  lemma UnsettledIsOverwritten(s: State, id: AttachmentId) returns (steps: seq<Step>, s': State)
    requires Inv(s) && id in s.rows && (s.rows[id].state == Pending || AboutToQueue(s.requests, id))
    ensures Run(s, steps) == Some(s') && AllLeaveAlone(s, steps, id) && id in s'.texts && !s'.texts[id].corrected
  {
    steps, s' := Unlocked(s, id);
    if s'.rows[id].state != Pending {
      var req :| req in s'.requests && s'.requests[req] == Requeueing(id);
      ghost var was := s'.requests;
      steps, s' := ThenAlone(s, steps, s', WriteRequeue(req, 0), id);
      assert s'.requests == was - {req} && !Locked(s', id);
    }
    steps, s' := QueuedIsOverwritten(s, steps, s', id);
  }

  // ----- exactly when -----

  lemma SafeExactly(s: State, id: AttachmentId, text: TextRow)
    requires Inv(s) && HasText(s, id, text) && text.corrected
    ensures IsSafe(s, id, text) <==> s.rows[id].state != Pending && !AboutToQueue(s.requests, id)
  {
    if s.rows[id].state != Pending && !AboutToQueue(s.requests, id) {
      forall steps | AllLeaveAlone(s, steps, id) && Run(s, steps).Some?
        ensures HasText(Run(s, steps).value, id, text)
      {
        RunKeepsSettled(s, id, text, steps);
      }
    } else {
      var steps, s' := UnsettledIsOverwritten(s, id);
      assert !HasText(Run(s, steps).value, id, text);
    }
  }

  // A correction just written is safe if and only if its row was not queued and no request
  // that had found it uncorrected is about to queue it.
  lemma CorrectionIsSafeExactly(s: State, req: RequestId)
    requires Inv(s) && req in s.requests && s.requests[req].Correcting? && s.requests[req].id in s.rows
    ensures var r, s' := s.requests[req], Next(s, WriteCorrection(req)).value;
            r.id in s'.texts && s'.texts[r.id] == TextRow(SealIf(r.sensitive, Trim(r.text)), false, true) &&
            (IsSafe(s', r.id, s'.texts[r.id]) <==>
             s.rows[r.id].state != Pending && !AboutToQueue(s.requests, r.id))
  {
    var r, s' := s.requests[req], Next(s, WriteCorrection(req)).value;
    StepKeepsInv(s, WriteCorrection(req));
    if AboutToQueue(s.requests, r.id) {
      var other :| other in s.requests && s.requests[other] == Requeueing(r.id);
      assert other in s'.requests && s'.requests[other] == Requeueing(r.id);
    }
    SafeExactly(s', r.id, s'.texts[r.id]);
  }
}
