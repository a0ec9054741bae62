/**
 The worker and the attachment handlers over mutable tables. Each method is one read or one
 write that others see, proved to take a step of AttachmentModel; the reads and writes of a
 request are two methods, and whatever others do comes between them.
 */
module AttachmentStore {
  import opened Basics
  import opened Text
  import opened Utf8Cap
  import opened AttachmentModel
  import opened AttachmentTheory

  datatype Answer = Accepted | NotFound | AlreadyCorrected | AlreadyQueued | PropertyArchived | DemotionRefused

  // The order of the queue: no next time first, then the earlier next time, then the older row.
  predicate Precedes(r: Row, other: Row) {
    match (r.nextAt, other.nextAt)
    case (None, None) => r.createdAt < other.createdAt
    case (None, Some(_)) => true
    case (Some(_), None) => false
    case (Some(a), Some(b)) => a < b || (a == b && r.createdAt < other.createdAt)
  }

  lemma QueueOrder(r: Row, other: Row)
    ensures r.nextAt.None? && other.nextAt.Some? ==> Precedes(r, other) && !Precedes(other, r)
    ensures r.nextAt.Some? && other.nextAt.Some? && r.nextAt.value < other.nextAt.value ==>
              Precedes(r, other) && !Precedes(other, r)
    ensures r.nextAt == other.nextAt ==> (Precedes(r, other) <==> r.createdAt < other.createdAt)
  {
  }

  predicate Claimable(s: State, id: AttachmentId, now: int) {
    id in s.rows && Due(s.rows[id], now) && !Locked(s, id)
  }

  class Attachments {
    var rows: map<AttachmentId, Row>
    var texts: map<AttachmentId, TextRow>
    var worker: Worker
    var requests: map<RequestId, Request>

    function Current(): State
      reads this
    {
      State(rows, texts, worker, requests)
    }

    constructor ()
      ensures Current() == START
    {
      rows, texts, worker, requests := map[], map[], Idle, map[];
    }

    // ----- the worker -----

    // A first row of the queue, leaving out those locked; nothing is marked, it stays queued.
    method ClaimNext(now: int) returns (claimed: Option<AttachmentId>)
      requires worker.Idle?
      modifies this
      ensures claimed.None? ==> Current() == old(Current()) && forall id :: !Claimable(old(Current()), id, now)
      ensures claimed.Some? ==> Some(Current()) == Next(old(Current()), Claim(claimed.value, now))
      ensures claimed.Some? ==>
                forall id :: Claimable(old(Current()), id, now) ==> !Precedes(old(rows)[id], old(rows)[claimed.value])
    {
      claimed := None;
      var left := rows.Keys;
      while left != {}
        invariant Current() == old(Current()) && left <= rows.Keys
        invariant claimed.Some? ==> Claimable(Current(), claimed.value, now)
        invariant forall id :: Claimable(Current(), id, now) && id !in left ==>
                                 claimed.Some? && !Precedes(rows[id], rows[claimed.value])
        decreases |left|
      {
        var id :| id in left;
        left := left - {id};
        if Claimable(Current(), id, now) && (claimed.None? || Precedes(rows[id], rows[claimed.value])) {
          claimed := Some(id);
        }
      }
      if claimed.Some? {
        worker := Claimed(claimed.value, rows[claimed.value].attempts, rows[claimed.value].sensitive);
      }
    }

    method UpdateState(id: AttachmentId, state: ExtractState, more: nat)
      modifies this
      ensures Current() == Mark(old(Current()), id, state, more)
    {
      if id in rows {
        var r := rows[id];
        rows := rows[id := r.(state := state, attempts := r.attempts + more, nextAt := None, runs := r.runs + 1)];
      }
    }

    method UpdateNextTime(id: AttachmentId, when: int)
      modifies this
      ensures Current() == ScheduleRetry(old(Current()), id, when)
    {
      if id in rows {
        var r := rows[id];
        rows := rows[id := r.(attempts := r.attempts + 1, nextAt := Some(when), runs := r.runs + 1)];
      }
    }

    method UpsertText(id: AttachmentId, sensitive: bool, text: string, truncated: bool, outcome: ExtractState)
      modifies this
      ensures Current() == StoreText(old(Current()), id, sensitive, text, truncated, outcome)
    {
      if id !in rows {
        worker := Idle;
        return;
      }
      var body := if sensitive then Sealed(text) else Readable(text);
      texts := texts[id := TextRow(body, truncated, false)];
      worker := Stored(id, outcome);
    }

    // The rest of processOne, from the extractor's answer to the next commit. The index
    // into the schedule of waits is within it.
    method FinishRun(result: Extraction)
      requires Inv(Current()) && worker.Claimed? && (result.Extracted? || !Locked(Current(), worker.id))
      modifies this
      ensures Some(Current()) == Next(old(Current()), Finish(result)) && Inv(Current())
    {
      FinishKeepsInv(Current(), result);
      var id, attempts, sensitive := worker.id, worker.attempts, worker.sensitive;
      match result {
        case Unsuitable =>
          UpdateState(id, NotEligible, 0);
          worker := Idle;
        case TooManyPages =>
          UpdateState(id, TooLarge, 0);
          worker := Idle;
        case ExtractorError(now) =>
          var next := attempts + 1;
          if next >= |RETRY_DELAYS| {
            UpdateState(id, Failed, 1);
          } else {
            UpdateNextTime(id, now + RETRY_DELAYS[next]);
          }
          worker := Idle;
        case Extracted(text, maxText) =>
          if text == "" {
            UpsertText(id, sensitive, "", false, Empty);
          } else {
            UpsertText(id, sensitive, Capped(text, maxText), IsCapped(text, maxText), Done);
          }
      }
    }

    // markDone, or the second half of markEmpty.
    method SetOutcome()
      requires Inv(Current()) && worker.Stored? && !Locked(Current(), worker.id)
      modifies this
      ensures Some(Current()) == Next(old(Current()), MarkStored) && Inv(Current())
    {
      StepKeepsInv(Current(), MarkStored);
      UpdateState(worker.id, worker.outcome, 0);
      worker := Idle;
    }

    // ----- a correction: the flag is read, and later the text is written -----

    method ReadForCorrection(req: RequestId, id: AttachmentId, raw: string) returns (answer: Answer)
      requires req !in requests
      modifies this
      ensures answer == if id in old(rows) then Accepted else NotFound
      ensures answer.Accepted? ==> Some(Current()) == Next(old(Current()), Step.ReadForCorrection(req, id, raw))
      ensures !answer.Accepted? ==> Current() == old(Current())
    {
      if id !in rows {
        return NotFound;
      }
      requests := requests[req := Correcting(id, raw, rows[id].sensitive)];
      answer := Accepted;
    }

    // Fails if the row has been deleted meanwhile.
    method WriteCorrection(req: RequestId) returns (ok: bool)
      requires Inv(Current()) && req in requests && requests[req].Correcting?
      modifies this
      ensures ok == (old(requests)[req].id in old(rows))
      ensures Some(Current()) == Next(old(Current()), Step.WriteCorrection(req)) && Inv(Current())
    {
      StepKeepsInv(Current(), Step.WriteCorrection(req));
      var id, text, sensitive := requests[req].id, Trim(requests[req].text), requests[req].sensitive;
      ok := id in rows;
      if ok {
        var body := if sensitive then Sealed(text) else Readable(text);
        texts := texts[id := TextRow(body, false, true)];
      }
      requests := requests - {req};
    }

    // ----- extracting again: the mark and the state are read, and later the row is queued -----

    method ReadForRequeue(req: RequestId, id: AttachmentId) returns (answer: Answer)
      requires req !in requests
      modifies this
      ensures answer ==
              if id !in old(rows) then NotFound
              else if id in old(texts) && old(texts)[id].corrected then AlreadyCorrected
              else if old(rows)[id].state == Pending then AlreadyQueued
              else Accepted
      ensures answer.Accepted? ==> Some(Current()) == Next(old(Current()), Step.ReadForRequeue(req, id))
      ensures !answer.Accepted? ==> Current() == old(Current())
    {
      if id !in rows {
        return NotFound;
      }
      if id in texts && texts[id].corrected {
        return AlreadyCorrected;
      }
      if rows[id].state == Pending {
        return AlreadyQueued;
      }
      requests := requests[req := Requeueing(id)];
      answer := Accepted;
    }

    // The update looks at the state again, and not at the mark.
    method WriteRequeue(req: RequestId, now: int) returns (ok: bool)
      requires Inv(Current()) && req in requests && requests[req].Requeueing? && !Locked(Current(), requests[req].id)
      modifies this
      ensures var id := old(requests)[req].id; ok == (id in old(rows) && old(rows)[id].state != Pending)
      ensures Some(Current()) == Next(old(Current()), Step.WriteRequeue(req, now)) && Inv(Current())
    {
      StepKeepsInv(Current(), Step.WriteRequeue(req, now));
      var id := requests[req].id;
      ok := id in rows && rows[id].state != Pending;
      if ok {
        rows := rows[id := rows[id].(state := Pending, attempts := 0, nextAt := Some(now), runs := 0)];
      }
      requests := requests - {req};
    }

    // ----- an edit: the flag is read, the row updated and the text to seal read, the text sealed -----

    method LoadForEdit(req: RequestId, id: AttachmentId, asked: Option<bool>, archived: bool) returns (answer: Answer)
      requires req !in requests
      modifies this
      ensures answer ==
              if id !in old(rows) then NotFound
              else if archived then PropertyArchived
              else if asked == Some(false) && old(rows)[id].sensitive then DemotionRefused
              else Accepted
      ensures answer.Accepted? ==> Some(Current()) == Next(old(Current()), Step.LoadForEdit(req, id, asked, archived))
      ensures !answer.Accepted? ==> Current() == old(Current())
    {
      if id !in rows {
        return NotFound;
      }
      if archived {
        return PropertyArchived;
      }
      if asked == Some(false) && rows[id].sensitive {
        return DemotionRefused;
      }
      requests := requests[req := Loaded(id, rows[id].sensitive, asked == Some(true))];
      answer := Accepted;
    }

    // From here to its end the request holds the row. Fails if the row has been deleted.
    method BeginEdit(req: RequestId) returns (ok: bool)
      requires Inv(Current()) && req in requests && requests[req].Loaded? && !Locked(Current(), requests[req].id)
      modifies this
      ensures ok == (old(requests)[req].id in old(rows)) == (req in requests)
      ensures ok ==> Locked(Current(), old(requests)[req].id)
      ensures Some(Current()) == Next(old(Current()), Step.BeginEdit(req)) && Inv(Current())
    {
      StepKeepsInv(Current(), Step.BeginEdit(req));
      var r := requests[req];
      if r.id !in rows {
        requests := requests - {req};
        return false;
      }
      var body: Option<string> := None;
      if r.promote && !r.wasSensitive && r.id in texts && texts[r.id].body.Readable? {
        body := Some(texts[r.id].body.text);
      }
      requests := requests[req := Editing(r.id, r.wasSensitive, r.promote, body)];
      assert req in Current().requests && Current().requests[req].Editing? && Current().requests[req].id == r.id;
      ok := true;
    }

    method CommitEdit(req: RequestId)
      requires Inv(Current()) && req in requests && requests[req].Editing?
      modifies this
      ensures Some(Current()) == Next(old(Current()), Step.CommitEdit(req)) && Inv(Current())
      ensures var r := old(requests)[req];
              r.id in rows && rows[r.id].sensitive == (r.promote || r.wasSensitive) && !Locked(Current(), r.id)
    {
      StepKeepsInv(Current(), Step.CommitEdit(req));
      CommitUnlocks(Current(), req);
      var r := requests[req];
      rows := rows[r.id := rows[r.id].(sensitive := r.promote || r.wasSensitive)];
      if r.body.Some? && r.body.value != "" && r.id in texts {
        texts := texts[r.id := TextRow(Sealed(r.body.value), false, false)];
      }
      requests := requests - {req};
    }

    // ----- readers -----

    method GetText(id: AttachmentId) returns (found: bool, text: Option<string>)
      ensures found == (id in rows)
      ensures found ==> text == ReadText(Current(), id)
    {
      if id !in rows {
        return false, None;
      }
      found, text := true, None;
      if id in texts {
        if texts[id].body.Readable? {
          text := Some(texts[id].body.text);
        } else if rows[id].sensitive {
          text := Some(texts[id].body.secret);
        }
      }
    }
  }

  lemma CommitUnlocks(s: State, req: RequestId)
    requires Inv(s) && req in s.requests && s.requests[req].Editing?
    ensures var id, s' := s.requests[req].id, Next(s, Step.CommitEdit(req)).value;
            id in s.rows && id in s'.rows && !Locked(s', id)
  {
    assert RequestOk(s, s.requests[req]);
    var id, s' := s.requests[req].id, Next(s, Step.CommitEdit(req)).value;
    forall other | other in s'.requests && s'.requests[other].Editing? ensures s'.requests[other].id != id {
      assert !BothEditing(s.requests, req, other);
    }
  }
}
