/**
 What each operation on an attachment comes to when nothing comes between its steps: the
 extraction from its claim to its last mark, a correction, a re-extraction, an edit.
 */
module AttachmentRequests {
  import opened Basics
  import opened Text
  import opened Utf8Cap
  import opened AttachmentModel
  import opened AttachmentTheory

  function TextOf(b: Body): string {
    match b
    case Readable(text) => text
    case Sealed(secret) => secret
  }

  // Nothing but the row, the text and the turn of the worker or request that is served.
  predicate OthersSame(s: State, s': State, id: AttachmentId) {
    && (forall other :: other in s.rows.Keys + s'.rows.Keys && other != id ==>
          other in s.rows && other in s'.rows && s'.rows[other] == s.rows[other])
    && (forall other :: other in s.texts.Keys + s'.texts.Keys && other != id ==>
          other in s.texts && other in s'.texts && s'.texts[other] == s.texts[other])
  }

  // ----- the worker -----

  // Whole characters of the text, and as many of them as fit; no limit keeps all.
  ghost predicate Keeps(kept: string, text: string, maxText: int) {
    && kept <= text && (maxText <= 0 ==> kept == text)
    && (maxText > 0 ==> |Utf8(kept)| <= maxText && forall j :: |kept| < j <= |text| ==> |Utf8(text[..j])| > maxText)
  }

  lemma Uploaded(s: State, id: AttachmentId, sensitive: bool, now: int)
    requires Next(s, Upload(id, sensitive, now)).Some?
    ensures var s' := Next(s, Upload(id, sensitive, now)).value;
            && id !in s.rows && id in s'.rows && id !in s'.texts && OthersSame(s, s', id)
            && s'.rows[id].sensitive == sensitive && s'.rows[id].state == Pending && s'.rows[id].attempts == 0
            && s'.rows[id].createdAt == now
            && forall later :: Due(s'.rows[id], later)
  {
  }

  // A claim is of a queued row whose time has come, and takes its flag and its attempts along.
  lemma ClaimedExactly(s: State, id: AttachmentId, now: int)
    ensures var r := Next(s, Claim(id, now));
            && (r.Some? <==>
                && s.worker.Idle? && id in s.rows && s.rows[id].state == Pending && !Locked(s, id)
                && (s.rows[id].nextAt.None? || s.rows[id].nextAt.value <= now))
            && (r.Some? ==> r.value == s.(worker := Claimed(id, s.rows[id].attempts, s.rows[id].sensitive)))
  {
  }

  // First the text is stored, in the shape the claim asked for ...
  lemma TextIsStored(s: State, id: AttachmentId, text: string, maxText: int) returns (stored: State)
    requires s.worker.Claimed? && id == s.worker.id && id in s.rows
    ensures Next(s, Finish(Extracted(text, maxText))) == Some(stored) && id in stored.texts
    ensures stored == s.(texts := s.texts[id := stored.texts[id]],
                         worker := Stored(id, if text == "" then Empty else Done))
    ensures var row := stored.texts[id];
            && row.body.Sealed? == s.worker.sensitive && !row.corrected && Keeps(TextOf(row.body), text, maxText)
            && (row.truncated <==> TextOf(row.body) != text)
  {
    CappedIsLongest(text, maxText);
    stored := Next(s, Finish(Extracted(text, maxText))).value;
  }

  // ... and then the row ends as done - or as empty, if there was nothing in the text.
  lemma ExtractionEnds(s: State, text: string, maxText: int) returns (stored: State, ended: State)
    requires Inv(s) && s.worker.Claimed? && s.worker.id in s.rows && !Locked(s, s.worker.id)
    ensures Next(s, Finish(Extracted(text, maxText))) == Some(stored) && Next(stored, MarkStored) == Some(ended)
    ensures var id := s.worker.id;
            && id in ended.rows && ended.rows[id].state == (if text == "" then Empty else Done)
            && ended.rows[id].nextAt.None? && ended.rows[id].attempts == s.rows[id].attempts
            && ended.rows[id].sensitive == s.rows[id].sensitive && ended.worker.Idle?
            && id in ended.texts && ended.texts[id].body.Sealed? == s.worker.sensitive && !ended.texts[id].corrected
            && Keeps(TextOf(ended.texts[id].body), text, maxText)
            && (ended.texts[id].truncated <==> TextOf(ended.texts[id].body) != text)
            && OthersSame(s, ended, id) && ended.requests == s.requests
  {
    stored := TextIsStored(s, s.worker.id, text, maxText);
    ended := Next(stored, MarkStored).value;
  }

  lemma NothingExtracted(s: State, result: Extraction)
    requires Inv(s) && s.worker.Claimed? && s.worker.id in s.rows && !Locked(s, s.worker.id)
    requires result.Unsuitable? || result.TooManyPages?
    ensures Next(s, Finish(result)).Some?
    ensures var id, s' := s.worker.id, Next(s, Finish(result)).value;
            && id in s'.rows && s'.rows[id].state == (if result.Unsuitable? then NotEligible else TooLarge)
            && s'.rows[id].nextAt.None? && s'.rows[id].attempts == s.rows[id].attempts && s'.worker.Idle?
            && s'.texts == s.texts && OthersSame(s, s', id)
  {
  }

  // A failed run is taken up again after two minutes, the next one after ten, and the third is
  // the last.
  lemma FailureEnds(s: State, now: int)
    requires Inv(s) && s.worker.Claimed? && s.worker.id in s.rows && !Locked(s, s.worker.id)
    ensures Next(s, Finish(ExtractorError(now))).Some?
    ensures var id, n, s' := s.worker.id, s.worker.attempts, Next(s, Finish(ExtractorError(now))).value;
            && id in s'.rows && s'.rows[id].attempts == s.rows[id].attempts + 1
            && s'.rows[id].nextAt == (if n == 0 then Some(now + 120) else if n == 1 then Some(now + 600) else None)
            && (n < 2 ==> s'.rows[id].state == s.rows[id].state) && (n >= 2 ==> s'.rows[id].state == Failed)
            && s'.texts == s.texts && s'.worker.Idle? && OthersSame(s, s', id)
  {
  }

  // A worker that gives up on a write leaves every table as it is: a claimed row stays due.
  lemma GivesUp(s: State, now: int)
    requires !s.worker.Idle?
    ensures Next(s, GiveUp).Some?
    ensures var s' := Next(s, GiveUp).value;
            && s'.rows == s.rows && s'.texts == s.texts && s'.requests == s.requests
            && forall id :: Next(s', Claim(id, now)).Some? <==> id in s.rows && Due(s.rows[id], now) && !Locked(s, id)
  {
    var s' := Next(s, GiveUp).value;
    assert forall id :: Locked(s', id) <==> Locked(s, id);
  }

  // ----- the requests -----

  // A correction is what readers get from then on, trimmed, and marked as one.
  lemma CorrectionEnds(s: State, req: RequestId, id: AttachmentId, text: string) returns (read: State, ended: State)
    requires req !in s.requests && id in s.rows
    ensures Next(s, ReadForCorrection(req, id, text)) == Some(read) && Next(read, WriteCorrection(req)) == Some(ended)
    ensures && ended.rows == s.rows && id in ended.texts && ended.texts[id].body.Sealed? == s.rows[id].sensitive
            && ended.texts[id].corrected && !ended.texts[id].truncated && ReadText(ended, id) == Some(Trim(text))
            && OthersSame(s, ended, id) && ended.worker == s.worker && ended.requests == s.requests
  {
    read := Next(s, ReadForCorrection(req, id, text)).value;
    ended := Next(read, WriteCorrection(req)).value;
    assert ended.requests == s.requests;
  }

  // A re-extraction is let through for a row that has come to an end and whose text nobody
  // has corrected, and makes it due at once, with all its attempts before it.
  lemma RequeueEnds(s: State, req: RequestId, id: AttachmentId, now: int)
    requires req !in s.requests && !Locked(s, id)
    ensures var read := Next(s, ReadForRequeue(req, id));
            && (read.Some? <==>
                id in s.rows && s.rows[id].state != Pending && !(id in s.texts && s.texts[id].corrected))
            && (read.Some? ==>
                  var ended := Next(read.value, WriteRequeue(req, now));
                  && ended.Some? && ended.value.texts == s.texts && ended.value.requests == s.requests
                  && id in ended.value.rows && Due(ended.value.rows[id], now) && ended.value.rows[id].attempts == 0
                  && !Due(ended.value.rows[id], now - 1)
                  && ended.value.rows[id].sensitive == s.rows[id].sensitive && OthersSame(s, ended.value, id))
  {
    var read := Next(s, ReadForRequeue(req, id));
    if read.Some? {
      assert read.value.requests - {req} == s.requests;
      forall other | other in read.value.requests && read.value.requests[other].Editing?
        ensures read.value.requests[other].id != id
      {
        assert other in s.requests;
      }
    }
  }

  lemma StillUnlocked(s: State, req: RequestId, r: Request, id: AttachmentId)
    requires !Locked(s, id) && !r.Editing?
    ensures !Locked(Keep(s, req, r), id)
  {
    var s' := Keep(s, req, r);
    forall other | other in s'.requests && s'.requests[other].Editing? ensures s'.requests[other].id != id {
      assert other in s.requests;
    }
  }

  // What an edit of a row nobody else is at holds when it comes to its commit.
  lemma EditBegins(s: State, req: RequestId, id: AttachmentId, asked: Option<bool>)
    returns (loaded: State, begun: State)
    requires req !in s.requests && !Locked(s, id) && id in s.rows && !(asked == Some(false) && s.rows[id].sensitive)
    ensures Next(s, LoadForEdit(req, id, asked, false)) == Some(loaded)
    ensures Next(loaded, BeginEdit(req)) == Some(begun) && Locked(begun, id)
    ensures var was, promote := s.rows[id].sensitive, asked == Some(true);
            var body := if promote && !was && id in s.texts && s.texts[id].body.Readable?
                        then Some(s.texts[id].body.text) else None;
            begun == Keep(s, req, Editing(id, was, promote, body))
  {
    loaded := Next(s, LoadForEdit(req, id, asked, false)).value;
    StillUnlocked(s, req, Loaded(id, s.rows[id].sensitive, asked == Some(true)), id);
    begun := Next(loaded, BeginEdit(req)).value;
    assert begun.requests[req].Editing? && begun.requests[req].id == id;
  }

  // An edit can make an attachment sensitive and not the other way. Becoming so seals its
  // text, drops the mark of a correction, and changes nothing for readers.
  lemma EditEnds(s: State, req: RequestId, id: AttachmentId, asked: Option<bool>)
    returns (loaded: State, begun: State, ended: State)
    requires req !in s.requests && !Locked(s, id) && id in s.rows && !(asked == Some(false) && s.rows[id].sensitive)
    ensures Next(s, LoadForEdit(req, id, asked, false)) == Some(loaded)
    ensures Next(loaded, BeginEdit(req)) == Some(begun) && Locked(begun, id) && begun.rows == s.rows
    ensures Next(begun, CommitEdit(req)) == Some(ended)
    ensures && id in ended.rows && ended.rows[id].sensitive == (asked == Some(true) || s.rows[id].sensitive)
            && ended.rows[id] == s.rows[id].(sensitive := ended.rows[id].sensitive)
            && (s.rows[id].sensitive || asked != Some(true) ==> ended.texts == s.texts)
            && (!s.rows[id].sensitive && asked == Some(true) && id in s.texts && s.texts[id].body.Readable? ==>
                  id in ended.texts && ReadText(ended, id) == ReadText(s, id) &&
                  (s.texts[id].body.text != "" ==> ended.texts[id].body.Sealed? && !ended.texts[id].corrected))
            && OthersSame(s, ended, id) && ended.worker == s.worker && ended.requests == s.requests
  {
    loaded, begun := EditBegins(s, req, id, asked);
    ended := Next(begun, CommitEdit(req)).value;
    assert ended.requests == s.requests;
  }

  // It is refused for an archived property, and for making a sensitive attachment readable.
  lemma EditRefusedExactly(s: State, req: RequestId, id: AttachmentId, asked: Option<bool>, archived: bool)
    requires req !in s.requests
    ensures Next(s, LoadForEdit(req, id, asked, archived)).None? <==>
            id !in s.rows || archived || (asked == Some(false) && s.rows[id].sensitive)
  {
  }

  lemma Deleted(s: State, id: AttachmentId)
    ensures var r := Next(s, Delete(id));
            && (r.Some? <==> id in s.rows && !Locked(s, id))
            && (r.Some? ==> id !in r.value.rows && id !in r.value.texts && OthersSame(s, r.value, id))
  {
  }

  // What a reader gets: whatever is readable, and a sealed text of a sensitive attachment only.
  lemma ReadersGet(s: State, id: AttachmentId, text: string)
    requires id in s.rows
    ensures ReadText(s, id) == Some(text) <==>
            && id in s.texts && TextOf(s.texts[id].body) == text
            && (s.texts[id].body.Sealed? ==> s.rows[id].sensitive)
  {
  }
}
