/**
 Runs of the attachment model, from the start, in which a text leaks or a correction or a
 promotion is lost.
 */
module AttachmentExamples {
  import opened Basics
  import opened Text
  import opened AttachmentModel
  import opened AttachmentTheory
  import opened AttachmentCorrections

  // ----- pieces of runs -----

  lemma Uploaded() returns (steps: seq<Step>, s: State)
    ensures Run(START, steps) == Some(s)
    ensures s == State(map[0 := Row(false, Pending, 0, None, 0, 0)], map[], Idle, map[])
  {
    steps, s := Then(START, [], START, Upload(0, false, 0));
  }

  // A correction read and written without anybody in between.
  lemma CorrectionMade(init: seq<Step>, before: State, text: string) returns (steps: seq<Step>, s: State)
    requires Run(START, init) == Some(before) && 0 in before.rows && !before.rows[0].sensitive
    requires 8 !in before.requests
    ensures Run(START, steps) == Some(s)
    ensures s == before.(texts := before.texts[0 := TextRow(Readable(Trim(text)), false, true)])
  {
    steps, s := Then(START, init, before, ReadForCorrection(8, 0, text));
    steps, s := Then(START, steps, s, WriteCorrection(8));
    assert s.requests == before.requests;
  }

  // A promotion that has read its text and is yet to commit.
  lemma PromotionBegun(init: seq<Step>, before: State) returns (steps: seq<Step>, s: State)
    requires Run(START, init) == Some(before) && 0 in before.rows && !before.rows[0].sensitive
    requires 7 !in before.requests && !Locked(before, 0)
    ensures Run(START, steps) == Some(s)
    ensures var body := BodyToSeal(before, Loaded(0, false, true));
            s == before.(requests := before.requests[7 := Editing(0, false, true, body)])
  {
    steps, s := Then(START, init, before, LoadForEdit(7, 0, Some(true), false));
    assert !Locked(s, 0);
    steps, s := Then(START, steps, s, BeginEdit(7));
  }

  lemma PromotionCommitted(init: seq<Step>, before: State, body: Option<string>) returns (steps: seq<Step>, s: State)
    requires Run(START, init) == Some(before) && 7 in before.requests
    requires before.requests[7] == Editing(0, false, true, body)
    ensures Run(START, steps) == Some(s) && s == Ended(Edited(before, 0, true, body), 7)
  {
    steps, s := Then(START, init, before, CommitEdit(7));
  }

  lemma ExtractedEmpty(from: State, init: seq<Step>, before: State) returns (steps: seq<Step>, s: State)
    requires Run(from, init) == Some(before) && before.worker.Idle? && before.requests == map[]
    requires 0 in before.rows && !before.rows[0].sensitive && Due(before.rows[0], 0)
    ensures Run(from, steps) == Some(s) && HasText(s, 0, TextRow(Readable(""), false, false))
  {
    steps, s := Then(from, init, before, Claim(0, 0));
    steps, s := Then(from, steps, s, Finish(Extracted("", 0)));
  }

  // ----- texts and flags -----

  lemma AnOvertakenClaim() returns (steps: seq<Step>, s: State)
    ensures Run(START, steps) == Some(s) && s.worker == Claimed(0, 0, false) && s.requests == map[]
    ensures 0 in s.rows && s.rows[0].sensitive
  {
    steps, s := Uploaded();
    steps, s := Then(START, steps, s, Claim(0, 0));
    steps, s := PromotionBegun(steps, s);
    steps, s := PromotionCommitted(steps, s, None);
  }

  lemma ALeakingRun(text: string) returns (steps: seq<Step>, s: State)
    requires text != ""
    ensures Run(START, steps) == Some(s) && 0 in s.rows && s.rows[0].sensitive && 0 in s.texts
    ensures s.texts[0].body == Readable(text)
  {
    steps, s := AnOvertakenClaim();
    steps, s := Then(START, steps, s, Finish(Extracted(text, 0)));
  }

  lemma AnOvertakenReading(text: string) returns (steps: seq<Step>, s: State)
    ensures Run(START, steps) == Some(s) && s.requests == map[8 := Correcting(0, text, false)]
    ensures 0 in s.rows && s.rows[0].sensitive
  {
    steps, s := Uploaded();
    steps, s := Then(START, steps, s, ReadForCorrection(8, 0, text));
    steps, s := PromotionBegun(steps, s);
    steps, s := PromotionCommitted(steps, s, None);
  }

  lemma ALeakingCorrection(text: string) returns (steps: seq<Step>, s: State)
    requires Trim(text) != ""
    ensures Run(START, steps) == Some(s) && 0 in s.rows && s.rows[0].sensitive && 0 in s.texts
    ensures s.texts[0].body == Readable(Trim(text))
  {
    steps, s := AnOvertakenReading(text);
    steps, s := Then(START, steps, s, WriteCorrection(8));
  }

  lemma ALeakingPromotion(text: string) returns (steps: seq<Step>, s: State)
    requires Trim(text) != ""
    ensures Run(START, steps) == Some(s) && 0 in s.rows && s.rows[0].sensitive && 0 in s.texts
    ensures s.texts[0].body == Readable(Trim(text))
  {
    steps, s := Uploaded();
    steps, s := PromotionBegun(steps, s);
    steps, s := CorrectionMade(steps, s, text);
    steps, s := PromotionCommitted(steps, s, None);
  }

  // A text put there by hand, and a promotion that has read it.
  lemma AReadText(before: string) returns (steps: seq<Step>, s: State)
    ensures Run(START, steps) == Some(s) && 0 in s.rows && !s.rows[0].sensitive
    ensures s.requests == map[7 := Editing(0, false, true, Some(Trim(before)))]
    ensures 0 in s.texts && s.texts[0].body == Readable(Trim(before))
  {
    steps, s := Uploaded();
    steps, s := CorrectionMade(steps, s, before);
    steps, s := PromotionBegun(steps, s);
  }

  lemma OlderTextBack(s: State, before: string) returns (s': State)
    requires 0 in s.rows && 0 in s.texts && before != ""
    requires 7 in s.requests && s.requests[7] == Editing(0, false, true, Some(before))
    ensures Next(s, CommitEdit(7)) == Some(s') && 0 in s'.rows && ReadText(s', 0) == Some(before)
  {
    s' := Next(s, CommitEdit(7)).value;
  }

  // A correction that lands while a promotion is under way is lost: what was there before it
  // is sealed in its place.
  lemma ALostCorrection(before: string, text: string) returns (steps: seq<Step>, s: State, s': State)
    requires Trim(before) != "" && Trim(text) != Trim(before)
    ensures Run(START, steps) == Some(s) && 0 in s.rows && 0 in s.texts && s.texts[0].corrected
    ensures ReadText(s, 0) == Some(Trim(text))
    ensures Next(s, CommitEdit(7)) == Some(s') && 0 in s'.rows && ReadText(s', 0) == Some(Trim(before))
  {
    steps, s := AReadText(before);
    steps, s := CorrectionMade(steps, s, text);
    s' := OlderTextBack(s, Trim(before));
  }

  // A text sealed by a promotion, and an edit that has read the flag before it and is yet to
  // write it back.
  lemma AStaleEdit(text: string) returns (steps: seq<Step>, s: State)
    requires Trim(text) != ""
    ensures Run(START, steps) == Some(s) && 0 in s.rows && s.rows[0].sensitive
    ensures 0 in s.texts && s.texts[0].body == Sealed(Trim(text)) && s.requests == map[9 := Loaded(0, false, false)]
  {
    steps, s := AReadText(text);
    steps, s := Then(START, steps, s, LoadForEdit(9, 0, None, false));
    steps, s := PromotionCommitted(steps, s, Some(Trim(text)));
  }

  // It does: the attachment is not sensitive any more, and its text lost to every reader.
  lemma AnUndonePromotion(text: string) returns (steps: seq<Step>, s: State, more: seq<Step>, s': State)
    requires Trim(text) != ""
    ensures Run(START, steps) == Some(s) && 0 in s.rows && s.rows[0].sensitive && ReadText(s, 0) == Some(Trim(text))
    ensures Run(s, more) == Some(s') && 0 in s'.rows && !s'.rows[0].sensitive && ReadText(s', 0) == None
  {
    steps, s := AStaleEdit(text);
    more, s' := Then(s, [], s, BeginEdit(9));
    more, s' := Then(s, more, s', CommitEdit(9));
  }

  // ----- corrections -----

  // Corrected while queued; the extraction that was due overwrites it.
  lemma AQueuedCorrection(text: string) returns (steps: seq<Step>, s: State, more: seq<Step>, s': State)
    ensures Run(START, steps) == Some(s) && HasText(s, 0, TextRow(Readable(Trim(text)), false, true))
    ensures Run(s, more) == Some(s') && HasText(s', 0, TextRow(Readable(""), false, false))
  {
    steps, s := Uploaded();
    steps, s := CorrectionMade(steps, s, text);
    more, s' := ExtractedEmpty(s, [], s);
  }

  // A request to extract again that has found no correction, and is yet to queue the row.
  lemma ARequestToQueue() returns (steps: seq<Step>, s: State)
    ensures Run(START, steps) == Some(s) && s.requests == map[9 := Requeueing(0)] && s.worker.Idle?
    ensures 0 in s.rows && s.rows[0].state == NotEligible && !s.rows[0].sensitive
  {
    steps, s := Uploaded();
    steps, s := Then(START, steps, s, Claim(0, 0));
    steps, s := Then(START, steps, s, Finish(Unsuitable));
    steps, s := Then(START, steps, s, ReadForRequeue(9, 0));
  }

  lemma ACheckToOvertake(text: string) returns (steps: seq<Step>, s: State)
    ensures Run(START, steps) == Some(s) && s.requests == map[9 := Requeueing(0)] && s.worker.Idle?
    ensures HasText(s, 0, TextRow(Readable(Trim(text)), false, true))
    ensures s.rows[0].state == NotEligible && !s.rows[0].sensitive
  {
    steps, s := ARequestToQueue();
    steps, s := CorrectionMade(steps, s, text);
  }

  // Corrected while it was not queued; the request queues it all the same.
  lemma AnOvertakenCheck(text: string) returns (steps: seq<Step>, s: State, more: seq<Step>, s': State)
    ensures Run(START, steps) == Some(s) && HasText(s, 0, TextRow(Readable(Trim(text)), false, true))
    ensures s.rows[0].state != Pending
    ensures Run(s, more) == Some(s') && HasText(s', 0, TextRow(Readable(""), false, false))
  {
    steps, s := ACheckToOvertake(text);
    more, s' := Then(s, [], s, WriteRequeue(9, 0));
    more, s' := ExtractedEmpty(s, more, s');
  }
}
