/**
 Attachments and the text read out of them: the rows, the one background worker that
 extracts, and the requests that correct, re-queue, edit and delete meanwhile. A step is
 one read or one write that others see; what a request or the worker has read, it keeps.
 */
module AttachmentModel {
  import opened Basics
  import opened Text
  import opened Like
  import opened Utf8Cap

  type AttachmentId = nat
  type RequestId = nat

  datatype ExtractState = Pending | Done | Empty | NotEligible | TooLarge | Failed

  // `runs` is history, not a column: the worker runs completed since the row was queued.
  datatype Row = Row(
    sensitive: bool,
    state: ExtractState,
    attempts: nat,
    nextAt: Option<int>,
    createdAt: int,
    runs: nat)

  // A sealed body stands for the ciphertext that opens to it; the normalised column is set
  // beside a readable body and absent beside a sealed one.
  datatype Body = Readable(text: string) | Sealed(secret: string)

  datatype TextRow = TextRow(body: Body, truncated: bool, corrected: bool)

  // Between runs, holding a claim, or with the text stored and the state still to be set.
  datatype Worker =
    | Idle
    | Claimed(id: AttachmentId, attempts: nat, sensitive: bool)
    | Stored(id: AttachmentId, outcome: ExtractState)

  // A request between its reading and its writing. An edit reads the flag first; then, with the
  // row updated and so locked, a promotion reads the body it will seal. An edit that promotes
  // nothing writes the flag back as it read it.
  datatype Request =
    | Correcting(id: AttachmentId, text: string, sensitive: bool)
    | Requeueing(id: AttachmentId)
    | Loaded(id: AttachmentId, wasSensitive: bool, promote: bool)
    | Editing(id: AttachmentId, wasSensitive: bool, promote: bool, body: Option<string>)

  datatype State = State(
    rows: map<AttachmentId, Row>,
    texts: map<AttachmentId, TextRow>,
    worker: Worker,
    requests: map<RequestId, Request>)

  const RETRY_DELAYS: seq<int> := [30, 120, 600]

  // What a run of the extractor comes to.
  datatype Extraction =
    | Unsuitable
    | TooManyPages
    | ExtractorError(now: int)
    | Extracted(text: string, maxText: int)

  datatype Step =
    | Upload(id: AttachmentId, sensitive: bool, now: int)
    | Claim(id: AttachmentId, now: int)
    | Finish(result: Extraction)
    | MarkStored
    | GiveUp
    | ReadForCorrection(req: RequestId, id: AttachmentId, text: string)
    | WriteCorrection(req: RequestId)
    | ReadForRequeue(req: RequestId, id: AttachmentId)
    | WriteRequeue(req: RequestId, now: int)
    | LoadForEdit(req: RequestId, id: AttachmentId, asked: Option<bool>, archived: bool)
    | BeginEdit(req: RequestId)
    | CommitEdit(req: RequestId)
    | Abandon(req: RequestId)
    | Delete(id: AttachmentId)

  predicate Due(r: Row, now: int) {
    r.state == Pending && (r.nextAt.Some? ==> r.nextAt.value <= now)
  }

  // An edit under way holds the row; every other update of it waits.
  predicate Locked(s: State, id: AttachmentId) {
    exists req :: req in s.requests && s.requests[req].Editing? && s.requests[req].id == id
  }

  function SealIf(sensitive: bool, text: string): Body {
    if sensitive then Sealed(text) else Readable(text)
  }

  // ----- the worker -----

  // A terminal state and no next time; an UPDATE of a deleted row changes nothing.
  function Mark(s: State, id: AttachmentId, state: ExtractState, more: nat): State {
    if id !in s.rows then s
    else
      var r := s.rows[id];
      s.(rows := s.rows[id := r.(state := state, attempts := r.attempts + more, nextAt := None, runs := r.runs + 1)])
  }

  function ScheduleRetry(s: State, id: AttachmentId, when: int): State {
    if id !in s.rows then s
    else
      var r := s.rows[id];
      s.(rows := s.rows[id := r.(attempts := r.attempts + 1, nextAt := Some(when), runs := r.runs + 1)])
  }

  // The upsert, sealed as the claim said; the foreign key refuses it for a deleted row.
  function StoreText(s: State, id: AttachmentId, sensitive: bool, text: string, truncated: bool,
      outcome: ExtractState): State
  {
    if id !in s.rows then s.(worker := Idle)
    else
      s.(texts := s.texts[id := TextRow(SealIf(sensitive, text), truncated, false)],
         worker := Stored(id, outcome))
  }

  // The whole switch of processOne, up to its next commit.
  function Finished(s: State, id: AttachmentId, attempts: nat, sensitive: bool, result: Extraction): State {
    match result
    case Unsuitable => Mark(s, id, NotEligible, 0).(worker := Idle)
    case TooManyPages => Mark(s, id, TooLarge, 0).(worker := Idle)
    case ExtractorError(now) =>
      var next := attempts + 1;
      if next >= |RETRY_DELAYS| then Mark(s, id, Failed, 1).(worker := Idle)
      else ScheduleRetry(s, id, now + RETRY_DELAYS[next]).(worker := Idle)
    case Extracted(text, maxText) =>
      if text == "" then StoreText(s, id, sensitive, "", false, Empty)
      else StoreText(s, id, sensitive, Capped(text, maxText), IsCapped(text, maxText), Done)
  }

  // ----- the requests -----

  function Keep(s: State, req: RequestId, r: Request): State {
    s.(requests := s.requests[req := r])
  }

  function Ended(s: State, req: RequestId): State {
    s.(requests := s.requests - {req})
  }

  // The shape is the one the flag asked for when it was read, whatever the row's state.
  function Corrected(s: State, id: AttachmentId, text: string, sensitive: bool): State {
    if id !in s.rows then s
    else s.(texts := s.texts[id := TextRow(SealIf(sensitive, Trim(text)), false, true)])
  }

  // Whether the reading lets a re-extraction go on.
  predicate MayRequeue(s: State, id: AttachmentId) {
    id in s.rows && !(id in s.texts && s.texts[id].corrected) && s.rows[id].state != Pending
  }

  // The update itself asks for a terminal state again, but not for the correction mark.
  function Requeued(s: State, id: AttachmentId, now: int): State {
    if id !in s.rows || s.rows[id].state == Pending then s
    else
      var queued := s.rows[id].(state := Pending, attempts := 0, nextAt := Some(now), runs := 0);
      s.(rows := s.rows[id := queued])
  }

  // Refused: an archived property, and asking for a sensitive attachment not to be.
  predicate MayEdit(s: State, id: AttachmentId, asked: Option<bool>, archived: bool) {
    id in s.rows && !archived && !(asked == Some(false) && s.rows[id].sensitive)
  }

  // The readable body a promotion finds when it looks.
  function BodyToSeal(s: State, r: Request): Option<string>
    requires r.Loaded?
  {
    if r.promote && !r.wasSensitive && r.id in s.texts && s.texts[r.id].body.Readable?
    then Some(s.texts[r.id].body.text) else None
  }

  predicate Seals(body: Option<string>) {
    body.Some? && body.value != ""
  }

  // The flag, and the body as it was read, sealed, unless it was empty; the correction mark
  // goes with it.
  function Edited(s: State, id: AttachmentId, sensitive: bool, body: Option<string>): State {
    if id !in s.rows then s
    else
      var rows := s.rows[id := s.rows[id].(sensitive := sensitive)];
      if Seals(body) && id in s.texts
      then s.(rows := rows, texts := s.texts[id := TextRow(Sealed(body.value), false, false)])
      else s.(rows := rows)
  }

  function Removed(s: State, id: AttachmentId): State {
    s.(rows := s.rows - {id}, texts := s.texts - {id})
  }

  predicate Holding(w: Worker, id: AttachmentId) {
    !w.Idle? && w.id == id
  }

  // Nobody has a hand on the id: ids are never used twice.
  predicate Fresh(s: State, id: AttachmentId) {
    id !in s.rows && !Holding(s.worker, id) && forall req :: req in s.requests ==> s.requests[req].id != id
  }

  // None: the step cannot be taken now, or the request is refused and changes nothing.
  function Next(s: State, step: Step): Option<State> {
    match step
    case Upload(id, sensitive, now) =>
      if Fresh(s, id)
      then Some(s.(rows := s.rows[id := Row(sensitive, Pending, 0, None, now, 0)], texts := s.texts - {id}))
      else None
    case Claim(id, now) =>
      if s.worker.Idle? && id in s.rows && Due(s.rows[id], now) && !Locked(s, id)
      then Some(s.(worker := Claimed(id, s.rows[id].attempts, s.rows[id].sensitive))) else None
    case Finish(result) =>
      if s.worker.Claimed? && (result.Extracted? || !Locked(s, s.worker.id))
      then Some(Finished(s, s.worker.id, s.worker.attempts, s.worker.sensitive, result)) else None
    case MarkStored =>
      if s.worker.Stored? && !Locked(s, s.worker.id)
      then Some(Mark(s, s.worker.id, s.worker.outcome, 0).(worker := Idle)) else None
    case GiveUp => if s.worker.Idle? then None else Some(s.(worker := Idle))
    case Delete(id) => if id in s.rows && !Locked(s, id) then Some(Removed(s, id)) else None
    case _ => NextOfRequest(s, step)
  }

  function NextOfRequest(s: State, step: Step): Option<State> {
    match step
    case ReadForCorrection(req, id, text) =>
      if req !in s.requests && id in s.rows
      then Some(Keep(s, req, Correcting(id, text, s.rows[id].sensitive))) else None
    case ReadForRequeue(req, id) =>
      if req !in s.requests && MayRequeue(s, id) then Some(Keep(s, req, Requeueing(id))) else None
    case LoadForEdit(req, id, asked, archived) =>
      if req !in s.requests && MayEdit(s, id, asked, archived)
      then Some(Keep(s, req, Loaded(id, s.rows[id].sensitive, asked == Some(true)))) else None
    case WriteCorrection(req) =>
      if req in s.requests && s.requests[req].Correcting? then
        var r := s.requests[req];
        Some(Ended(Corrected(s, r.id, r.text, r.sensitive), req))
      else None
    case WriteRequeue(req, now) =>
      if req in s.requests && s.requests[req].Requeueing? && !Locked(s, s.requests[req].id)
      then Some(Ended(Requeued(s, s.requests[req].id, now), req)) else None
    case BeginEdit(req) =>
      if req in s.requests && s.requests[req].Loaded? && !Locked(s, s.requests[req].id) then
        var r := s.requests[req];
        if r.id in s.rows then Some(Keep(s, req, Editing(r.id, r.wasSensitive, r.promote, BodyToSeal(s, r))))
        else Some(Ended(s, req))
      else None
    case CommitEdit(req) =>
      if req in s.requests && s.requests[req].Editing? then
        var r := s.requests[req];
        Some(Ended(Edited(s, r.id, r.promote || r.wasSensitive, r.body), req))
      else None
    case Abandon(req) => if req in s.requests then Some(Ended(s, req)) else None
    case _ => None
  }

  function Run(s: State, steps: seq<Step>): Option<State> {
    if steps == [] then Some(s)
    else
      var before := Run(s, steps[..|steps| - 1]);
      if before.None? then None else Next(before.value, steps[|steps| - 1])
  }

  const START := State(map[], map[], Idle, map[])

  // ----- what readers get -----

  // The text endpoint: the readable body if there is one; a sealed one only for a row that
  // is sensitive.
  function ReadText(s: State, id: AttachmentId): Option<string>
    requires id in s.rows
  {
    if id !in s.texts then None
    else
      match s.texts[id].body
      case Readable(t) => Some(t)
      case Sealed(t) => if s.rows[id].sensitive then Some(t) else None
  }

  // Document search: LIKE over the normalised column, which a sealed row does not have.
  predicate Found(s: State, canonical: string -> string, q: string, id: AttachmentId) {
    && id in s.rows && id in s.texts && s.texts[id].body.Readable?
    && Matches(canonical(s.texts[id].body.text), Around(Escape(canonical(Trim(q)))))
  }
}
