/**
 What the chunked format guarantees: the reader and the writer agree exactly when the
 declared length is the true one, and no ciphertext makes the reader write anything but
 a chunk-aligned prefix of what was sealed.
 */
module ChunkedTheory {
  import opened Basics
  import opened Bytes
  import opened Aead
  import opened ChunkedFormat

  // ----- what the writer accepts -----

  // Chunk reads it takes to use up a declared length.
  function ReadsFor(length: int): nat
    requires length > 0
  {
    (length + CHUNK_SIZE - 1) / CHUNK_SIZE
  }

  // The writer reports success for more pairs than the equal ones: a source that ends
  // inside a chunk read goes through whatever was declared beyond it, and so does one
  // that runs on to the end of the last chunk read.
  lemma {:induction false} StreamAcceptsExactly(src: bytes, declared: int)
    ensures StreamFault(src, declared).None? <==>
            if declared <= 0 then src == []
            else
              && 0 < |src| <= ReadsFor(declared) * CHUNK_SIZE
              && (|src| % CHUNK_SIZE != 0 || |src| == ReadsFor(declared) * CHUNK_SIZE)
    decreases |src|
  {
    if declared > 0 && |src| >= CHUNK_SIZE && declared != CHUNK_SIZE {
      var rest := src[CHUNK_SIZE..];
      StreamAcceptsExactly(rest, declared - CHUNK_SIZE);
      assert |rest| % CHUNK_SIZE == |src| % CHUNK_SIZE;
      if declared > CHUNK_SIZE {
        assert ReadsFor(declared - CHUNK_SIZE) == ReadsFor(declared) - 1;
      }
    }
  }

  // ----- the table of a run -----

  lemma TableLast(seal: Sealer, prefix: bytes, chunks: seq<Chunk>, c: Chunk)
    ensures Table(seal, prefix, chunks + [c]) == Table(seal, prefix, chunks)[ChunkBox(seal, prefix, c) := c.plain]
  {
    assert (chunks + [c])[..|chunks|] == chunks;
  }

  lemma {:induction false} TableHas(seal: Sealer, prefix: bytes, chunks: seq<Chunk>, i: nat)
    requires Sound(seal) && i < |chunks|
    ensures ChunkBox(seal, prefix, chunks[i]) in Table(seal, prefix, chunks)
    ensures Table(seal, prefix, chunks)[ChunkBox(seal, prefix, chunks[i])] == chunks[i].plain
  {
    var n := |chunks| - 1;
    if i < n {
      TableHas(seal, prefix, chunks[..n], i);
    }
  }

  lemma {:induction false} TableOnly(seal: Sealer, prefix: bytes, chunks: seq<Chunk>, b: Box) returns (i: nat)
    requires b in Table(seal, prefix, chunks)
    ensures i < |chunks| && b == ChunkBox(seal, prefix, chunks[i]) && Table(seal, prefix, chunks)[b] == chunks[i].plain
  {
    var n := |chunks| - 1;
    if b == ChunkBox(seal, prefix, chunks[n]) {
      i := n;
    } else {
      i := TableOnly(seal, prefix, chunks[..n], b);
    }
  }

  // ----- the shape of a run's chunks -----

  lemma {:induction false} ChunkShape(src: bytes, remaining: int, index: nat, i: nat)
    requires i < |Chunks(src, remaining, index)|
    ensures var chunks := Chunks(src, remaining, index);
            && chunks[i].index == index + i && 0 < |chunks[i].plain| <= CHUNK_SIZE
            && (i + 1 < |chunks| ==> |chunks[i].plain| == CHUNK_SIZE && !chunks[i].final)
    decreases |src|
  {
    var n := Min(CHUNK_SIZE, |src|);
    if i > 0 {
      ChunkShape(src[n..], remaining - n, index + 1, i - 1);
    }
  }

  // What a successful run seals is the source, all of it.
  lemma {:induction false} AcceptedPlain(src: bytes, remaining: int, index: nat)
    requires StreamFault(src, remaining).None?
    ensures Plain(Chunks(src, remaining, index)) == src
    decreases |src|
  {
    if remaining > 0 && src != [] {
      var n := Min(CHUNK_SIZE, |src|);
      if n == CHUNK_SIZE && remaining != n {
        AcceptedPlain(src[n..], remaining - n, index + 1);
      }
      assert src == src[..n] + src[n..];
    }
  }

  // An accepted run marks a chunk final exactly when the declared length was right.
  lemma {:induction false} FinalMeansExact(src: bytes, remaining: int, index: nat, i: nat)
    requires StreamFault(src, remaining).None? && i < |Chunks(src, remaining, index)|
    requires Chunks(src, remaining, index)[i].final
    ensures remaining == |src|
    decreases |src|
  {
    var n := Min(CHUNK_SIZE, |src|);
    if i > 0 {
      FinalMeansExact(src[n..], remaining - n, index + 1, i - 1);
    }
  }

  // ----- reading back what was written -----

  ghost predicate Holds(seal: Sealer, prefix: bytes, boxes: map<Box, bytes>, chunks: seq<Chunk>) {
    forall i :: 0 <= i < |chunks| ==>
      ChunkBox(seal, prefix, chunks[i]) in boxes && boxes[ChunkBox(seal, prefix, chunks[i])] == chunks[i].plain
  }

  // One step of the reader over a genuine chunk at the front of the ciphertext.
  lemma OpenGenuine(seal: Sealer, prefix: bytes, boxes: map<Box, bytes>, c: Chunk, remaining: int, ct: bytes)
    requires Sound(seal) && Holds(seal, prefix, boxes, [c])
    requires 0 < remaining && c.final == (remaining <= CHUNK_SIZE)
    requires |c.plain| == if c.final then remaining else CHUNK_SIZE
    ensures var rest := OpenRun(boxes, prefix, CHUNK_SIZE, remaining - |c.plain|, c.index + 1, ct);
            OpenRun(boxes, prefix, CHUNK_SIZE, remaining, c.index, ChunkBox(seal, prefix, c).ct + ct) ==
            rest.(written := c.plain + rest.written)
  {
    var box := ChunkBox(seal, prefix, c);
    assert [c][0] == c;
    assert (box.ct + ct)[..|box.ct|] == box.ct && (box.ct + ct)[|box.ct|..] == ct;
  }

  lemma HoldsSplit(seal: Sealer, prefix: bytes, boxes: map<Box, bytes>, chunks: seq<Chunk>)
    requires chunks != [] && Holds(seal, prefix, boxes, chunks)
    ensures Holds(seal, prefix, boxes, [chunks[0]]) && Holds(seal, prefix, boxes, chunks[1..])
  {
  }

  // An exact run, taken apart at its first chunk.
  lemma ExactRunSplits(src: bytes, index: nat)
    requires src != []
    ensures var n := Min(CHUNK_SIZE, |src|);
            var rest := if |src| <= CHUNK_SIZE then [] else Chunks(src[n..], |src| - n, index + 1);
            Chunks(src, |src|, index) == [Chunk(index, |src| <= CHUNK_SIZE, src[..n])] + rest
  {
  }

  lemma FramesFirst(seal: Sealer, prefix: bytes, c: Chunk, rest: seq<Chunk>, k: nat)
    requires 0 < k <= 1 + |rest|
    ensures ([c] + rest)[..k] == [c] + rest[..k - 1]
    ensures Frames(seal, prefix, ([c] + rest)[..k]) == ChunkBox(seal, prefix, c).ct +
              Frames(seal, prefix, rest[..k - 1])
    ensures Plain(([c] + rest)[..k]) == c.plain + Plain(rest[..k - 1])
  {
    assert ([c] + rest[..k - 1])[1..] == rest[..k - 1];
  }

  lemma ReadNone(seal: Sealer, prefix: bytes, boxes: map<Box, bytes>, src: bytes, index: nat, chunks: seq<Chunk>)
    requires chunks == [] <==> src == []
    ensures ReadsFrames(seal, prefix, boxes, src, index, chunks, 0)
  {
    assert chunks[..0] == [];
  }

  // The first `k` frames of an exact run, read by a reader that expects all of it.
  lemma {:induction false} ReadFrames(seal: Sealer, prefix: bytes, boxes: map<Box, bytes>, src: bytes, index: nat,
                                      chunks: seq<Chunk>, k: nat)
    requires Sound(seal) && chunks == Chunks(src, |src|, index) && k <= |chunks|
    requires Holds(seal, prefix, boxes, chunks)
    ensures ReadsFrames(seal, prefix, boxes, src, index, chunks, k)
    decreases |src|
  {
    if k == 0 {
      ReadNone(seal, prefix, boxes, src, index, chunks);
    } else {
      var n := Min(CHUNK_SIZE, |src|);
      var later, rest := src[n..], chunks[1..];
      ExactRunSplits(src, index);
      HoldsSplit(seal, prefix, boxes, chunks);
      if |src| > CHUNK_SIZE {
        assert rest == Chunks(later, |later|, index + 1);
        ReadFrames(seal, prefix, boxes, later, index + 1, rest, k - 1);
      } else {
        ReadNone(seal, prefix, boxes, later, index + 1, rest);
      }
      assert chunks == [chunks[0]] + rest;
      ReadOneMore(seal, prefix, boxes, src, later, index, chunks[0], rest, k);
    }
  }

  ghost predicate ReadsFrames(seal: Sealer, prefix: bytes, boxes: map<Box, bytes>, src: bytes, index: nat,
                              chunks: seq<Chunk>, k: nat)
    requires k <= |chunks|
  {
    OpenRun(boxes, prefix, CHUNK_SIZE, |src|, index, Frames(seal, prefix, chunks[..k])) ==
    Opened(Plain(chunks[..k]), if k == |chunks| then None else Some(Truncated), [])
  }

  lemma ReadOneMore(seal: Sealer, prefix: bytes, boxes: map<Box, bytes>, src: bytes, later: bytes, index: nat,
                    c: Chunk, rest: seq<Chunk>, k: nat)
    requires Sound(seal) && Holds(seal, prefix, boxes, [c]) && 0 < k <= 1 + |rest| && src != []
    requires c.index == index && c.final == (|src| <= CHUNK_SIZE)
    requires |c.plain| == (if c.final then |src| else CHUNK_SIZE) && |later| == |src| - |c.plain|
    requires ReadsFrames(seal, prefix, boxes, later, index + 1, rest, k - 1)
    ensures ReadsFrames(seal, prefix, boxes, src, index, [c] + rest, k)
  {
    FramesFirst(seal, prefix, c, rest, k);
    OpenGenuine(seal, prefix, boxes, c, |src|, Frames(seal, prefix, rest[..k - 1]));
  }

  lemma OwnTableHolds(seal: Sealer, prefix: bytes, chunks: seq<Chunk>)
    requires Sound(seal)
    ensures Holds(seal, prefix, Table(seal, prefix, chunks), chunks)
  {
    forall i | 0 <= i < |chunks|
      ensures ChunkBox(seal, prefix, chunks[i]) in Table(seal, prefix, chunks)
      ensures Table(seal, prefix, chunks)[ChunkBox(seal, prefix, chunks[i])] == chunks[i].plain
    {
      TableHas(seal, prefix, chunks, i);
    }
  }

  // ----- a reader only succeeds on a final chunk -----

  ghost predicate HasFinal(boxes: map<Box, bytes>) {
    exists box, i: nat :: box in boxes && box.aad == ChunkAad(i, true)
  }

  lemma {:induction false} SuccessOpensFinal(seal: Sealer, boxes: map<Box, bytes>, prefix: bytes, chunkSize: nat,
                                             remaining: int, index: nat, ct: bytes)
    requires Sound(seal) && SealedBy(seal, boxes) && chunkSize > 0 && remaining > 0
    requires OpenRun(boxes, prefix, chunkSize, remaining, index, ct).error.None?
    ensures HasFinal(boxes)
    decreases |ct|
  {
    var final := remaining <= chunkSize;
    var need := (if final then remaining else chunkSize) + TAG_SIZE;
    var box := Box(ChunkNonce(prefix, index), ChunkAad(index, final), ct[..need]);
    assert box in boxes;
    if !final {
      SuccessOpensFinal(seal, boxes, prefix, chunkSize, remaining - |boxes[box]|, index + 1, ct[need..]);
    }
  }

  lemma TableSealed(seal: Sealer, prefix: bytes, chunks: seq<Chunk>)
    ensures SealedBy(seal, Table(seal, prefix, chunks))
  {
    forall b | b in Table(seal, prefix, chunks) ensures b.ct == seal(b.nonce, Table(seal, prefix, chunks)[b], b.aad) {
      var i := TableOnly(seal, prefix, chunks, b);
    }
  }

  // A run the writer accepted, read back with the header it wrote: it succeeds exactly
  // when the declared length was the length of the source, and then gives the source back.
  lemma OwnOutputOpensExactly(seal: Sealer, prefix: bytes, src: bytes, declared: int)
    requires Sound(seal) && StreamFault(src, declared).None?
    ensures var chunks := Chunks(src, declared, 0);
            var r := OpenRun(Table(seal, prefix, chunks), prefix, CHUNK_SIZE, declared, 0,
                Frames(seal, prefix, chunks));
            && (r.error.None? <==> declared == |src|)
            && (declared == |src| ==> r == Opened(src, None, []))
  {
    var chunks := Chunks(src, declared, 0);
    var boxes, ct := Table(seal, prefix, chunks), Frames(seal, prefix, chunks);
    AcceptedPlain(src, declared, 0);
    if declared == |src| {
      OwnTableHolds(seal, prefix, chunks);
      assert chunks[..|chunks|] == chunks;
      ReadFrames(seal, prefix, boxes, src, 0, chunks, |chunks|);
    } else if declared > 0 && OpenRun(boxes, prefix, CHUNK_SIZE, declared, 0, ct).error.None? {
      TableSealed(seal, prefix, chunks);
      SuccessOpensFinal(seal, boxes, prefix, CHUNK_SIZE, declared, 0, ct);
      var box, i: nat :| box in boxes && box.aad == ChunkAad(i, true);
      var k := TableOnly(seal, prefix, chunks, box);
      AadDetermines(i, true, chunks[k].index, chunks[k].final);
      FinalMeansExact(src, declared, 0, k);
    }
  }

  // One byte declared as two: the writer reports success, and nothing can read it back.
  lemma AcceptedButUnreadable(seal: Sealer, prefix: bytes, b: byte)
    requires Sound(seal)
    ensures StreamFault([b], 2).None?
    ensures var chunks := Chunks([b], 2, 0);
            OpenRun(Table(seal, prefix, chunks), prefix, CHUNK_SIZE, 2, 0, Frames(seal, prefix, chunks)).error.Some?
  {
    OwnOutputOpensExactly(seal, prefix, [b], 2);
  }

  // Verification failing later does not take back what earlier chunks already wrote: a
  // genuine stream cut after `k` frames is refused, with exactly `k` chunks written.
  lemma CutStreamHasWrittenItsFrames(seal: Sealer, prefix: bytes, src: bytes, k: nat)
    requires Sound(seal) && k < |Chunks(src, |src|, 0)|
    ensures var chunks := Chunks(src, |src|, 0);
            OpenRun(Table(seal, prefix, chunks), prefix, CHUNK_SIZE, |src|, 0, Frames(seal, prefix, chunks[..k])) ==
            Opened(Plain(chunks[..k]), Some(Truncated), [])
  {
    var chunks := Chunks(src, |src|, 0);
    OwnTableHolds(seal, prefix, chunks);
    ReadFrames(seal, prefix, Table(seal, prefix, chunks), src, 0, chunks, k);
  }

  // ----- when a failing reading has written nothing -----

  ghost predicate NoEmptyPlaintext(boxes: map<Box, bytes>) {
    forall b :: b in boxes ==> boxes[b] != []
  }

  // The first thing a reading asks of the key, if it asks anything, opens.
  predicate FirstChunkOpens(boxes: map<Box, bytes>, other: bytes, chunkSize: nat, claimed: int, ct: bytes) {
    && claimed > 0 && NextBox(other, chunkSize, claimed, 0, ct).Some?
    && NextBox(other, chunkSize, claimed, 0, ct).value in boxes
  }

  // Whatever the ciphertext and the header: a reading leaves something written exactly if
  // its first chunk opens - however it ends. So a failing one leaves nothing behind exactly
  // if it fails before or at the first chunk.
  lemma WritesNothingExactly(boxes: map<Box, bytes>, other: bytes, chunkSize: nat, claimed: int, ct: bytes)
    requires chunkSize > 0 && NoEmptyPlaintext(boxes)
    ensures OpenRun(boxes, other, chunkSize, claimed, 0, ct).written == [] <==>
            !FirstChunkOpens(boxes, other, chunkSize, claimed, ct)
    ensures claimed != 0 && !FirstChunkOpens(boxes, other, chunkSize, claimed, ct) ==>
              OpenRun(boxes, other, chunkSize, claimed, 0, ct).error.Some?
  {
    if FirstChunkOpens(boxes, other, chunkSize, claimed, ct) {
      var later := OpenGoesOn(boxes, other, chunkSize, claimed, 0, ct, NextBox(other, chunkSize, claimed, 0, ct).value);
    } else {
      OpenStops(boxes, other, chunkSize, claimed, 0, ct);
    }
  }

  // The writer seals no empty chunk.
  lemma RunSealsNoEmptyPlaintext(seal: Sealer, prefix: bytes, src: bytes, declared: int)
    ensures NoEmptyPlaintext(Table(seal, prefix, Chunks(src, declared, 0)))
  {
    var chunks := Chunks(src, declared, 0);
    var boxes := Table(seal, prefix, chunks);
    forall b | b in boxes ensures boxes[b] != [] {
      var k := TableOnly(seal, prefix, chunks, b);
      ChunkShape(src, declared, 0, k);
    }
  }

  // One byte more than a chunk, cut after the first frame: refused, the first chunk written.
  lemma APartialFile(seal: Sealer, prefix: bytes) returns (src: bytes, ct: bytes)
    requires Sound(seal)
    ensures |src| == CHUNK_SIZE + 1
    ensures var r := OpenRun(Table(seal, prefix, Chunks(src, |src|, 0)), prefix, CHUNK_SIZE, |src|, 0, ct);
            r.error == Some(Truncated) && r.written == src[..CHUNK_SIZE] != []
  {
    src := Zeros(CHUNK_SIZE + 1);
    var chunks := Chunks(src, |src|, 0);
    ExactRunSplits(src, 0);
    ExactRunSplits(src[CHUNK_SIZE..], 1);
    assert |chunks| == 2;
    ct := Frames(seal, prefix, chunks[..1]);
    CutStreamHasWrittenItsFrames(seal, prefix, src, 1);
    assert chunks[..1] == [chunks[0]] && Plain([chunks[0]]) == chunks[0].plain + Plain([]);
  }

  // ----- arbitrary ciphertext, arbitrary header -----

  // Few enough chunks for the counter: fewer than 2^32, or exactly that many with the
  // last one marked final.
  ghost predicate Countable(chunks: seq<Chunk>) {
    && (forall i :: 0 <= i < |chunks| ==>
          && chunks[i].index == i
          && (i + 1 < |chunks| ==> !chunks[i].final))
    && (|chunks| < TWO_32 || (|chunks| == TWO_32 && chunks[|chunks| - 1].final))
  }

  // How far a reading from chunk `i` got.
  ghost predicate Reached(chunks: seq<Chunk>, i: nat, remaining: int, r: Opened, j: nat) {
    && i <= j <= |chunks| && r.written == Plain(chunks[i..j])
    && (r.error.None? && remaining > 0 ==>
          j == |chunks| > i && chunks[j - 1].final && remaining == |Plain(chunks[i..])|)
  }

  lemma PlainStep(chunks: seq<Chunk>, i: nat, j: nat)
    requires i < j <= |chunks|
    ensures Plain(chunks[i..j]) == chunks[i].plain + Plain(chunks[i + 1..j])
  {
    assert chunks[i..j][1..] == chunks[i + 1..j];
  }

  lemma SameCounter(i: nat, j: nat)
    requires i < TWO_32 && j < TWO_32 && Counter(i) == Counter(j)
    ensures i == j
  {
  }

  // A box the reader asks for at `index` is the box of that very chunk.
  lemma OpenedIsTheChunk(seal: Sealer, prefix: bytes, chunks: seq<Chunk>, other: bytes, index: nat, final: bool,
      ct: bytes)
    requires Sound(seal) && Countable(chunks) && index <= |chunks| && index < TWO_32
    requires Box(ChunkNonce(other, index), ChunkAad(index, final), ct) in Table(seal, prefix, chunks)
    ensures index < |chunks| && chunks[index].final == final && |ct| == |chunks[index].plain| + TAG_SIZE
    ensures Table(seal, prefix, chunks)[Box(ChunkNonce(other, index), ChunkAad(index, final), ct)] ==
              chunks[index].plain
  {
    var box := Box(ChunkNonce(other, index), ChunkAad(index, final), ct);
    var k := TableOnly(seal, prefix, chunks, box);
    var c := chunks[k];
    assert c.index == k;
    assert box.nonce == ChunkNonce(prefix, k) && box.aad == ChunkAad(k, c.final) && ct == ChunkBox(seal, prefix, c).ct;
    NonceDetermines(other, index, prefix, k);
    AadDetermines(index, final, k, c.final);
    SameCounter(index, k);
  }

  // After a chunk is opened the reader still has room for the counter, or is done.
  lemma OpenedLeaves(chunks: seq<Chunk>, i: nat, final: bool, chunkSize: nat, remaining: int)
    requires Countable(chunks) && i < |chunks| && chunks[i].final == final == (remaining <= chunkSize) && remaining > 0
    requires |chunks[i].plain| == if final then remaining else chunkSize
    ensures final ==> i + 1 == |chunks|
    ensures i + 1 < TWO_32 || remaining - |chunks[i].plain| <= 0
  {
  }

  lemma ReachedStep(chunks: seq<Chunk>, i: nat, remaining: int, later: Opened, j: nat)
    requires i < |chunks| && Reached(chunks, i + 1, remaining - |chunks[i].plain|, later, j)
    requires remaining > 0 && chunks[i].final == (remaining == |chunks[i].plain|) && remaining >= |chunks[i].plain|
    requires chunks[i].final ==> i + 1 == |chunks|
    ensures Reached(chunks, i, remaining, later.(written := chunks[i].plain + later.written), j)
  {
    PlainStep(chunks, i, j);
    PlainStep(chunks, i, |chunks|);
    assert chunks[i..|chunks|] == chunks[i..] && chunks[i + 1..|chunks|] == chunks[i + 1..];
  }

  // What the reader asks the key for next, if the ciphertext is long enough.
  function NextBox(other: bytes, chunkSize: nat, remaining: int, i: nat, ct: bytes): Option<Box>
    requires remaining > 0
  {
    var final := remaining <= chunkSize;
    var need := (if final then remaining else chunkSize) + TAG_SIZE;
    if |ct| < need then None else Some(Box(ChunkNonce(other, i), ChunkAad(i, final), ct[..need]))
  }

  lemma OpenStops(boxes: map<Box, bytes>, other: bytes, chunkSize: nat, remaining: int, i: nat, ct: bytes)
    requires chunkSize > 0
    requires remaining <= 0 || (var b := NextBox(other, chunkSize, remaining, i, ct); b.None? || b.value !in boxes)
    ensures var r := OpenRun(boxes, other, chunkSize, remaining, i, ct);
            r.written == [] && (remaining > 0 ==> r.error.Some?)
  {
  }

  lemma OpenGoesOn(boxes: map<Box, bytes>, other: bytes, chunkSize: nat, remaining: int, i: nat, ct: bytes, box: Box)
    returns (later: Opened)
    requires chunkSize > 0 && remaining > 0 && NextBox(other, chunkSize, remaining, i, ct) == Some(box) && box in boxes
    ensures |box.ct| <= |ct|
    ensures later == OpenRun(boxes, other, chunkSize, remaining - |boxes[box]|, i + 1, ct[|box.ct|..])
    ensures OpenRun(boxes, other, chunkSize, remaining, i, ct) == later.(written := boxes[box] + later.written)
  {
    later := OpenRun(boxes, other, chunkSize, remaining - |boxes[box]|, i + 1, ct[|box.ct|..]);
  }

  // So opening it brings the reader one chunk further, or to its end.
  lemma OpenedAdvances(seal: Sealer, prefix: bytes, chunks: seq<Chunk>, boxes: map<Box, bytes>, other: bytes,
                       chunkSize: nat, remaining: int, i: nat, ct: bytes, box: Box)
    requires Sound(seal) && Countable(chunks) && chunkSize > 0 && i <= |chunks| && i < TWO_32 && remaining > 0
    requires boxes == Table(seal, prefix, chunks)
    requires NextBox(other, chunkSize, remaining, i, ct) == Some(box) && box in boxes
    ensures i < |chunks| && boxes[box] == chunks[i].plain && 0 < |box.ct| <= |ct|
    ensures i + 1 < TWO_32 || remaining - |chunks[i].plain| <= 0
    ensures chunks[i].final == (remaining == |chunks[i].plain|) && remaining >= |chunks[i].plain|
    ensures chunks[i].final ==> i + 1 == |chunks|
  {
    OpenedIsTheChunk(seal, prefix, chunks, other, i, remaining <= chunkSize, box.ct);
    OpenedLeaves(chunks, i, remaining <= chunkSize, chunkSize, remaining);
  }

  lemma OpenTurn(seal: Sealer, prefix: bytes, chunks: seq<Chunk>, boxes: map<Box, bytes>, other: bytes,
                 chunkSize: nat, remaining: int, i: nat, ct: bytes, box: Box)
    returns (left: int, rest: bytes, later: Opened)
    requires Sound(seal) && Countable(chunks) && chunkSize > 0 && i <= |chunks| && i < TWO_32 && remaining > 0
    requires boxes == Table(seal, prefix, chunks)
    requires NextBox(other, chunkSize, remaining, i, ct) == Some(box) && box in boxes
    ensures i < |chunks| && 0 <= left == remaining - |chunks[i].plain| && |rest| < |ct|
    ensures i + 1 < TWO_32 || left <= 0
    ensures chunks[i].final == (left == 0) && (chunks[i].final ==> i + 1 == |chunks|)
    ensures later == OpenRun(boxes, other, chunkSize, left, i + 1, rest)
    ensures OpenRun(boxes, other, chunkSize, remaining, i, ct) == later.(written := chunks[i].plain + later.written)
  {
    OpenedAdvances(seal, prefix, chunks, boxes, other, chunkSize, remaining, i, ct, box);
    left, rest := remaining - |chunks[i].plain|, ct[|box.ct|..];
    later := OpenGoesOn(boxes, other, chunkSize, remaining, i, ct, box);
  }

  lemma ReachedNothing(chunks: seq<Chunk>, i: nat, remaining: int, r: Opened)
    requires i <= |chunks| && r.written == [] && (remaining > 0 ==> r.error.Some?)
    ensures Reached(chunks, i, remaining, r, i)
  {
    assert chunks[i..i] == [];
  }

  lemma {:induction false} OpenReaches(seal: Sealer, prefix: bytes, chunks: seq<Chunk>, boxes: map<Box, bytes>,
      other: bytes, chunkSize: nat, remaining: int, i: nat, ct: bytes, r: Opened) returns (j: nat)
    requires Sound(seal) && Countable(chunks) && chunkSize > 0 && i <= |chunks|
    requires i < TWO_32 || remaining <= 0
    requires boxes == Table(seal, prefix, chunks)
    requires r == OpenRun(boxes, other, chunkSize, remaining, i, ct)
    ensures Reached(chunks, i, remaining, r, j)
    decreases |ct|
  {
    var next := if remaining > 0 then NextBox(other, chunkSize, remaining, i, ct) else None;
    if next.Some? && next.value in boxes {
      var left, rest, later := OpenTurn(seal, prefix, chunks, boxes, other, chunkSize, remaining, i, ct, next.value);
      j := OpenReaches(seal, prefix, chunks, boxes, other, chunkSize, left, i + 1, rest, later);
      ReachedStep(chunks, i, remaining, later, j);
    } else {
      OpenStops(boxes, other, chunkSize, remaining, i, ct);
      ReachedNothing(chunks, i, remaining, r);
      j := i;
    }
  }

  // ----- turn by turn -----

  // What the first `turns` turns of the reader's loop have written.
  function WrittenAfter(boxes: map<Box, bytes>, other: bytes, chunkSize: nat, remaining: int, i: nat, ct: bytes,
      turns: nat): bytes
    decreases turns
  {
    if turns == 0 || remaining <= 0 || NextBox(other, chunkSize, remaining, i, ct).None? then []
    else
      var box := NextBox(other, chunkSize, remaining, i, ct).value;
      if box !in boxes then []
      else
        boxes[box] + WrittenAfter(boxes, other, chunkSize, remaining - |boxes[box]|, i + 1, ct[|box.ct|..], turns - 1)
  }

  lemma TurnGoesOn(boxes: map<Box, bytes>, other: bytes, chunkSize: nat, remaining: int, i: nat, ct: bytes,
      turns: nat, box: Box)
    requires turns > 0 && remaining > 0 && NextBox(other, chunkSize, remaining, i, ct) == Some(box) && box in boxes
    ensures |box.ct| <= |ct|
    ensures WrittenAfter(boxes, other, chunkSize, remaining, i, ct, turns) ==
            boxes[box] +
                WrittenAfter(boxes, other, chunkSize, remaining - |boxes[box]|, i + 1, ct[|box.ct|..], turns - 1)
  {
  }

  lemma TurnStops(boxes: map<Box, bytes>, other: bytes, chunkSize: nat, remaining: int, i: nat, ct: bytes, turns: nat)
    requires turns == 0 || remaining <= 0
               || (var b := NextBox(other, chunkSize, remaining, i, ct); b.None? || b.value !in boxes)
    ensures WrittenAfter(boxes, other, chunkSize, remaining, i, ct, turns) == []
  {
  }

  lemma OneTurnOfAll(boxes: map<Box, bytes>, other: bytes, chunkSize: nat, remaining: int, i: nat, ct: bytes,
      turns: nat, box: Box)
    requires turns > 0 && chunkSize > 0 && remaining > 0
    requires NextBox(other, chunkSize, remaining, i, ct) == Some(box) && box in boxes && |box.ct| <= |ct|
    requires WrittenAfter(boxes, other, chunkSize, remaining - |boxes[box]|, i + 1, ct[|box.ct|..], turns - 1) ==
             OpenRun(boxes, other, chunkSize, remaining - |boxes[box]|, i + 1, ct[|box.ct|..]).written
    ensures WrittenAfter(boxes, other, chunkSize, remaining, i, ct, turns) ==
            OpenRun(boxes, other, chunkSize, remaining, i, ct).written
  {
    var later := OpenGoesOn(boxes, other, chunkSize, remaining, i, ct, box);
    TurnGoesOn(boxes, other, chunkSize, remaining, i, ct, turns, box);
  }

  // In the end that is all it writes: no turn takes less than a tag off the ciphertext.
  lemma {:induction false} AllTurns(boxes: map<Box, bytes>, other: bytes, chunkSize: nat, remaining: int, i: nat,
      ct: bytes, turns: nat)
    requires chunkSize > 0 && turns >= |ct|
    ensures WrittenAfter(boxes, other, chunkSize, remaining, i, ct, turns) ==
            OpenRun(boxes, other, chunkSize, remaining, i, ct).written
    decreases |ct|
  {
    var next := if remaining > 0 then NextBox(other, chunkSize, remaining, i, ct) else None;
    if next.Some? && next.value in boxes {
      AllTurns(boxes, other, chunkSize, remaining - |boxes[next.value]|, i + 1, ct[|next.value.ct|..], turns - 1);
      OneTurnOfAll(boxes, other, chunkSize, remaining, i, ct, turns, next.value);
    } else {
      OpenStops(boxes, other, chunkSize, remaining, i, ct);
      TurnStops(boxes, other, chunkSize, remaining, i, ct, turns);
    }
  }

  // One turn that opens its chunk writes it and goes on.
  lemma TurnTakes(seal: Sealer, prefix: bytes, chunks: seq<Chunk>, boxes: map<Box, bytes>, other: bytes,
                  chunkSize: nat, remaining: int, i: nat, ct: bytes, turns: nat, box: Box)
    returns (left: int, rest: bytes)
    requires Sound(seal) && Countable(chunks) && chunkSize > 0 && i <= |chunks| && i < TWO_32 && remaining > 0
    requires boxes == Table(seal, prefix, chunks) && turns > 0
    requires NextBox(other, chunkSize, remaining, i, ct) == Some(box) && box in boxes
    ensures i < |chunks| && |rest| < |ct| && (i + 1 < TWO_32 || left <= 0)
    ensures WrittenAfter(boxes, other, chunkSize, remaining, i, ct, turns) ==
            chunks[i].plain + WrittenAfter(boxes, other, chunkSize, left, i + 1, rest, turns - 1)
  {
    OpenedAdvances(seal, prefix, chunks, boxes, other, chunkSize, remaining, i, ct, box);
    TurnGoesOn(boxes, other, chunkSize, remaining, i, ct, turns, box);
    left, rest := remaining - |boxes[box]|, ct[|box.ct|..];
  }

  lemma {:induction false} TurnsReach(seal: Sealer, prefix: bytes, chunks: seq<Chunk>, boxes: map<Box, bytes>,
      other: bytes, chunkSize: nat, remaining: int, i: nat, ct: bytes, turns: nat)
    returns (j: nat, written: bytes)
    requires Sound(seal) && Countable(chunks) && chunkSize > 0 && i <= |chunks|
    requires i < TWO_32 || remaining <= 0
    requires boxes == Table(seal, prefix, chunks)
    ensures written == WrittenAfter(boxes, other, chunkSize, remaining, i, ct, turns)
    ensures i <= j <= |chunks| && written == Plain(chunks[i..j])
    decreases turns, 1
  {
    var next := if turns > 0 && remaining > 0 then NextBox(other, chunkSize, remaining, i, ct) else None;
    if next.Some? && next.value in boxes {
      j, written := TurnReaches(seal, prefix, chunks, boxes, other, chunkSize, remaining, i, ct, turns, next.value);
    } else {
      TurnStops(boxes, other, chunkSize, remaining, i, ct, turns);
      j, written := i, [];
      assert chunks[i..i] == [];
    }
  }

  lemma {:induction false} TurnReaches(seal: Sealer, prefix: bytes, chunks: seq<Chunk>, boxes: map<Box, bytes>,
      other: bytes, chunkSize: nat, remaining: int, i: nat, ct: bytes, turns: nat, box: Box)
    returns (j: nat, written: bytes)
    requires Sound(seal) && Countable(chunks) && chunkSize > 0 && i <= |chunks|
    requires turns > 0 && remaining > 0 && i < TWO_32
    requires boxes == Table(seal, prefix, chunks)
    requires NextBox(other, chunkSize, remaining, i, ct) == Some(box) && box in boxes
    ensures written == WrittenAfter(boxes, other, chunkSize, remaining, i, ct, turns)
    ensures i <= j <= |chunks| && written == Plain(chunks[i..j])
    decreases turns, 0
  {
    var left, rest := TurnTakes(seal, prefix, chunks, boxes, other, chunkSize, remaining, i, ct, turns, box);
    var later;
    j, later := TurnsReach(seal, prefix, chunks, boxes, other, chunkSize, left, i + 1, rest, turns - 1);
    written := chunks[i].plain + later;
    PlainStep(chunks, i, j);
  }

  lemma RunIsCountable(src: bytes, declared: int)
    requires StreamFault(src, declared).None?
    requires |Chunks(src, declared, 0)| < TWO_32 || (|Chunks(src, declared, 0)| == TWO_32 && declared == |src|)
    ensures Countable(Chunks(src, declared, 0))
  {
    var chunks := Chunks(src, declared, 0);
    forall i | 0 <= i < |chunks| ensures chunks[i].index == i && (i + 1 < |chunks| ==> !chunks[i].final) {
      ChunkShape(src, declared, 0, i);
    }
    if declared == |src| && src != [] {
      ExactRunEndsFinal(src, 0);
    }
  }

  lemma {:induction false} ExactRunEndsFinal(src: bytes, index: nat)
    requires src != []
    ensures var chunks := Chunks(src, |src|, index); chunks != [] && chunks[|chunks| - 1].final
    decreases |src|
  {
    if |src| > CHUNK_SIZE {
      ExactRunEndsFinal(src[CHUNK_SIZE..], index + 1);
    }
  }

  lemma PrefixSplits(src: bytes, at: nat)
    requires CHUNK_SIZE <= at
    ensures at <= |src| <==> at - CHUNK_SIZE <= |src| - CHUNK_SIZE
    ensures at <= |src| ==> src[..at] == src[..CHUNK_SIZE] + src[CHUNK_SIZE..][..at - CHUNK_SIZE]
  {
  }

  lemma {:induction false} AlignedPrefix(src: bytes, declared: int, index: nat, j: nat)
    requires StreamFault(src, declared).None? && j <= |Chunks(src, declared, index)|
    ensures var chunks := Chunks(src, declared, index);
            j * CHUNK_SIZE <= |src| || j == |chunks|
    ensures var chunks := Chunks(src, declared, index);
            Plain(chunks[..j]) == if j == |chunks| then src else src[..j * CHUNK_SIZE]
    decreases |src|
  {
    var chunks := Chunks(src, declared, index);
    AcceptedPlain(src, declared, index);
    if j == |chunks| {
      assert chunks[..j] == chunks;
    } else if j > 0 {
      var rest := Chunks(src[CHUNK_SIZE..], declared - CHUNK_SIZE, index + 1);
      assert chunks[..j][1..] == rest[..j - 1];
      AlignedPrefix(src[CHUNK_SIZE..], declared - CHUNK_SIZE, index + 1, j - 1);
      PrefixSplits(src, j * CHUNK_SIZE);
    }
  }

  // Whatever bytes are put where the ciphertext was, and whatever chunk size, prefix and
  // length a header under the same key claims: what is written is the source up to a
  // chunk boundary, and a reading that expected anything at all and reports success has
  // written the whole source and was told its true length.
  lemma NoForgedPlaintext(seal: Sealer, prefix: bytes, src: bytes, declared: int,
                          other: bytes, chunkSize: nat, claimed: int, ct: bytes)
    requires Sound(seal) && StreamFault(src, declared).None? && chunkSize > 0
    requires |Chunks(src, declared, 0)| < TWO_32 || (|Chunks(src, declared, 0)| == TWO_32 && declared == |src|)
    ensures var r := OpenRun(Table(seal, prefix, Chunks(src, declared, 0)), other, chunkSize, claimed, 0, ct);
            && AlignedPart(src, r.written)
            && (r.error.None? && claimed != 0 ==> r.written == src && claimed == |src| == declared)
  {
    var chunks := Chunks(src, declared, 0);
    RunIsCountable(src, declared);
    AcceptedPlain(src, declared, 0);
    var boxes := Table(seal, prefix, chunks);
    var j := OpenReaches(seal, prefix, chunks, boxes, other, chunkSize, claimed, 0, ct,
                         OpenRun(boxes, other, chunkSize, claimed, 0, ct));
    assert chunks[0..j] == chunks[..j] && chunks[0..] == chunks;
    PartIsAligned(src, declared, j);
    assert chunks[..|chunks|] == chunks;
    if OpenRun(Table(seal, prefix, chunks), other, chunkSize, claimed, 0, ct).error.None? && claimed > 0 {
      FinalMeansExact(src, declared, 0, j - 1);
    }
  }

  // And not only in the end: after every turn of the loop, what is written so far is a
  // chunk-aligned part of the source.
  lemma EveryTurnIsAligned(seal: Sealer, prefix: bytes, src: bytes, declared: int,
                           other: bytes, chunkSize: nat, claimed: int, ct: bytes, turns: nat)
    requires Sound(seal) && StreamFault(src, declared).None? && chunkSize > 0
    requires |Chunks(src, declared, 0)| < TWO_32 || (|Chunks(src, declared, 0)| == TWO_32 && declared == |src|)
    ensures AlignedPart(src,
              WrittenAfter(Table(seal, prefix, Chunks(src, declared, 0)), other, chunkSize, claimed, 0, ct, turns))
  {
    var chunks := Chunks(src, declared, 0);
    RunIsCountable(src, declared);
    var j, written :=
        TurnsReach(seal, prefix, chunks, Table(seal, prefix, chunks), other, chunkSize, claimed, 0, ct, turns);
    assert chunks[0..j] == chunks[..j];
    PartIsAligned(src, declared, j);
  }

  // All of the source, or a whole number of chunks from its start.
  ghost predicate AlignedPart(src: bytes, part: bytes) {
    part == src || exists j: nat :: j * CHUNK_SIZE <= |src| && part == src[..j * CHUNK_SIZE]
  }

  lemma PartIsAligned(src: bytes, declared: int, j: nat)
    requires StreamFault(src, declared).None? && j <= |Chunks(src, declared, 0)|
    ensures AlignedPart(src, Plain(Chunks(src, declared, 0)[..j]))
  {
    AlignedPrefix(src, declared, 0, j);
    if j < |Chunks(src, declared, 0)| {
      assert j * CHUNK_SIZE <= |src| && Plain(Chunks(src, declared, 0)[..j]) == src[..j * CHUNK_SIZE];
    }
  }
}
