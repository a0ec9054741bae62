/**
 The code that writes and reads encrypted attachment bodies: loops over a source and a
 sink, tied step by step to the format of ChunkedFormat and the header of StreamHeader.
 */
module ChunkedStream {
  import opened Basics
  import opened Bytes
  import opened Aead
  import opened ChunkedFormat
  import opened ChunkedTheory
  import opened StreamHeader

  // ----- readers and writers -----

  datatype ReadEnd = Full | Eof | UnexpectedEof

  class Source {
    const data: bytes
    var pos: nat

    ghost predicate Valid()
      reads this
    {
      pos <= |data|
    }

    // What has not been read yet.
    ghost function Rest(): bytes
      requires Valid()
      reads this
    {
      data[pos..]
    }

    constructor (data: bytes)
      ensures Valid() && Rest() == data
    {
      this.data, pos := data, 0;
    }

    // io.ReadFull: all `n` bytes, or whatever there is and how it ended.
    method ReadFull(n: nat) returns (got: bytes, end: ReadEnd)
      requires Valid()
      modifies this
      ensures Valid()
      ensures got == old(Rest())[..Min(n, |old(Rest())|)] && Rest() == old(Rest())[|got|..]
      ensures end == if |got| == n then Full else if |got| == 0 then Eof else UnexpectedEof
    {
      var k := Min(n, |data| - pos);
      got := data[pos..pos + k];
      pos := pos + k;
      end := if k == n then Full else if k == 0 then Eof else UnexpectedEof;
    }
  }

  class Sink {
    var data: bytes

    constructor ()
      ensures data == []
    {
      data := [];
    }

    method Write(b: bytes)
      modifies this
      ensures data == old(data) + b
    {
      data := data + b;
    }
  }

  // ----- nonces and additional data -----

  lemma NonceFrom(prefix: bytes, counter: u32, copied: bytes, out: bytes)
    requires |copied| == |out| == NONCE_SIZE
    requires forall j :: 0 <= j < NONCE_SIZE ==> copied[j] == if j < |prefix| then prefix[j] else 0
    requires out[..PREFIX_SIZE] == copied[..PREFIX_SIZE] && out[PREFIX_SIZE..] == U32(counter)
    ensures out == ChunkNonce(prefix, counter)
  {
    assert copied[..PREFIX_SIZE] == PrefixBytes(prefix);
    assert out == out[..PREFIX_SIZE] + out[PREFIX_SIZE..];
    assert Counter(counter) == counter;
  }

  method BuildChunkNonce(prefix: bytes, counter: u32) returns (out: array<byte>)
    ensures fresh(out) && out[..] == ChunkNonce(prefix, counter)
  {
    out := new byte[NONCE_SIZE](_ => 0);
    for i := 0 to Min(NONCE_SIZE, |prefix|)
      invariant forall j :: 0 <= j < NONCE_SIZE ==> out[j] == if j < i then prefix[j] else 0
    {
      out[i] := prefix[i];
    }
    ghost var copied := out[..];
    PutUint32(out, PREFIX_SIZE, counter);
    NonceFrom(prefix, counter, copied, out[..]);
  }

  method PutUint32(out: array<byte>, at: nat, v: u32)
    requires at + 4 <= out.Length
    modifies out
    ensures out[at..at + 4] == U32(v)
    ensures out[..at] == old(out[..at]) && out[at + 4..] == old(out[at + 4..])
  {
    var b := U32(v);
    out[at], out[at + 1], out[at + 2], out[at + 3] := b[0], b[1], b[2], b[3];
    assert out[at..at + 4] == b;
  }

  method BuildChunkAad(counter: u32, final: bool) returns (out: array<byte>)
    ensures fresh(out) && out[..] == ChunkAad(counter, final)
  {
    out := new byte[5](_ => 0);
    PutUint32(out, 0, counter);
    ghost var index := out[0..4];
    if final {
      out[4] := 1;
    }
    assert out[0..4] == index;
    AadFrom(counter, final, out[..]);
  }

  lemma AadFrom(counter: u32, final: bool, out: bytes)
    requires |out| == 5 && out[0..4] == U32(counter) && out[4] == if final then 1 else 0
    ensures out == ChunkAad(counter, final)
  {
    assert out == out[0..4] + [out[4]];
    assert Counter(counter) == counter;
  }

  // ----- the header -----

  method WriteHeader(dst: Sink, h: Header)
    modifies dst
    ensures dst.data == old(dst.data) + EncodeHeader(h)
  {
    dst.Write(U16(h.magic));
    dst.Write(U32(|h.wrapped| % TWO_32));
    dst.Write(h.wrapped);
    WriteTail(dst, h);
  }

  // What follows the wrapped key.
  method WriteTail(dst: Sink, h: Header)
    modifies dst
    ensures dst.data == old(dst.data) + EncodeTail(h)
  {
    dst.Write(h.wrapNonce);
    dst.Write([|h.prefix| % 0x100]);
    dst.Write(h.prefix);
    dst.Write(U32(h.chunkSize));
    dst.Write(U64(h.plaintextLength));
  }

  // The next `n` bytes of `whole`, of which `at` have been read.
  method ReadField(src: Source, ghost whole: bytes, ghost at: nat, n: nat) returns (got: bytes, ok: bool)
    requires src.Valid() && at <= |whole| && src.Rest() == whole[at..]
    modifies src
    ensures src.Valid() && ok == (at + n <= |whole|)
    ensures ok ==> got == whole[at..at + n] && src.Rest() == whole[at + n..]
    ensures !ok ==> src.Rest() == []
  {
    var end;
    got, end := src.ReadFull(n);
    ok := end == Full;
    if ok {
      Slice(whole, at, |whole|, 0, n);
      Slice(whole, at, |whole|, n, |whole| - at);
    }
  }

  method ReadHeader(src: Source) returns (r: ParsedHeader)
    requires src.Valid()
    modifies src
    ensures src.Valid() && r == ParseHeader(old(src.Rest()))
    ensures r.HeaderOk? ==> r.total <= |old(src.Rest())| && src.Rest() == old(src.Rest())[r.total..]
    ensures r.HeaderErr? ==> src.Rest() == if r.error == BadMagic then old(src.Rest())[2..] else []
  {
    ghost var whole := src.Rest();
    var got, ok := ReadField(src, whole, 0, 2);
    if !ok {
      return HeaderErr(NoMagic);
    }
    if FromU16(got) != HEADER_MAGIC {
      return HeaderErr(BadMagic);
    }
    r := ReadWrapped(src, whole);
  }

  method ReadWrapped(src: Source, ghost whole: bytes) returns (r: ParsedHeader)
    requires src.Valid() && 2 <= |whole| && FromU16(whole[..2]) == HEADER_MAGIC && src.Rest() == whole[2..]
    modifies src
    ensures src.Valid() && r == ParseHeader(whole)
    ensures r.HeaderOk? ==> r.total <= |whole| && src.Rest() == whole[r.total..]
    ensures r.HeaderErr? ==> r.error != BadMagic && src.Rest() == []
  {
    var got, ok := ReadField(src, whole, 2, 4);
    if !ok {
      return HeaderErr(NoWrappedLength);
    }
    var w := FromU32(got);
    var wrapped;
    wrapped, ok := ReadField(src, whole, 6, w);
    if !ok {
      return HeaderErr(NoWrappedKey);
    }
    r := ReadTail(src, wrapped, whole, 6 + w);
  }

  method ReadTail(src: Source, wrapped: bytes, ghost whole: bytes, at: nat) returns (r: ParsedHeader)
    requires src.Valid() && at <= |whole| && src.Rest() == whole[at..]
    modifies src
    ensures src.Valid() && r == ParseTail(whole, wrapped, at)
    ensures r.HeaderOk? ==> r.total <= |whole| && src.Rest() == whole[r.total..]
    ensures r.HeaderErr? ==> r.error != BadMagic && src.Rest() == []
  {
    var wrapNonce, ok := ReadField(src, whole, at, WRAP_NONCE_SIZE);
    if !ok {
      return HeaderErr(NoWrapNonce);
    }
    var got;
    got, ok := ReadField(src, whole, at + 12, 1);
    if !ok {
      return HeaderErr(NoPrefixLength);
    }
    var p := got[0] as nat;
    var prefix;
    prefix, ok := ReadField(src, whole, at + 13, p);
    if !ok {
      return HeaderErr(NoPrefix);
    }
    got, ok := ReadField(src, whole, at + 13 + p, 4);
    if !ok {
      return HeaderErr(NoChunkSize);
    }
    var chunkSize := FromU32(got);
    got, ok := ReadField(src, whole, at + 17 + p, 8);
    if !ok {
      return HeaderErr(NoPlaintextLength);
    }
    r := HeaderOk(Header(HEADER_MAGIC, wrapped, wrapNonce, prefix, chunkSize, FromU64(got)), at + 25 + p);
  }

  // ----- sealing -----

  lemma FramesLast(seal: Sealer, prefix: bytes, chunks: seq<Chunk>, c: Chunk)
    ensures Frames(seal, prefix, chunks + [c]) == Frames(seal, prefix, chunks) + ChunkBox(seal, prefix, c).ct
  {
    if chunks != [] {
      assert (chunks + [c])[1..] == chunks[1..] + [c];
      FramesLast(seal, prefix, chunks[1..], c);
    }
  }

  // What the chunk at the front of `src` is, and what is left to seal after it.
  lemma ChunksStep(src: bytes, remaining: int, index: nat, plain: bytes)
    requires remaining > 0 && src != [] && plain == src[..Min(CHUNK_SIZE, |src|)]
    ensures var c := Chunk(index, remaining == |plain|, plain);
            var stop := |plain| < CHUNK_SIZE || c.final;
            && Chunks(src, remaining, index) ==
               [c] + (if stop then [] else Chunks(src[|plain|..], remaining - |plain|, index + 1))
            && StreamFault(src, remaining) ==
               if stop then (if src[|plain|..] == [] then None else Some(PlaintextLong))
               else StreamFault(src[|plain|..], remaining - |plain|)
  {
  }

  lemma SameCounterSameChunk(prefix: bytes, counter: u32, index: nat, final: bool)
    requires counter == Counter(index)
    ensures ChunkNonce(prefix, counter) == ChunkNonce(prefix, index)
    ensures ChunkAad(counter, final) == ChunkAad(index, final)
  {
    assert Counter(counter) == Counter(index);
  }

  method SealChunk(aead: Key, dst: Sink, prefix: bytes, counter: u32, final: bool, plain: bytes, ghost index: nat)
    requires aead.Valid() && counter == Counter(index)
    modifies aead, dst
    ensures aead.Valid()
    ensures var c := Chunk(index, final, plain);
            var box := ChunkBox(aead.seal, prefix, c);
            aead.boxes == old(aead.boxes)[box := plain] && dst.data == old(dst.data) + box.ct
  {
    var nonce := BuildChunkNonce(prefix, counter);
    var aad := BuildChunkAad(counter, final);
    SameCounterSameChunk(prefix, counter, index, final);
    var ct := aead.Seal(nonce[..], plain, aad[..]);
    dst.Write(ct);
  }

  // How far the loop has got: what it sealed and wrote, and what the rest of the source
  // and of the declared length will still bring.
  ghost predicate Sealing(all: seq<Chunk>, end: Option<StreamError>, done: seq<Chunk>, rest: bytes, remaining: int,
      index: nat)
  {
    all == done + Chunks(rest, remaining, index) && end == StreamFault(rest, remaining)
  }

  ghost predicate Finished(all: seq<Chunk>, end: Option<StreamError>, done: seq<Chunk>, rest: bytes) {
    all == done && end == if rest == [] then None else Some(PlaintextLong)
  }

  // Between two turns of the loop.
  ghost predicate Stands(all: seq<Chunk>, end: Option<StreamError>, done: seq<Chunk>, rest: bytes, remaining: int,
      index: nat, stop: bool)
  {
    if stop then Finished(all, end, done, rest) else Sealing(all, end, done, rest, remaining, index)
  }

  lemma SealingStep(all: seq<Chunk>, end: Option<StreamError>, done: seq<Chunk>, rest: bytes, remaining: int,
      index: nat, plain: bytes, later: bytes, stop: bool)
    requires Sealing(all, end, done, rest, remaining, index)
    requires remaining > 0 && rest != [] && plain == rest[..Min(CHUNK_SIZE, |rest|)] && later == rest[|plain|..]
    requires stop == (|plain| < CHUNK_SIZE || remaining == |plain|)
    ensures var now := done + [Chunk(index, remaining == |plain|, plain)];
            if stop then Finished(all, end, now, later)
            else Sealing(all, end, now, later, remaining - |plain|, index + 1)
  {
    ChunksStep(rest, remaining, index, plain);
    var c := Chunk(index, remaining == |plain|, plain);
    Reassociated(done, [c], if stop then [] else Chunks(later, remaining - |plain|, index + 1));
  }

  lemma Reassociated(a: seq<Chunk>, b: seq<Chunk>, c: seq<Chunk>)
    ensures a + (b + c) == (a + b) + c
    ensures c == [] ==> a + (b + c) == a + b
  {
  }

  // What the key remembers and the sink holds after sealing `done`.
  ghost predicate Written(seal: Sealer, prefix: bytes, done: seq<Chunk>, boxes: map<Box, bytes>, before: bytes,
      data: bytes)
  {
    boxes == Table(seal, prefix, done) && data == before + Frames(seal, prefix, done)
  }

  lemma WrittenStep(seal: Sealer, prefix: bytes, done: seq<Chunk>, boxes: map<Box, bytes>, before: bytes, data: bytes,
                    c: Chunk, box: Box)
    requires Written(seal, prefix, done, boxes, before, data) && box == ChunkBox(seal, prefix, c)
    ensures Written(seal, prefix, done + [c], boxes[box := c.plain], before, data + box.ct)
  {
    TableLast(seal, prefix, done, c);
    FramesLast(seal, prefix, done, c);
  }

  lemma SealingEnds(all: seq<Chunk>, end: Option<StreamError>, done: seq<Chunk>, rest: bytes, remaining: int,
      index: nat)
    requires Sealing(all, end, done, rest, remaining, index)
    ensures remaining <= 0 ==> Finished(all, end, done, rest)
    ensures remaining > 0 && rest == [] ==> all == done && end == Some(PlaintextShort)
  {
  }

  // counter++ on 32 bits.
  function Incremented(counter: u32, ghost index: nat): (c: u32)
    requires counter == Counter(index)
    ensures c == Counter(index + 1)
  {
    (counter + 1) % TWO_32
  }

  // One turn of the loop: read a chunk, seal it, write it.
  method SealNext(aead: Key, src: Source, dst: Sink, prefix: bytes, counter: u32, remaining: int, ghost index: nat,
                  ghost all: seq<Chunk>, ghost end: Option<StreamError>, ghost done: seq<Chunk>, ghost before: bytes)
    returns (n: nat, stop: bool, ghost now: seq<Chunk>)
    requires aead.Valid() && src.Valid() && counter == Counter(index) && remaining > 0
    requires Sealing(all, end, done, src.Rest(), remaining, index)
    requires Written(aead.seal, prefix, done, aead.boxes, before, dst.data)
    modifies aead, src, dst
    ensures aead.Valid() && src.Valid() && Written(aead.seal, prefix, now, aead.boxes, before, dst.data)
    ensures n == 0 ==> all == now && end == Some(PlaintextShort)
    ensures n > 0 ==> |src.Rest()| < |old(src.Rest())|
    ensures n > 0 ==> Stands(all, end, now, src.Rest(), remaining - n, index + 1, stop)
  {
    ghost var rest := src.Rest();
    var plain, status := src.ReadFull(CHUNK_SIZE);
    n, stop, now := |plain|, true, done;
    if n == 0 {
      SealingEnds(all, end, done, rest, remaining, index);
    } else {
      var final := remaining == n;
      stop := status == Eof || status == UnexpectedEof || final;
      ghost var c := Chunk(index, final, plain);
      SealingStep(all, end, done, rest, remaining, index, plain, src.Rest(), stop);
      WrittenStep(aead.seal, prefix, done, aead.boxes, before, dst.data, c, ChunkBox(aead.seal, prefix, c));
      SealChunk(aead, dst, prefix, counter, final, plain, index);
      now := done + [c];
    }
  }

  // The loop of Stream: whether it ran short, and what it had sealed when it ended.
  method SealLoop(aead: Key, src: Source, dst: Sink, prefix: bytes, plaintextLen: int,
                  ghost all: seq<Chunk>, ghost end: Option<StreamError>)
    returns (short: bool)
    requires aead.Valid() && aead.boxes == map[] && src.Valid()
    requires Sealing(all, end, [], src.Rest(), plaintextLen, 0)
    modifies aead, src, dst
    ensures aead.Valid() && src.Valid()
    ensures Written(aead.seal, prefix, all, aead.boxes, old(dst.data), dst.data)
    ensures end == if short then Some(PlaintextShort) else if src.Rest() == [] then None else Some(PlaintextLong)
  {
    ghost var done: seq<Chunk>, index: nat := [], 0;
    ghost var before, seal := dst.data, aead.seal;
    var counter: u32, remaining, stop := 0, plaintextLen, false;
    while !stop && remaining > 0
      invariant aead.Valid() && src.Valid() && counter == Counter(index)
      invariant Stands(all, end, done, src.Rest(), remaining, index, stop)
      invariant Written(seal, prefix, done, aead.boxes, before, dst.data)
      decreases |src.Rest()|
    {
      var n;
      n, stop, done := SealNext(aead, src, dst, prefix, counter, remaining, index, all, end, done, before);
      if n == 0 {
        return true;
      }
      index, counter := index + 1, Incremented(counter, index);
      remaining := remaining - n;
    }
    if !stop {
      SealingEnds(all, end, done, src.Rest(), remaining, index);
    }
    return false;
  }

  // The loop, and the probe for bytes beyond the declared length.
  method SealChunks(aead: Key, src: Source, dst: Sink, prefix: bytes, plaintextLen: int)
    returns (fault: Option<StreamError>)
    requires aead.Valid() && aead.boxes == map[] && src.Valid()
    modifies aead, src, dst
    ensures aead.Valid() && src.Valid()
    ensures var chunks := Chunks(old(src.Rest()), plaintextLen, 0);
            && aead.boxes == Table(aead.seal, prefix, chunks)
            && dst.data == old(dst.data) + Frames(aead.seal, prefix, chunks)
    ensures fault == StreamFault(old(src.Rest()), plaintextLen)
  {
    ghost var all, end := Chunks(src.Rest(), plaintextLen, 0), StreamFault(src.Rest(), plaintextLen);
    assert Sealing(all, end, [], src.Rest(), plaintextLen, 0);
    var short := SealLoop(aead, src, dst, prefix, plaintextLen, all, end);
    if short {
      return Some(PlaintextShort);
    }
    var probe, _ := src.ReadFull(1);
    fault := if |probe| > 0 then Some(PlaintextLong) else None;
  }

  // ----- opening -----

  // How far the reader has got: `sofar` is written, the rest is to come.
  ghost predicate Opening(whole: Opened, sofar: bytes, r: Opened) {
    whole == r.(written := sofar + r.written)
  }

  lemma OpeningStep(boxes: map<Box, bytes>, prefix: bytes, chunkSize: nat, remaining: int, index: nat, src: bytes,
                    whole: Opened, sofar: bytes, box: Box)
    returns (later: Opened)
    requires chunkSize > 0 && remaining > 0 && NextBox(prefix, chunkSize, remaining, index, src) == Some(box)
    requires box in boxes
    requires Opening(whole, sofar, OpenRun(boxes, prefix, chunkSize, remaining, index, src))
    ensures later == OpenRun(boxes, prefix, chunkSize, remaining - |boxes[box]|, index + 1, src[|box.ct|..])
    ensures Opening(whole, sofar + boxes[box], later)
  {
    later := OpenGoesOn(boxes, prefix, chunkSize, remaining, index, src, box);
    assert sofar + (boxes[box] + later.written) == (sofar + boxes[box]) + later.written;
  }

  lemma OpeningFails(boxes: map<Box, bytes>, prefix: bytes, chunkSize: nat, remaining: int, index: nat, src: bytes,
                     whole: Opened, sofar: bytes)
    requires chunkSize > 0 && remaining > 0
    requires Opening(whole, sofar, OpenRun(boxes, prefix, chunkSize, remaining, index, src))
    ensures var box := NextBox(prefix, chunkSize, remaining, index, src);
            && (box.None? ==> whole == Opened(sofar, Some(Truncated), []))
            && (box.Some? && box.value !in boxes ==> whole == Opened(sofar, Some(VerifyFailed), src[|box.value.ct|..]))
  {
  }

  // A chunk's ciphertext, with the nonce and the associated data it is to be opened under.
  method ReadBox(src: Source, prefix: bytes, chunkSize: nat, counter: u32, remaining: int, ghost index: nat)
    returns (box: Option<Box>)
    requires src.Valid() && counter == Counter(index) && remaining > 0 && chunkSize > 0
    modifies src
    ensures src.Valid() && box == NextBox(prefix, chunkSize, remaining, index, old(src.Rest()))
    ensures box.Some? ==>
              0 < |box.value.ct| <= |old(src.Rest())| && src.Rest() == old(src.Rest())[|box.value.ct|..]
    ensures box.None? ==> src.Rest() == []
  {
    var final := remaining <= chunkSize;
    var need := (if final then remaining else chunkSize) + TAG_SIZE;
    var ct, end := src.ReadFull(need);
    if end != Full {
      return None;
    }
    var nonce := BuildChunkNonce(prefix, counter);
    var aad := BuildChunkAad(counter, final);
    SameCounterSameChunk(prefix, counter, index, final);
    box := Some(Box(nonce[..], aad[..], ct));
  }

  // One turn of the loop of OpenStream: read a chunk's ciphertext, open it, write it.
  method OpenNext(aead: Key, src: Source, dst: Sink, prefix: bytes, chunkSize: nat, counter: u32, remaining: int,
                  ghost index: nat, ghost whole: Opened, ghost sofar: bytes)
    returns (n: nat, error: Option<OpenError>, ghost plain: bytes)
    requires src.Valid() && counter == Counter(index) && remaining > 0 && chunkSize > 0
    requires Opening(whole, sofar, OpenRun(aead.boxes, prefix, chunkSize, remaining, index, src.Rest()))
    modifies src, dst
    ensures src.Valid()
    ensures error.Some? ==> whole == Opened(sofar, error, src.Rest()) && dst.data == old(dst.data)
    ensures error.None? ==>
              && |src.Rest()| < |old(src.Rest())| && |plain| == n && dst.data == old(dst.data) + plain
              && Opening(whole, sofar + plain,
                   OpenRun(aead.boxes, prefix, chunkSize, remaining - n, index + 1, src.Rest()))
  {
    ghost var rest := src.Rest();
    var box := ReadBox(src, prefix, chunkSize, counter, remaining, index);
    if box.None? {
      OpeningFails(aead.boxes, prefix, chunkSize, remaining, index, rest, whole, sofar);
      return 0, Some(Truncated), [];
    }
    var pt := aead.Open(box.value.nonce, box.value.ct, box.value.aad);
    if pt.None? {
      OpeningFails(aead.boxes, prefix, chunkSize, remaining, index, rest, whole, sofar);
      return 0, Some(VerifyFailed), [];
    }
    dst.Write(pt.value);
    ghost var later := OpeningStep(aead.boxes, prefix, chunkSize, remaining, index, rest, whole, sofar, box.value);
    return |pt.value|, None, pt.value;
  }

  // The loop of OpenStream.
  method OpenChunks(aead: Key, src: Source, dst: Sink, prefix: bytes, chunkSize: nat, plaintextLen: int)
    returns (error: Option<OpenError>)
    requires src.Valid() && chunkSize > 0
    modifies src, dst
    ensures src.Valid()
    ensures var r := OpenRun(aead.boxes, prefix, chunkSize, plaintextLen, 0, old(src.Rest()));
            error == r.error && dst.data == old(dst.data) + r.written && src.Rest() == r.left
  {
    ghost var before, boxes := dst.data, aead.boxes;
    ghost var whole := OpenRun(boxes, prefix, chunkSize, plaintextLen, 0, src.Rest());
    ghost var sofar: bytes, index: nat := [], 0;
    var counter: u32, remaining := 0, plaintextLen;
    while remaining > 0
      invariant src.Valid() && counter == Counter(index)
      invariant dst.data == before + sofar
      invariant Opening(whole, sofar, OpenRun(boxes, prefix, chunkSize, remaining, index, src.Rest()))
      decreases |src.Rest()|
    {
      var n;
      ghost var plain;
      n, error, plain := OpenNext(aead, src, dst, prefix, chunkSize, counter, remaining, index, whole, sofar);
      if error.Some? {
        return;
      }
      sofar := sofar + plain;
      index, counter := index + 1, Incremented(counter, index);
      remaining := remaining - n;
    }
    error := if remaining < 0 then Some(TooMuchPlaintext) else None;
  }

  // ----- the envelope -----

  const DEK_SIZE: nat := 32

  predicate IsKeySize(n: nat) {
    n == 16 || n == 24 || n == 32
  }

  // The header Stream writes for a declared length.
  function StreamHead(wrapped: bytes, wrapNonce: bytes, prefix: bytes, plaintextLen: int): Header
    requires -TWO_63 <= plaintextLen < TWO_63
  {
    Header(HEADER_MAGIC, wrapped, wrapNonce, prefix, CHUNK_SIZE, AsUint64(plaintextLen))
  }

  // What the data keys have sealed: nothing, for a key never used.
  function SealedUnder(tables: map<bytes, map<Box, bytes>>, dek: bytes): map<Box, bytes> {
    if dek in tables then tables[dek] else map[]
  }

  // What OpenStream makes of a header and a ciphertext, given what was ever sealed.
  function OpenFile(wraps: map<Box, bytes>, tables: map<bytes, map<Box, bytes>>, hdr: Option<Header>,
      src: bytes): Opened
  {
    match hdr
    case None => Opened([], Some(NoHeader), src)
    case Some(h) =>
      if h.magic != HEADER_MAGIC then Opened([], Some(NotChunked), src)
      else if h.chunkSize == 0 then Opened([], Some(ZeroChunkSize), src)
      else
        var wrap := Box(h.wrapNonce, [], h.wrapped);
        if wrap !in wraps then Opened([], Some(UnwrapFailed), src)
        else if !IsKeySize(|wraps[wrap]|) then Opened([], Some(BadKeySize), src)
        else OpenRun(SealedUnder(tables, wraps[wrap]), h.prefix, h.chunkSize, AsInt64(h.plaintextLength), 0, src)
  }

  datatype Streamed = Streamed(header: Header) | Refused(error: StreamError)

  // Whether OpenStream gets past its checks and opens the first chunk.
  predicate FileStarts(wraps: map<Box, bytes>, tables: map<bytes, map<Box, bytes>>, h: Header, ct: bytes) {
    var wrap := Box(h.wrapNonce, [], h.wrapped);
    && h.magic == HEADER_MAGIC && h.chunkSize > 0 && wrap in wraps && IsKeySize(|wraps[wrap]|)
    && FirstChunkOpens(SealedUnder(tables, wraps[wrap]), h.prefix, h.chunkSize, AsInt64(h.plaintextLength), ct)
  }

  // The whole of OpenStream, on any header and any bytes: something has been written exactly
  // if every check passed and the first chunk opened, even when an error is returned.
  lemma OpenStreamWritesNothingExactly(wraps: map<Box, bytes>, tables: map<bytes, map<Box, bytes>>, h: Header,
      ct: bytes)
    requires forall dek :: dek in tables ==> NoEmptyPlaintext(tables[dek])
    ensures OpenFile(wraps, tables, Some(h), ct).written == [] <==> !FileStarts(wraps, tables, h, ct)
    ensures h.plaintextLength != 0 && !FileStarts(wraps, tables, h, ct) ==>
              OpenFile(wraps, tables, Some(h), ct).error.Some?
  {
    var wrap := Box(h.wrapNonce, [], h.wrapped);
    if h.chunkSize > 0 && wrap in wraps {
      WritesNothingExactly(SealedUnder(tables, wraps[wrap]), h.prefix, h.chunkSize, AsInt64(h.plaintextLength), ct);
    }
  }

  class Envelope {
    const kek: Key
    const gcm: bytes -> Sealer
    var tables: map<bytes, map<Box, bytes>>

    ghost predicate Valid()
      reads this, kek
    {
      && kek.Valid() && (forall dek :: Sound(gcm(dek)))
      && forall dek :: dek in tables ==> SealedBy(gcm(dek), tables[dek]) && NoEmptyPlaintext(tables[dek])
    }

    constructor (kek: Key, gcm: bytes -> Sealer)
      requires kek.Valid() && forall dek :: Sound(gcm(dek))
      ensures Valid() && this.kek == kek && this.gcm == gcm && tables == map[]
    {
      this.kek, this.gcm, tables := kek, gcm, map[];
    }

    // The data key, the wrapping nonce and the nonce prefix are what the random source
    // gave; a data key of 256 random bits is one that was never used before.
    method Stream(src: Source, dst: Sink, plaintextLen: int, dek: bytes, wrapNonce: bytes, prefix: bytes)
      returns (r: Streamed)
      requires Valid() && src.Valid() && -TWO_63 <= plaintextLen < TWO_63
      requires |dek| == DEK_SIZE && |wrapNonce| == WRAP_NONCE_SIZE && |prefix| == PREFIX_SIZE
      requires dek !in tables
      modifies this, kek, src, dst
      ensures Valid() && src.Valid()
      ensures var hdr := StreamHead(kek.seal(wrapNonce, dek, []), wrapNonce, prefix, plaintextLen);
              var chunks := Chunks(old(src.Rest()), plaintextLen, 0);
              var fault := StreamFault(old(src.Rest()), plaintextLen);
              && kek.boxes == old(kek.boxes)[Box(wrapNonce, [], hdr.wrapped) := dek]
              && tables == old(tables)[dek := Table(gcm(dek), prefix, chunks)]
              && dst.data == old(dst.data) + EncodeHeader(hdr) + Frames(gcm(dek), prefix, chunks)
              && r == if fault.Some? then Refused(fault.value) else Streamed(hdr)
    {
      var aead := new Key(gcm(dek));
      var wrapped := kek.Seal(wrapNonce, dek, []);
      var hdr := StreamHead(wrapped, wrapNonce, prefix, plaintextLen);
      WriteHeader(dst, hdr);
      var fault := SealChunks(aead, src, dst, prefix, plaintextLen);
      RunSealsNoEmptyPlaintext(gcm(dek), prefix, old(src.Rest()), plaintextLen);
      tables := tables[dek := aead.boxes];
      r := if fault.Some? then Refused(fault.value) else Streamed(hdr);
    }

    method OpenStream(hdr: Option<Header>, src: Source, dst: Sink) returns (error: Option<OpenError>)
      requires Valid() && src.Valid()
      requires hdr.Some? ==> |hdr.value.wrapNonce| == WRAP_NONCE_SIZE
      modifies src, dst
      ensures src.Valid()
      ensures var r := OpenFile(kek.boxes, tables, hdr, old(src.Rest()));
              error == r.error && dst.data == old(dst.data) + r.written && src.Rest() == r.left
      ensures dst.data == old(dst.data) <==> hdr.None? || !FileStarts(kek.boxes, tables, hdr.value, old(src.Rest()))
    {
      if hdr.Some? {
        OpenStreamWritesNothingExactly(kek.boxes, tables, hdr.value, src.Rest());
      }
      if hdr.None? {
        return Some(NoHeader);
      }
      var h := hdr.value;
      if h.magic != HEADER_MAGIC {
        return Some(NotChunked);
      }
      if h.chunkSize == 0 {
        return Some(ZeroChunkSize);
      }
      var dek := kek.Open(h.wrapNonce, h.wrapped, []);
      if dek.None? {
        return Some(UnwrapFailed);
      }
      if !IsKeySize(|dek.value|) {
        return Some(BadKeySize);
      }
      var aead := new Key.Again(gcm(dek.value), SealedUnder(tables, dek.value));
      error := OpenChunks(aead, src, dst, h.prefix, h.chunkSize, AsInt64(h.plaintextLength));
    }
  }

  // ----- whole files -----

  // The keys as Stream leaves them, having sealed `src` under `dek`.
  ghost predicate JustSealed(wraps: map<Box, bytes>, tables: map<bytes, map<Box, bytes>>, seal: Sealer, hdr: Header,
                             dek: bytes, src: bytes, declared: int)
  {
    && Sound(seal) && |dek| == DEK_SIZE && -TWO_63 <= declared < TWO_63
    && hdr == StreamHead(hdr.wrapped, hdr.wrapNonce, hdr.prefix, declared)
    && |hdr.wrapped| == DEK_SIZE + TAG_SIZE && |hdr.wrapNonce| == WRAP_NONCE_SIZE && |hdr.prefix| == PREFIX_SIZE
    && Box(hdr.wrapNonce, [], hdr.wrapped) in wraps && wraps[Box(hdr.wrapNonce, [], hdr.wrapped)] == dek
    && dek in tables && tables[dek] == Table(seal, hdr.prefix, Chunks(src, declared, 0))
  }

  // A file Stream reported as written: its header is found again at the front of it, and
  // reading on from there gives the source back if the declared length was true, and an
  // error if it was not.
  lemma OwnFileOpensExactly(wraps: map<Box, bytes>, tables: map<bytes, map<Box, bytes>>, seal: Sealer, hdr: Header,
                            dek: bytes, src: bytes, declared: int, file: bytes)
    requires JustSealed(wraps, tables, seal, hdr, dek, src, declared) && StreamFault(src, declared).None?
    requires file == EncodeHeader(hdr) + Frames(seal, hdr.prefix, Chunks(src, declared, 0))
    ensures ParseHeader(file) == HeaderOk(hdr, |EncodeHeader(hdr)|)
    ensures var r := OpenFile(wraps, tables, Some(hdr), file[|EncodeHeader(hdr)|..]);
            && (r.error.None? <==> declared == |src|)
            && (declared == |src| ==> r == Opened(src, None, []))
  {
    HeaderReadsBack(hdr, Frames(seal, hdr.prefix, Chunks(src, declared, 0)));
    Join(EncodeHeader(hdr), Frames(seal, hdr.prefix, Chunks(src, declared, 0)));
    OwnOutputOpensExactly(seal, hdr.prefix, src, declared);
  }

  // Any file at all whose header carries the same wrapped key: at most a chunk-aligned
  // part of the source comes out, and success on a nonzero length means all of it did.
  lemma NoFileForges(wraps: map<Box, bytes>, tables: map<bytes, map<Box, bytes>>, seal: Sealer, hdr: Header,
                     dek: bytes, src: bytes, declared: int, other: Header, ct: bytes)
    requires JustSealed(wraps, tables, seal, hdr, dek, src, declared) && StreamFault(src, declared).None?
    requires |Chunks(src, declared, 0)| < TWO_32 || (|Chunks(src, declared, 0)| == TWO_32 && declared == |src|)
    requires other.wrapNonce == hdr.wrapNonce && other.wrapped == hdr.wrapped
    ensures var r := OpenFile(wraps, tables, Some(other), ct);
            && AlignedPart(src, r.written)
            && (r.error.None? && other.plaintextLength != 0 ==>
                  r.written == src && other.plaintextLength == |src| == declared)
  {
    assert src[..0 * CHUNK_SIZE] == [];
    if other.magic == HEADER_MAGIC && other.chunkSize != 0 {
      NoForgedPlaintext(seal, hdr.prefix, src, declared, other.prefix, other.chunkSize, AsInt64(other.plaintextLength),
          ct);
    }
  }
}
