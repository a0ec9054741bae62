/**
 Where every byte of a stream lies: the header's fields, the nonce and the additional data of
 a chunk. And what a header or a stream that goes wrong is refused for.
 */
module StreamLayout {
  import opened Basics
  import opened Bytes
  import opened Aead
  import opened ChunkedFormat
  import opened StreamHeader
  import opened ChunkedTheory
  import opened ChunkedStream

  // What four bytes say, the first one weighing most.
  function Weight(b: bytes): int
    requires |b| == 4
  {
    (b[0] as int) * 0x100_0000 + (b[1] as int) * 0x1_0000 + (b[2] as int) * 0x100 + (b[3] as int)
  }

  lemma WeightOfU32(v: int)
    requires 0 <= v < TWO_32
    ensures Weight(U32(v)) == v
  {
    U32Bytes(v);
  }

  lemma WeightOfU64(v: int)
    requires 0 <= v < TWO_64
    ensures Weight(U64(v)[..4]) * TWO_32 + Weight(U64(v)[4..]) == v
  {
    U64Bytes(v);
    WeightOfU32(v / TWO_32);
    WeightOfU32(v % TWO_32);
  }

  // ----- a chunk -----

  // Eight bytes of the prefix, cut or padded with zeros, and the counter in the last four.
  lemma NonceLayout(prefix: bytes, index: nat)
    ensures forall i :: 0 <= i < 8 ==> ChunkNonce(prefix, index)[i] == if i < |prefix| then prefix[i] else 0
    ensures Weight(ChunkNonce(prefix, index)[8..]) == index % 0x1_0000_0000
  {
    assert ChunkNonce(prefix, index)[8..] == U32(Counter(index));
    WeightOfU32(Counter(index));
  }

  // The counter, and a one behind it for the last chunk.
  lemma AadLayout(index: nat, final: bool)
    ensures Weight(ChunkAad(index, final)[..4]) == index % 0x1_0000_0000
    ensures ChunkAad(index, final)[4] == if final then 1 else 0
  {
    assert ChunkAad(index, final)[..4] == U32(Counter(index));
    WeightOfU32(Counter(index));
  }

  // The `k`-th part of 65536 bytes, the last one as long as it happens to be.
  function Part(src: bytes, k: nat): bytes
    requires k * 65536 <= |src|
  {
    if (k + 1) * 65536 <= |src| then src[k * 65536..(k + 1) * 65536] else src[k * 65536..]
  }

  lemma PartOfRest(src: bytes, k: nat)
    requires (k + 1) * 65536 <= |src|
    ensures Part(src[65536..], k) == Part(src, k + 1)
  {
    var rest := src[65536..];
    assert rest[k * 65536..] == src[(k + 1) * 65536..];
    if (k + 2) * 65536 <= |src| {
      Slice(src, 65536, |src|, k * 65536, (k + 1) * 65536);
    }
  }

  lemma FirstChunkIs(src: bytes, remaining: int, index: nat)
    requires Chunks(src, remaining, index) != []
    ensures var chunks := Chunks(src, remaining, index);
            && src != [] && chunks[0].index == index && chunks[0].plain == Part(src, 0)
            && (chunks[0].final <==> remaining == |chunks[0].plain|)
            && (|chunks| > 1 ==>
                  |src| >= 65536 && chunks[1..] == Chunks(src[65536..], remaining - 65536, index + 1))
  {
  }

  // The chunks are numbered from zero, each but the last is of 65536 bytes, together they are
  // the source from its start, and the one that reaches the declared length is final.
  lemma {:induction false} ChunkIs(src: bytes, remaining: int, index: nat, k: nat)
    requires k < |Chunks(src, remaining, index)|
    ensures var c := Chunks(src, remaining, index)[k];
            && c.index == index + k && k * 65536 < |src| && c.plain == Part(src, k)
            && (c.final <==> remaining == k * 65536 + |c.plain|)
    decreases k
  {
    FirstChunkIs(src, remaining, index);
    if k > 0 {
      assert Chunks(src, remaining, index)[k] == Chunks(src, remaining, index)[1..][k - 1];
      ChunkIs(src[65536..], remaining - 65536, index + 1, k - 1);
      PartOfRest(src, k - 1);
    }
  }

  // What a stream is refused for: too short at the end of a chunk, or longer than the chunks
  // it takes to reach the declared length.
  lemma {:induction false} StreamFaults(src: bytes, declared: int)
    ensures StreamFault(src, declared) == Some(PlaintextShort) <==> |src| % 65536 == 0 && declared > |src|
    ensures StreamFault(src, declared) == Some(PlaintextLong) <==>
            |src| > if declared <= 0 then 0 else (declared + 65535) / 65536 * 65536
    decreases |src|
  {
    if declared > 0 && |src| >= 65536 && declared != 65536 {
      StreamFaults(src[65536..], declared - 65536);
    }
  }

  // ----- the header -----

  lemma MagicBytes(h: Header)
    requires h.magic == HEADER_MAGIC
    ensures EncodeHeader(h)[0] == 0x50 && EncodeHeader(h)[1] == 0x47
  {
    U16Bytes(h.magic);
    assert EncodeHeader(h)[..2] == U16(h.magic);
    assert EncodeHeader(h)[0] == EncodeHeader(h)[..2][0] && EncodeHeader(h)[1] == EncodeHeader(h)[..2][1];
  }

  // The fields of a header lie one after the other, each length in front of what it measures.
  lemma HeaderLayout(h: Header)
    requires Fits(h)
    ensures var b, w, p := EncodeHeader(h), |h.wrapped|, |h.prefix|;
            && |b| == 31 + w + p && b[0] == 0x50 && b[1] == 0x47
            && Weight(b[2..6]) == w && b[6..6 + w] == h.wrapped && b[6 + w..18 + w] == h.wrapNonce
            && b[18 + w] == p && b[19 + w..19 + w + p] == h.prefix
            && Weight(b[19 + w + p..23 + w + p]) == h.chunkSize
            && Weight(b[23 + w + p..27 + w + p]) * TWO_32 + Weight(b[27 + w + p..31 + w + p]) == h.plaintextLength
  {
    var b, w, p := EncodeHeader(h), |h.wrapped|, |h.prefix|;
    MagicBytes(h);
    assert b[..|b|] == b;
    HeadLies(b, h, |b|);
    TailLies(b, 6 + w, p, h);
    WeightOfU32(w);
    WeightOfU32(h.chunkSize);
    WeightOfU64(h.plaintextLength);
    Slice(b, 23 + w + p, 31 + w + p, 0, 4);
    Slice(b, 23 + w + p, 31 + w + p, 4, 8);
  }

  // What Stream puts down: chunks of 65536 bytes, and the declared length as 64 bits.
  lemma StreamHeadLayout(wrapped: bytes, wrapNonce: bytes, prefix: bytes, declared: int)
    requires -TWO_63 <= declared < TWO_63 && |wrapped| < TWO_32 && |wrapNonce| == 12 && |prefix| == 8
    ensures var h := StreamHead(wrapped, wrapNonce, prefix, declared);
            var b, w := EncodeHeader(h), |wrapped|;
            && |b| == 39 + w && b[0] == 0x50 && b[1] == 0x47
            && b[6..6 + w] == wrapped && b[6 + w..18 + w] == wrapNonce && b[18 + w] == 8
            && b[19 + w..27 + w] == prefix && b[27 + w..31 + w] == [0, 1, 0, 0]
            && AsInt64(h.plaintextLength) == declared
  {
    var h := StreamHead(wrapped, wrapNonce, prefix, declared);
    HeaderLayout(h);
    TailLies(EncodeHeader(h), 6 + |wrapped|, 8, h) by {
      assert EncodeHeader(h)[..|EncodeHeader(h)|] == EncodeHeader(h);
      HeadLies(EncodeHeader(h), h, |EncodeHeader(h)|);
    }
    U32Bytes(h.chunkSize);
  }

  // ----- what is refused, and for what -----

  // The part of a header that byte `k` belongs to.
  function PartAt(w: nat, p: nat, k: nat): HeaderError {
    if k < 2 then NoMagic
    else if k < 6 then NoWrappedLength
    else if k < 6 + w then NoWrappedKey
    else if k < 18 + w then NoWrapNonce
    else if k < 19 + w then NoPrefixLength
    else if k < 19 + w + p then NoPrefix
    else if k < 23 + w + p then NoChunkSize
    else NoPlaintextLength
  }

  // Two bytes that are not the magic number are refused as such, whatever follows.
  lemma WrongMagicExactly(b: bytes)
    ensures ParseHeader(b) == HeaderErr(BadMagic) <==> |b| >= 2 && !(b[0] == 0x50 && b[1] == 0x47)
  {
    if |b| >= 2 {
      U16OfFrom(b[..2]);
      U16Bytes(FromU16(b[..2]));
    }
  }

  // A header cut anywhere is refused for the part it was cut in.
  lemma CutHeaderIsRefused(h: Header, k: nat)
    requires Fits(h) && k < |EncodeHeader(h)|
    ensures ParseHeader(EncodeHeader(h)[..k]) == HeaderErr(PartAt(|h.wrapped|, |h.prefix|, k))
  {
    var b, w, p := EncodeHeader(h), |h.wrapped|, |h.prefix|;
    assert b[..|b|] == b;
    HeadLies(b, h, |b|);
    TailLies(b, 6 + w, p, h);
    if k >= 2 {
      assert b[..k][..2] == b[..2] && FromU16(b[..2]) == HEADER_MAGIC;
    }
    if k >= 6 {
      assert b[..k][2..6] == b[2..6] && FromU32(b[2..6]) == w;
    }
    if k >= 19 + w {
      assert b[..k][18 + w] == p;
    }
  }

  // The chunk loop has three ways to fail ...
  lemma {:induction false} RunFaults(boxes: map<Box, bytes>, prefix: bytes, chunkSize: nat, remaining: int, index: nat,
      src: bytes)
    requires chunkSize > 0
    ensures OpenRun(boxes, prefix, chunkSize, remaining, index, src).error in
              {None, Some(Truncated), Some(VerifyFailed), Some(TooMuchPlaintext)}
    decreases |src|
  {
    var next := if remaining > 0 then NextBox(prefix, chunkSize, remaining, index, src) else None;
    if next.Some? && next.value in boxes {
      var box := next.value;
      var later := OpenGoesOn(boxes, prefix, chunkSize, remaining, index, src, box);
      RunFaults(boxes, prefix, chunkSize, remaining - |boxes[box]|, index + 1, src[|box.ct|..]);
    }
  }

  // ... and each turn says which: too few bytes left, a chunk that does not verify, or more
  // plaintext than declared. Otherwise the next turn decides.
  lemma TurnFaults(boxes: map<Box, bytes>, prefix: bytes, chunkSize: nat, remaining: int, index: nat, src: bytes)
    requires chunkSize > 0
    ensures var r := OpenRun(boxes, prefix, chunkSize, remaining, index, src);
            var need := (if remaining <= chunkSize then remaining else chunkSize) + 16;
            && (remaining == 0 ==> r == Opened([], None, src))
            && (remaining < 0 ==> r == Opened([], Some(TooMuchPlaintext), src))
            && (remaining > 0 && |src| < need ==> r == Opened([], Some(Truncated), []))
            && (remaining > 0 && |src| >= need ==>
                  var box := Box(ChunkNonce(prefix, index), ChunkAad(index, remaining <= chunkSize), src[..need]);
                  if box !in boxes then r == Opened([], Some(VerifyFailed), src[need..])
                  else
                    var left := remaining - |boxes[box]|;
                    r.error == OpenRun(boxes, prefix, chunkSize, left, index + 1, src[need..]).error)
  {
  }

  // The checks in front of it, in this order.
  lemma OpenFileFaults(wraps: map<Box, bytes>, tables: map<bytes, map<Box, bytes>>, hdr: Option<Header>, src: bytes)
    ensures var e := OpenFile(wraps, tables, hdr, src).error;
            && (e == Some(NoHeader) <==> hdr.None?)
            && (e == Some(NotChunked) <==> hdr.Some? && hdr.value.magic != 0x5047)
            && (e == Some(ZeroChunkSize) <==> hdr.Some? && hdr.value.magic == 0x5047 && hdr.value.chunkSize == 0)
            && (e == Some(UnwrapFailed) <==>
                  && hdr.Some? && hdr.value.magic == 0x5047 && hdr.value.chunkSize > 0
                  && Box(hdr.value.wrapNonce, [], hdr.value.wrapped) !in wraps)
            && (e == Some(BadKeySize) <==>
                  && hdr.Some? && hdr.value.magic == 0x5047 && hdr.value.chunkSize > 0
                  && Box(hdr.value.wrapNonce, [], hdr.value.wrapped) in wraps
                  && |wraps[Box(hdr.value.wrapNonce, [], hdr.value.wrapped)]| !in {16, 24, 32})
  {
    if hdr.Some? && hdr.value.chunkSize > 0 {
      var h, wrap := hdr.value, Box(hdr.value.wrapNonce, [], hdr.value.wrapped);
      if wrap in wraps {
        RunFaults(SealedUnder(tables, wraps[wrap]), h.prefix, h.chunkSize, AsInt64(h.plaintextLength), 0, src);
      }
    }
  }
}
