/**
 The binary header in front of every chunked stream. What the writer puts down and the
 reader takes up are inverse to each other in both directions, on exactly the headers the
 layout has room for.
 */
module StreamHeader {
  import opened Bytes
  import opened ChunkedFormat

  const WRAP_NONCE_SIZE: nat := 12

  datatype Header = Header(
    magic: u16, wrapped: bytes, wrapNonce: bytes, prefix: bytes, chunkSize: u32, plaintextLength: u64)

  // The two length fields keep only the low bits of the lengths, as the conversions do.
  function EncodeHeader(h: Header): (r: bytes)
    ensures |r| == 19 + |h.wrapped| + |h.wrapNonce| + |h.prefix|
  {
    U16(h.magic) + U32(|h.wrapped| % TWO_32) + h.wrapped + EncodeTail(h)
  }

  function EncodeTail(h: Header): (r: bytes)
    ensures |r| == 13 + |h.wrapNonce| + |h.prefix|
  {
    h.wrapNonce + [|h.prefix| % 0x100] + h.prefix + U32(h.chunkSize) + U64(h.plaintextLength)
  }

  datatype HeaderError =
    | NoMagic | BadMagic | NoWrappedLength | NoWrappedKey | NoWrapNonce
    | NoPrefixLength | NoPrefix | NoChunkSize | NoPlaintextLength

  datatype ParsedHeader = HeaderOk(header: Header, total: nat) | HeaderErr(error: HeaderError)

  // The fields after the wrapped key, read from offset `at`.
  function ParseTail(b: bytes, wrapped: bytes, at: nat): ParsedHeader
    requires at <= |b|
  {
    if |b| < at + 12 then HeaderErr(NoWrapNonce)
    else if |b| < at + 13 then HeaderErr(NoPrefixLength)
    else
      var p := b[at + 12] as nat;
      if |b| < at + 13 + p then HeaderErr(NoPrefix)
      else if |b| < at + 17 + p then HeaderErr(NoChunkSize)
      else if |b| < at + 25 + p then HeaderErr(NoPlaintextLength)
      else
        HeaderOk(Header(HEADER_MAGIC, wrapped, b[at..at + 12], b[at + 13..at + 13 + p],
                        FromU32(b[at + 13 + p..at + 17 + p]), FromU64(b[at + 17 + p..at + 25 + p])),
                 at + 25 + p)
  }

  function ParseHeader(b: bytes): ParsedHeader {
    if |b| < 2 then HeaderErr(NoMagic)
    else if FromU16(b[..2]) != HEADER_MAGIC then HeaderErr(BadMagic)
    else if |b| < 6 then HeaderErr(NoWrappedLength)
    else
      var w := FromU32(b[2..6]);
      if |b| < 6 + w then HeaderErr(NoWrappedKey) else ParseTail(b, b[6..6 + w], 6 + w)
  }

  // The headers the layout can carry.
  predicate Fits(h: Header) {
    && h.magic == HEADER_MAGIC && |h.wrapNonce| == WRAP_NONCE_SIZE
    && |h.prefix| < 0x100 && |h.wrapped| < TWO_32
  }

  lemma ParsedFits(b: bytes)
    requires ParseHeader(b).HeaderOk?
    ensures Fits(ParseHeader(b).header)
  {
  }

  lemma Join(a: bytes, b: bytes)
    ensures (a + b)[..|a|] == a && (a + b)[|a|..] == b
  {
  }

  lemma Slice(b: bytes, from: nat, to: nat, i: nat, j: nat)
    requires from <= to <= |b| && i <= j <= to - from
    ensures b[from..to][i..j] == b[from + i..from + j]
  {
    var t := b[from..to];
    forall k | 0 <= k < j - i ensures t[i..j][k] == b[from + i..from + j][k] {
      assert t[i + k] == b[from + (i + k)];
    }
  }

  // The fields of a header's tail, lying in a file from offset `at` on.
  ghost predicate TailAt(b: bytes, at: nat, p: nat, h: Header) {
    && at + 25 + p <= |b| && p == |h.prefix| < 0x100
    && b[at..at + 12] == h.wrapNonce && b[at + 12] == p && b[at + 13..at + 13 + p] == h.prefix
    && b[at + 13 + p..at + 17 + p] == U32(h.chunkSize)
    && b[at + 17 + p..at + 25 + p] == U64(h.plaintextLength)
  }

  // And the fields in front of them.
  ghost predicate HeadAt(b: bytes, w: nat, h: Header) {
    && 6 + w <= |b| && w == |h.wrapped| < TWO_32
    && b[..2] == U16(h.magic) && b[2..6] == U32(w) && b[6..6 + w] == h.wrapped
  }

  lemma TailLies(b: bytes, at: nat, p: nat, h: Header)
    requires Fits(h) && p == |h.prefix| && at + 25 + p <= |b| && b[at..at + 25 + p] == EncodeTail(h)
    ensures TailAt(b, at, p, h)
  {
    var x1 := h.wrapNonce + [p];
    var x2 := x1 + h.prefix;
    var x3 := x2 + U32(h.chunkSize);
    Join(h.wrapNonce, [p]);
    Join(x1, h.prefix);
    Join(x2, U32(h.chunkSize));
    Join(x3, U64(h.plaintextLength));
    Slice(b, at, at + 25 + p, 0, 17 + p);
    Slice(b, at, at + 25 + p, 17 + p, 25 + p);
    Slice(b, at, at + 17 + p, 0, 13 + p);
    Slice(b, at, at + 17 + p, 13 + p, 17 + p);
    Slice(b, at, at + 13 + p, 0, 13);
    Slice(b, at, at + 13 + p, 13, 13 + p);
    Slice(b, at, at + 13, 0, 12);
    assert b[at + 12] == b[at..at + 13][12];
  }

  lemma HeadLies(b: bytes, h: Header, end: nat)
    requires Fits(h) && end == |EncodeHeader(h)| <= |b| && b[..end] == EncodeHeader(h)
    ensures HeadAt(b, |h.wrapped|, h) && b[6 + |h.wrapped|..end] == EncodeTail(h)
  {
    var w, at := |h.wrapped|, 6 + |h.wrapped|;
    Join(U16(h.magic) + U32(w) + h.wrapped, EncodeTail(h));
    Join(U16(h.magic) + U32(w), h.wrapped);
    Join(U16(h.magic), U32(w));
    Slice(b, 0, end, at, end);
    Slice(b, 0, end, 0, at);
    Slice(b, 0, at, 6, at);
    Slice(b, 0, at, 0, 6);
    Slice(b, 0, 6, 0, 2);
    Slice(b, 0, 6, 2, 6);
  }

  lemma LyingParses(b: bytes, w: nat, p: nat, h: Header)
    requires h.magic == HEADER_MAGIC && HeadAt(b, w, h) && TailAt(b, 6 + w, p, h)
    ensures ParseHeader(b) == HeaderOk(h, 31 + w + p)
  {
    assert FromU16(b[..2]) == HEADER_MAGIC && FromU32(b[2..6]) == w;
    TailParses(b, 6 + w, p, h);
  }

  lemma TailParses(b: bytes, at: nat, p: nat, h: Header)
    requires h.magic == HEADER_MAGIC && TailAt(b, at, p, h)
    ensures ParseTail(b, h.wrapped, at) == HeaderOk(h, at + 25 + p)
  {
    assert FromU32(b[at + 13 + p..at + 17 + p]) == h.chunkSize;
    assert FromU64(b[at + 17 + p..at + 25 + p]) == h.plaintextLength;
  }

  // Reading back what was written, whatever bytes follow it: the same fields, exactly the
  // header's bytes consumed - and for no header but the ones that fit.
  lemma HeaderReadsBack(h: Header, rest: bytes)
    ensures ParseHeader(EncodeHeader(h) + rest) == HeaderOk(h, |EncodeHeader(h)|) <==> Fits(h)
  {
    var b := EncodeHeader(h) + rest;
    if Fits(h) {
      Join(EncodeHeader(h), rest);
      HeadLies(b, h, |EncodeHeader(h)|);
      TailLies(b, 6 + |h.wrapped|, |h.prefix|, h);
      LyingParses(b, |h.wrapped|, |h.prefix|, h);
    } else if ParseHeader(b).HeaderOk? {
      ParsedFits(b);
    }
  }

  lemma Cut(b: bytes, i: nat, j: nat, k: nat)
    requires i <= j <= k <= |b|
    ensures b[i..j] + b[j..k] == b[i..k]
  {
  }

  lemma TailFrom(b: bytes, at: nat, p: nat, h: Header)
    requires TailAt(b, at, p, h)
    ensures b[at..at + 25 + p] == EncodeTail(h)
  {
    assert b[at + 12..at + 13] == [p];
    Cut(b, at, at + 12, at + 13);
    Cut(b, at, at + 13, at + 13 + p);
    Cut(b, at, at + 13 + p, at + 17 + p);
    Cut(b, at, at + 17 + p, at + 25 + p);
  }

  lemma TailIsWritten(b: bytes, wrapped: bytes, at: nat)
    requires at <= |b| && ParseTail(b, wrapped, at).HeaderOk?
    ensures var r := ParseTail(b, wrapped, at);
            at <= r.total <= |b| && r.header.wrapped == wrapped && b[at..r.total] == EncodeTail(r.header)
  {
    var h := ParseTail(b, wrapped, at).header;
    var p := b[at + 12] as nat;
    U32OfFrom(b[at + 13 + p..at + 17 + p]);
    U64OfFrom(b[at + 17 + p..at + 25 + p]);
    TailFrom(b, at, p, h);
  }

  lemma HeadFrom(b: bytes, w: nat, h: Header, total: nat)
    requires HeadAt(b, w, h) && 6 + w <= total <= |b|
    requires b[6 + w..total] == EncodeTail(h)
    ensures b[..total] == EncodeHeader(h)
  {
    Cut(b, 0, 2, 6);
    Cut(b, 0, 6, 6 + w);
    Cut(b, 0, 6 + w, total);
  }

  // And the other way: bytes that parse are the bytes the writer would have written for
  // the header they parse to, so a header has one spelling only.
  lemma ParsedIsWritten(b: bytes)
    requires ParseHeader(b).HeaderOk?
    ensures var r := ParseHeader(b); r.total <= |b| && b[..r.total] == EncodeHeader(r.header)
  {
    var w := FromU32(b[2..6]);
    TailIsWritten(b, b[6..6 + w], 6 + w);
    U16OfFrom(b[..2]);
    U32OfFrom(b[2..6]);
    HeadFrom(b, w, ParseHeader(b).header, ParseHeader(b).total);
  }
}
