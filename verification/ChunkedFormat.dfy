/**
 The chunked stream format: chunk nonces and additional data, what the writer seals from
 a source and a declared length, and what the reader makes of a ciphertext.
 */
module ChunkedFormat {
  import opened Basics
  import opened Bytes
  import opened Aead

  const CHUNK_SIZE: nat := 0x1_0000
  const HEADER_MAGIC: int := 0x5047
  const NONCE_SIZE: nat := 12
  const PREFIX_SIZE: nat := 8

  // ----- nonces and additional data -----

  function Zeros(n: nat): (r: bytes)
    ensures |r| == n && forall i :: 0 <= i < n ==> r[i] == 0
  {
    if n == 0 then [] else [0] + Zeros(n - 1)
  }

  // copy() into the first eight bytes: a longer prefix is cut, a shorter one padded with zeros.
  function PrefixBytes(prefix: bytes): (r: bytes)
    ensures |r| == PREFIX_SIZE
  {
    if |prefix| >= PREFIX_SIZE then prefix[..PREFIX_SIZE] else prefix + Zeros(PREFIX_SIZE - |prefix|)
  }

  // The 32-bit counter of the `index`-th chunk.
  function Counter(index: nat): (c: int)
    ensures 0 <= c < TWO_32
  {
    index % TWO_32
  }

  function ChunkNonce(prefix: bytes, index: nat): (r: bytes)
    ensures |r| == NONCE_SIZE
  {
    PrefixBytes(prefix) + U32(Counter(index))
  }

  function ChunkAad(index: nat, final: bool): (r: bytes)
    ensures |r| == 5
  {
    U32(Counter(index)) + [if final then 1 else 0]
  }

  lemma NonceDetermines(p: bytes, i: nat, q: bytes, j: nat)
    requires ChunkNonce(p, i) == ChunkNonce(q, j)
    ensures PrefixBytes(p) == PrefixBytes(q) && Counter(i) == Counter(j)
  {
    var a, b := ChunkNonce(p, i), ChunkNonce(q, j);
    assert a[..PREFIX_SIZE] == PrefixBytes(p) && b[..PREFIX_SIZE] == PrefixBytes(q);
    assert a[PREFIX_SIZE..] == U32(Counter(i)) && b[PREFIX_SIZE..] == U32(Counter(j));
    assert FromU32(U32(Counter(i))) == FromU32(U32(Counter(j)));
  }

  lemma AadDetermines(i: nat, f: bool, j: nat, g: bool)
    requires ChunkAad(i, f) == ChunkAad(j, g)
    ensures Counter(i) == Counter(j) && f == g
  {
    var a, b := ChunkAad(i, f), ChunkAad(j, g);
    assert a[..4] == U32(Counter(i)) && b[..4] == U32(Counter(j));
    assert FromU32(U32(Counter(i))) == FromU32(U32(Counter(j)));
    assert a[4] == b[4];
  }

  ghost predicate NoncesDistinct(prefix: bytes, count: nat) {
    forall i: nat, j: nat :: i < j < count ==> ChunkNonce(prefix, i) != ChunkNonce(prefix, j)
  }

  // One run may seal 2^32 chunks and not one more: the counter then wraps to the first nonce.
  lemma NoncesDistinctExactly(prefix: bytes, count: nat)
    ensures NoncesDistinct(prefix, count) <==> count <= TWO_32
  {
    if count <= TWO_32 {
      forall i: nat, j: nat | i < j < count ensures ChunkNonce(prefix, i) != ChunkNonce(prefix, j) {
        if ChunkNonce(prefix, i) == ChunkNonce(prefix, j) {
          NonceDetermines(prefix, i, prefix, j);
        }
      }
    } else {
      var wrapped: nat := TWO_32;
      assert Counter(wrapped) == Counter(0);
      assert ChunkNonce(prefix, 0) == ChunkNonce(prefix, wrapped);
      assert 0 < wrapped < count;
    }
  }

  // ----- the writer -----

  datatype Chunk = Chunk(index: nat, final: bool, plain: bytes)

  function Min(a: nat, b: nat): nat {
    if a <= b then a else b
  }

  // The chunks sealed from what is left of the source and of the declared length.
  function Chunks(src: bytes, remaining: int, index: nat): seq<Chunk>
    decreases |src|
  {
    if remaining <= 0 || src == [] then []
    else
      var n := Min(CHUNK_SIZE, |src|);
      [Chunk(index, remaining == n, src[..n])] +
      (if n < CHUNK_SIZE || remaining == n then [] else Chunks(src[n..], remaining - n, index + 1))
  }

  datatype StreamError = PlaintextShort | PlaintextLong

  // How the same loop, and the probe after it, end.
  function StreamFault(src: bytes, remaining: int): Option<StreamError>
    decreases |src|
  {
    if remaining <= 0 then (if src == [] then None else Some(PlaintextLong))
    else if src == [] then Some(PlaintextShort)
    else if |src| < CHUNK_SIZE then None
    else if remaining == CHUNK_SIZE then (if |src| == CHUNK_SIZE then None else Some(PlaintextLong))
    else StreamFault(src[CHUNK_SIZE..], remaining - CHUNK_SIZE)
  }

  function ChunkBox(seal: Sealer, prefix: bytes, c: Chunk): Box {
    var nonce, aad := ChunkNonce(prefix, c.index), ChunkAad(c.index, c.final);
    Box(nonce, aad, seal(nonce, c.plain, aad))
  }

  // The frames on disk, and what the key remembers of them.
  function Frames(seal: Sealer, prefix: bytes, chunks: seq<Chunk>): bytes {
    if chunks == [] then [] else ChunkBox(seal, prefix, chunks[0]).ct + Frames(seal, prefix, chunks[1..])
  }

  function Table(seal: Sealer, prefix: bytes, chunks: seq<Chunk>): map<Box, bytes> {
    if chunks == [] then map[]
    else
      var last := chunks[|chunks| - 1];
      Table(seal, prefix, chunks[..|chunks| - 1])[ChunkBox(seal, prefix, last) := last.plain]
  }

  function Plain(chunks: seq<Chunk>): bytes {
    if chunks == [] then [] else chunks[0].plain + Plain(chunks[1..])
  }

  // ----- the reader -----

  datatype OpenError =
    | NoHeader | NotChunked | ZeroChunkSize | UnwrapFailed | BadKeySize
    | Truncated | VerifyFailed | TooMuchPlaintext

  // What a reading wrote, how it ended, and what it left unread.
  datatype Opened = Opened(written: bytes, error: Option<OpenError>, left: bytes)

  function OpenRun(boxes: map<Box, bytes>, prefix: bytes, chunkSize: nat, remaining: int, index: nat,
      src: bytes): Opened
    requires chunkSize > 0
    decreases |src|
  {
    if remaining <= 0 then Opened([], if remaining < 0 then Some(TooMuchPlaintext) else None, src)
    else
      var final := remaining <= chunkSize;
      var need := (if final then remaining else chunkSize) + TAG_SIZE;
      if |src| < need then Opened([], Some(Truncated), [])
      else
        var box := Box(ChunkNonce(prefix, index), ChunkAad(index, final), src[..need]);
        if box !in boxes then Opened([], Some(VerifyFailed), src[need..])
        else
          var rest := OpenRun(boxes, prefix, chunkSize, remaining - |boxes[box]|, index + 1, src[need..]);
          rest.(written := boxes[box] + rest.written)
  }
}
