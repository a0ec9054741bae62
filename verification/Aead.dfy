/**
 Authenticated encryption taken ideally: sealing is a length-preserving function plus a
 tag, injective in the plaintext, and opening succeeds on exactly the boxes the key has
 sealed. Nothing about AES or GCM is modelled beyond this.
 */
module Aead {
  import opened Basics
  import opened Bytes

  const TAG_SIZE: nat := 16

  // What the program hands to Open: a nonce, additional data and a ciphertext.
  datatype Box = Box(nonce: bytes, aad: bytes, ct: bytes)

  // Seal(nonce, plaintext, additional data) under one key.
  type Sealer = (bytes, bytes, bytes) -> bytes

  ghost predicate Sound(seal: Sealer) {
    && (forall nonce, plain, aad :: |seal(nonce, plain, aad)| == |plain| + TAG_SIZE)
    && (forall nonce, plain, other, aad :: seal(nonce, plain, aad) == seal(nonce, other, aad) ==> plain == other)
  }

  // Every box was sealed by `seal` from the plaintext it opens to.
  ghost predicate SealedBy(seal: Sealer, boxes: map<Box, bytes>) {
    forall b :: b in boxes ==> b.ct == seal(b.nonce, boxes[b], b.aad)
  }

  class Key {
    const seal: Sealer
    var boxes: map<Box, bytes>

    ghost predicate Valid()
      reads this
    {
      Sound(seal) && SealedBy(seal, boxes)
    }

    constructor (seal: Sealer)
      requires Sound(seal)
      ensures Valid() && this.seal == seal && boxes == map[]
    {
      this.seal, boxes := seal, map[];
    }

    // The cipher made again from the same key bytes: it opens what was sealed under them.
    constructor Again(seal: Sealer, boxes: map<Box, bytes>)
      requires Sound(seal) && SealedBy(seal, boxes)
      ensures Valid() && this.seal == seal && this.boxes == boxes
    {
      this.seal, this.boxes := seal, boxes;
    }

    method Seal(nonce: bytes, plain: bytes, aad: bytes) returns (ct: bytes)
      requires Valid()
      modifies this
      ensures Valid() && ct == seal(nonce, plain, aad)
      ensures boxes == old(boxes)[Box(nonce, aad, ct) := plain]
    {
      ct := seal(nonce, plain, aad);
      boxes := boxes[Box(nonce, aad, ct) := plain];
    }

    method Open(nonce: bytes, ct: bytes, aad: bytes) returns (plain: Option<bytes>)
      ensures plain == if Box(nonce, aad, ct) in boxes then Some(boxes[Box(nonce, aad, ct)]) else None
    {
      var box := Box(nonce, aad, ct);
      plain := if box in boxes then Some(boxes[box]) else None;
    }
  }
}
