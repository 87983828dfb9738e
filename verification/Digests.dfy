/** 32-byte digests of byte strings. */
module Digests {
  import opened Wrappers
  import opened ByteStrings

  type Digest = d: bytes | |d| == 32 witness Le(0, 32)

  type Hash = bytes -> Digest

  const ZERO: Digest := Le(0, 32)

  /** A hash with 32-byte results has collisions; what matters is that there is none among the inputs at hand. */
  predicate NoCollisionIn(inputs: set<bytes>, h: Hash) {
    forall a, b :: a in inputs && b in inputs && h(a) == h(b) ==> a == b
  }
}
