/** Bytes as bit-vectors and as numbers. */
module Bytes {
  /** A number below 256 survives the way through a byte. */
  lemma ByteOf(v: nat)
    requires v < 256
    ensures (v as bv8) as nat == v
  {
  }
}
