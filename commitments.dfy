/**
 * Board commitments. Poseidon (`hash_no_pad`) is foreign: it enters the
 * model as an arbitrary function from field elements to a four-element
 * digest, so nothing here depends on its collision resistance.
 */
module Commitments {
  /** A `[u64; 4]` / `HashOut` digest. */
  type Digest = s: seq<nat> | |s| == 4 witness [0, 0, 0, 0]

  /** Any hash of a sequence of field elements into a digest. */
  type Hasher = seq<nat> -> Digest
}
