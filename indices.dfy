/** Index sequences: how the model states "these positions, in order". */
module Indices {

  /** Strictly increasing indices, each in `[from, n)`. */
  predicate IncreasingIndices(idx: seq<nat>, from: nat, n: nat) {
    && (forall k :: 0 <= k < |idx| ==> from <= idx[k] < n)
    && (forall k, l :: 0 <= k < l < |idx| ==> idx[k] < idx[l])
  }
}
