/**
 * The shielding step shared by the circuits: an outer proof verifies the
 * inner proof in-circuit and registers the inner public inputs again as
 * its own. Proof verification itself is an abstract truth value.
 */
module Recursion {
  import opened Wrappers

  /** `prove_outer`: satisfiable iff the inner proof verifies; publishes the inner public inputs unchanged. */
  function ProveOuter(innerPublic: seq<nat>, innerVerifies: bool): (r: Option<seq<nat>>)
    ensures r.Some? <==> innerVerifies
    ensures r.Some? ==> r.value == innerPublic
  {
    if innerVerifies then Some(innerPublic) else None
  }
}
