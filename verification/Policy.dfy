/** Bounds shared by every vector representation (crates/context-core/src/policy.rs). */
module Policy {
  const MAX_VECTOR_DIMENSIONS: nat := 16_000
}
