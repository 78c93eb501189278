/** Small definitions every other module shares. */
module Base {
  datatype Option<T> = None | Some(value: T)

  function Min(a: nat, b: nat): nat { if a < b then a else b }

  function Max(a: nat, b: nat): nat { if a > b then a else b }

  /** The invariants that are stated behind a quantifier; see `LooksInside`. */
  datatype Part =
    | SystemPart | StepPart | ChainPart | TimePart | LoopPart | CyclePart | TablesPart | ClimbPart
    | WorldPart | ProofPart | BooksPart | QueuePart | RedeemPart

  /**
   A proof that needs the contents of such an invariant mentions `LooksInside` of its part, and only then does
   the solver unfold it. The predicate is always true, so the quantifier changes nothing in the meaning.
   */
  predicate LooksInside(part: Part, k: nat) { k >= 0 }
}
