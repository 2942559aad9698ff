/**
 A predicate stated "for every Seal" stays closed in a proof until a lemma looks at it under the
 one Seal there is. The large invariants are stated so, to keep each proof to the parts it needs:
 P(x) is forall seal :: PUnder(seal, x), and a lemma says what PUnder is.
 */
module Hiding {
  datatype Seal = Seal
}
