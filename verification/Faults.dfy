/** The environment of a run: which of its reads and writes fail, in the order of time. */
module Faults {

  /** Number `i` fails; beyond the end of the list all succeed. */
  predicate Fails(faults: seq<bool>, i: nat) {
    i < |faults| && faults[i]
  }

  /** Those from number `a` on, before number `b`, succeed. */
  predicate Fine(faults: seq<bool>, a: nat, b: nat) {
    forall i | a <= i < b :: !Fails(faults, i)
  }
}
