/** Conditions that some steps of a run set and others lift. */
module Latch {
  /** The condition held at first and no step lifted it, or some step set it and none lifted it after that. */
  ghost predicate Unlifted(initial: bool, sets: nat -> bool, lifts: nat -> bool, n: nat) {
    || (initial && forall k: nat | k < n :: !lifts(k))
    || exists i: nat | i < n :: sets(i) && forall k: nat | i < k < n :: !lifts(k)
  }

  /** One more step: it sets the condition, or leaves standing what stood. */
  lemma UnliftedStep(initial: bool, sets: nat -> bool, lifts: nat -> bool, n: nat)
    ensures Unlifted(initial, sets, lifts, n + 1) <==> sets(n) || (Unlifted(initial, sets, lifts, n) && !lifts(n))
  {
    if Unlifted(initial, sets, lifts, n) && !lifts(n) {
      if !(initial && forall k: nat | k < n :: !lifts(k)) {
        var i: nat :| i < n && sets(i) && forall k: nat | i < k < n :: !lifts(k);
        assert forall k: nat | i < k < n + 1 :: !lifts(k);
      }
    }
  }

  /** The same when what came before the last step is told by other functions that agree on it. */
  lemma UnliftedGrows(
      initial: bool, sets: nat -> bool, lifts: nat -> bool, sets2: nat -> bool, lifts2: nat -> bool, n: nat)
    requires forall k: nat | k < n :: sets(k) == sets2(k) && lifts(k) == lifts2(k)
    ensures Unlifted(initial, sets, lifts, n + 1) <==> sets(n) || (Unlifted(initial, sets2, lifts2, n) && !lifts(n))
  {
    UnliftedStep(initial, sets, lifts, n);
  }
}
