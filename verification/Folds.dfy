/** Loops as folds. */
module Folds {
  /** A loop over the first `k` of `ms`, as a fold. */
  function Iterate<S, M>(step: (S, M) -> S, s: S, ms: seq<M>, k: nat): S
    requires k <= |ms|
  {
    if k == 0 then s else step(Iterate(step, s, ms, k - 1), ms[k - 1])
  }

  /** Loop invariants of a fold. */
  lemma {:induction false} IterateKeeps<S, M>(step: (S, M) -> S, s: S, ms: seq<M>, k: nat, inv: (S, nat) -> bool)
    requires k <= |ms| && inv(s, 0)
    requires forall r: S, i: nat {:trigger inv(r, i)} :: i < |ms| && inv(r, i) ==> inv(step(r, ms[i]), i + 1)
    ensures inv(Iterate(step, s, ms, k), k)
  {
    if k > 0 {
      IterateKeeps(step, s, ms, k - 1, inv);
    }
  }
}
