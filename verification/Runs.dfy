/** Repeating a deterministic step. */
module Runs {
  ghost function Iterate<S>(step: S -> S, s: S, k: nat): S {
    if k == 0 then s else step(Iterate(step, s, k - 1))
  }

  lemma {:induction false} Keeps<S(!new)>(step: S -> S, P: S -> bool, s: S, k: nat)
    requires P(s) && forall t :: P(t) ==> P(step(t))
    ensures P(Iterate(step, s, k))
  {
    if k > 0 { Keeps(step, P, s, k - 1); }
  }

  lemma {:induction false} FixedForEver<S>(step: S -> S, s: S, k: nat, more: nat)
    requires step(Iterate(step, s, k)) == Iterate(step, s, k)
    ensures Iterate(step, s, k + more) == Iterate(step, s, k)
  {
    if more > 0 { FixedForEver(step, s, k, more - 1); }
  }
}
