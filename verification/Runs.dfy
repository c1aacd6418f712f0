/** Runs of a transition system: sequences of states linked by actions, and induction along them. */
module Runs {

  /** `acts[i]` takes state `tr[i]` to state `tr[i + 1]`. */
  ghost predicate IsRun<S(!new), A(!new)>(next: (S, A, S) -> bool, tr: seq<S>, acts: seq<A>) {
    && |tr| == |acts| + 1
    && forall i {:trigger acts[i]} :: 0 <= i < |acts| ==> next(tr[i], acts[i], tr[i + 1])
  }

  ghost predicate Inductive<S(!new), A(!new)>(next: (S, A, S) -> bool, inv: S -> bool) {
    forall s, a, s' :: inv(s) && next(s, a, s') ==> inv(s')
  }

  /** What holds at the start and is kept by every step holds in every state of a run. */
  lemma {:induction false} Invariant<S(!new), A(!new)>(
    next: (S, A, S) -> bool, inv: S -> bool, tr: seq<S>, acts: seq<A>, k: nat)
    requires IsRun(next, tr, acts) && k <= |acts| && inv(tr[0]) && Inductive(next, inv)
    ensures inv(tr[k])
  {
    if k > 0 {
      Invariant(next, inv, tr, acts, k - 1);
      assert next(tr[k - 1], acts[k - 1], tr[k]);
    }
  }

  /** A run can be extended by one more step. */
  lemma Extended<S(!new), A(!new)>(next: (S, A, S) -> bool, tr: seq<S>, acts: seq<A>, a: A, s: S)
    requires IsRun(next, tr, acts) && next(tr[|acts|], a, s)
    ensures IsRun(next, tr + [s], acts + [a])
  {
    forall i {:trigger (acts + [a])[i]} | 0 <= i < |acts + [a]|
      ensures next((tr + [s])[i], (acts + [a])[i], (tr + [s])[i + 1])
    {
      if i < |acts| {
        assert next(tr[i], acts[i], tr[i + 1]);
      }
    }
  }
}
