/** Runs of a transition system, and the two proof rules every machine in this
    project uses: an inductive invariant holds along every run, and a property
    kept by each step holds between any two states of a run. */
module Runs {

  /** `run` starts in an initial state and takes one step from each state to the next. */
  ghost predicate IsRun<S(!new)>(init: S -> bool, next: (S, S) -> bool, run: seq<S>) {
    && 0 < |run|
    && init(run[0])
    && forall i :: 0 <= i < |run| - 1 ==> next(run[i], run[i + 1])
  }

  lemma {:induction false} InvariantHolds<S(!new)>(init: S -> bool, next: (S, S) -> bool, inv: S -> bool, run: seq<S>, k: nat)
    requires IsRun(init, next, run) && k < |run|
    requires forall s :: init(s) ==> inv(s)
    requires forall s, s' :: inv(s) && next(s, s') ==> inv(s')
    ensures inv(run[k])
  {
    if k == 0 {
    } else {
      InvariantHolds(init, next, inv, run, k - 1);
      assert next(run[k - 1], run[k - 1 + 1]);
    }
  }

  /** A reflexive and transitive relation kept by each step taken while `during`
      holds relates the two ends of any stretch of a run on which it holds. */
  lemma {:induction false} RelationHolds<S(!new)>(init: S -> bool, next: (S, S) -> bool, inv: S -> bool, during: S -> bool,
                                                  rel: (S, S) -> bool, run: seq<S>, i: nat, k: nat)
    requires IsRun(init, next, run) && i <= k < |run|
    requires forall j :: i <= j < k ==> during(run[j])
    requires forall s :: init(s) ==> inv(s)
    requires forall s, s' :: inv(s) && next(s, s') ==> inv(s')
    requires forall s, s' :: inv(s) && during(s) && next(s, s') ==> rel(s, s')
    requires forall s :: rel(s, s)
    requires forall a, b, c :: rel(a, b) && rel(b, c) ==> rel(a, c)
    ensures rel(run[i], run[k])
    decreases k
  {
    if i < k {
      RelationHolds(init, next, inv, during, rel, run, i, k - 1);
      InvariantHolds(init, next, inv, run, k - 1);
      assert next(run[k - 1], run[k - 1 + 1]);
    }
  }
}
