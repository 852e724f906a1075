/** Runs of any step relation, and what a step keeps over them. */
module Runs {

  ghost predicate IsRun<S(!new), T(!new)>(trace: seq<S>, inputs: seq<T>, step: (S, T, S) -> bool) {
    && |trace| == |inputs| + 1
    && forall i {:trigger inputs[i]} :: 0 <= i < |inputs| ==> step(trace[i], inputs[i], trace[i + 1])
  }

  lemma {:induction false} RunKeeps<S(!new), T(!new)>(
    trace: seq<S>, inputs: seq<T>, step: (S, T, S) -> bool, good: S -> bool, i: nat)
    requires IsRun(trace, inputs, step) && i < |trace| && good(trace[0])
    requires forall s, t, s' :: step(s, t, s') && good(s) ==> good(s')
    ensures good(trace[i])
  {
    if i == 0 {
    } else {
      RunKeeps(trace, inputs, step, good, i - 1);
      assert step(trace[i - 1], inputs[i - 1], trace[i]);
    }
  }
}
