/** Runs of a state machine: a step function applied to one input after another. */
module Folds {
  function Fold<S, C>(step: (S, C) -> S, s: S, input: seq<C>): S {
    if input == [] then s else step(Fold(step, s, input[..|input| - 1]), input[|input| - 1])
  }

  lemma FoldOfMore<S, C>(step: (S, C) -> S, s: S, input: seq<C>, c: C)
    ensures Fold(step, s, input + [c]) == step(Fold(step, s, input), c)
  {
  }

  /** The states of a run, from before the first input to after the last. */
  ghost predicate IsRun<S, C>(step: (S, C) -> S, t: seq<S>, input: seq<C>) {
    |t| == |input| + 1 && forall k :: 1 <= k <= |input| ==> StepAt(step, t, input, k)
  }

  ghost predicate StepAt<S, C>(step: (S, C) -> S, t: seq<S>, input: seq<C>, k: nat)
    requires 1 <= k <= |input| < |t|
  {
    t[k] == step(t[k - 1], input[k - 1])
  }

  /** A loop over the input that ends early when a state is reached at which it is to
      stop: that state, the number of inputs taken (n of them before), and whether it
      ended early. */
  function Search<S, C>(step: (S, C) -> S, stop: S -> bool, s: S, input: seq<C>, n: nat): (S, nat, bool)
    decreases |input|
  {
    if input == [] then (s, n, false)
    else
      var t := step(s, input[0]);
      if stop(t) then (t, n + 1, true) else Search(step, stop, t, input[1..], n + 1)
  }

  lemma SearchOfMore<S, C>(step: (S, C) -> S, stop: S -> bool, s: S, input: seq<C>, n: nat)
    requires n < |input|
    ensures var t := step(s, input[n]);
            Search(step, stop, s, input[n..], n)
            == if stop(t) then (t, n + 1, true) else Search(step, stop, t, input[n + 1..], n + 1)
  {
  }

  /** No stop from the first up to the k-th input. */
  ghost predicate NoStop<S>(stop: S -> bool, t: seq<S>, k: nat)
    requires k < |t|
  {
    k == 0 || (NoStop(stop, t, k - 1) && !stop(t[k]))
  }

  /** The loop follows the run and ends at its first stop, or at the end. */
  lemma {:induction false} SearchFollowsRun<S, C>(step: (S, C) -> S, stop: S -> bool, t: seq<S>, input: seq<C>, n: nat)
    requires IsRun(step, t, input) && n <= |input| && NoStop(stop, t, n)
    ensures var (u, k, found) := Search(step, stop, t[n], input[n..], n);
            && n <= k <= |input| && u == t[k]
            && if found then n < k && stop(t[k]) && NoStop(stop, t, k - 1) else k == |input| && NoStop(stop, t, k)
    decreases |input| - n
  {
    if n < |input| {
      SearchOfMore(step, stop, t[n], input, n);
      assert StepAt(step, t, input, n + 1);
      if !stop(t[n + 1]) {
        SearchFollowsRun(step, stop, t, input, n + 1);
      }
    }
  }

  lemma SearchFromStart<S, C>(step: (S, C) -> S, stop: S -> bool, t: seq<S>, input: seq<C>, r: (S, nat, bool))
    requires IsRun(step, t, input) && r == Search(step, stop, t[0], input, 0)
    ensures r.1 <= |input| && r.0 == t[r.1]
    ensures if r.2 then 0 < r.1 && stop(t[r.1]) && NoStop(stop, t, r.1 - 1)
            else r.1 == |input| && NoStop(stop, t, r.1)
  {
    assert input[0..] == input;
    SearchFollowsRun(step, stop, t, input, 0);
  }

  /** A state's property that lasts until the first stop. */
  predicate LastsAt<S>(holds: S -> bool, stop: S -> bool, t: seq<S>, k: nat)
    requires 1 <= k < |t|
  {
    holds(t[k]) <==> holds(t[k - 1]) && !stop(t[k])
  }

  lemma {:induction false} LastsUntilStop<S>(holds: S -> bool, stop: S -> bool, t: seq<S>, k: nat)
    requires k < |t| && holds(t[0]) && forall i :: 1 <= i <= k ==> LastsAt(holds, stop, t, i)
    ensures holds(t[k]) <==> NoStop(stop, t, k)
  {
    if k > 0 {
      LastsUntilStop(holds, stop, t, k - 1);
      assert LastsAt(holds, stop, t, k);
    }
  }

  /** A count that starts again behind every stop, and grows by at most one. */
  predicate CountsAt<S>(count: S -> nat, stop: S -> bool, t: seq<S>, k: nat)
    requires 1 <= k < |t|
  {
    count(t[k]) <= (if stop(t[k - 1]) then 0 else count(t[k - 1])) + 1
  }

  lemma {:induction false} CountSinceStop<S>(count: S -> nat, stop: S -> bool, t: seq<S>, i: nat, j: nat)
    requires i < j < |t| && stop(t[i]) && forall k :: i < k <= j ==> CountsAt(count, stop, t, k)
    ensures count(t[j]) <= j - i
  {
    assert CountsAt(count, stop, t, j);
    if j > i + 1 {
      CountSinceStop(count, stop, t, i, j - 1);
    }
  }
}
