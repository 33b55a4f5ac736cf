/** Loops that build a value step by step and stop at the first step that fails. */
module Folding {
  import opened Wrappers

  /** `init` after the steps for the first `n` elements, or the failure of one of them. */
  function Fold<T, S, E>(s: seq<T>, step: (S, T) -> Result<S, E>, init: S, n: nat): Result<S, E>
    requires n <= |s|
  {
    if n == 0 then Success(init)
    else
      match Fold(s, step, init, n - 1)
      case Failure(error) => Failure(error)
      case Success(state) => step(state, s[n - 1])
  }

  lemma FoldNext<T, S, E>(s: seq<T>, step: (S, T) -> Result<S, E>, init: S, n: nat, state: S)
    requires n < |s| && Fold(s, step, init, n) == Success(state)
    ensures Fold(s, step, init, n + 1) == step(state, s[n])
  {
  }

  lemma {:induction false} FoldStaysFailed<T, S, E>(s: seq<T>, step: (S, T) -> Result<S, E>, init: S, n: nat)
    requires n <= |s| && Fold(s, step, init, n).Failure?
    ensures Fold(s, step, init, |s|) == Fold(s, step, init, n)
    decreases |s| - n
  {
    if n < |s| {
      FoldStaysFailed(s, step, init, n + 1);
    }
  }

  /** A failure is that of the first step that fails. */
  lemma {:induction false} FoldFailsAt<T, S, E>(s: seq<T>, step: (S, T) -> Result<S, E>, init: S, n: nat)
    requires n <= |s| && Fold(s, step, init, n).Failure?
    ensures exists k :: && 0 <= k < n && Fold(s, step, init, k).Success?
                        && step(Fold(s, step, init, k).value, s[k]) == Failure(Fold(s, step, init, n).error)
  {
    if Fold(s, step, init, n - 1).Failure? {
      FoldFailsAt(s, step, init, n - 1);
    }
  }

  /** Each successful step leads from `inv` to `inv`. */
  ghost predicate Keeps<T, S(!new), E>(s: seq<T>, step: (S, T) -> Result<S, E>, inv: (S, nat) -> bool) {
    forall k: nat, state :: k < |s| && inv(state, k) && step(state, s[k]).Success? ==>
                              inv(step(state, s[k]).value, k + 1)
  }

  lemma {:induction false} FoldKeeps<T, S(!new), E>(
    s: seq<T>, step: (S, T) -> Result<S, E>, init: S, inv: (S, nat) -> bool, n: nat)
    requires n <= |s| && inv(init, 0) && Keeps(s, step, inv) && Fold(s, step, init, n).Success?
    ensures inv(Fold(s, step, init, n).value, n)
  {
    if n > 0 {
      FoldKeeps(s, step, init, inv, n - 1);
    }
  }

  /** Where `inv` holds, a step succeeds exactly for the elements with `p`. */
  ghost predicate Tests<T, S(!new), E>(
    s: seq<T>, step: (S, T) -> Result<S, E>, inv: (S, nat) -> bool, p: T -> bool)
  {
    forall k: nat, state :: k < |s| && inv(state, k) ==> (step(state, s[k]).Success? <==> p(s[k]))
  }

  /** The loop succeeds exactly if all elements have `p`. */
  lemma {:induction false} FoldSucceedsIff<T, S(!new), E>(
    s: seq<T>, step: (S, T) -> Result<S, E>, init: S, inv: (S, nat) -> bool, p: T -> bool, n: nat)
    requires n <= |s| && inv(init, 0) && Keeps(s, step, inv) && Tests(s, step, inv, p)
    ensures Fold(s, step, init, n).Success? <==> forall i :: 0 <= i < n ==> p(s[i])
  {
    if n > 0 {
      FoldSucceedsIff(s, step, init, inv, p, n - 1);
      if Fold(s, step, init, n - 1).Success? {
        FoldKeeps(s, step, init, inv, n - 1);
        assert step(Fold(s, step, init, n - 1).value, s[n - 1]).Success? <==> p(s[n - 1]);
      }
    }
  }
}
