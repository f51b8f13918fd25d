/** Optional values, and executions of step machines. */
module Runs {

  datatype Option<+T> = None | Some(value: T)

  /** A machine starts in `init`; `step(s, a)` is `None` when action `a` cannot be taken in state
      `s`.  A run is the sequence of its actions; every prefix of a run is a run. */
  datatype Machine<!S(!new), !A(!new)> = Machine(init: S, step: (S, A) -> Option<S>) {

    /** The state after performing `acts` in order, or `None` if one of them is not possible. */
    function Exec(acts: seq<A>): Option<S>
      decreases |acts|
    {
      if acts == [] then Some(init)
      else
        var before := Exec(acts[..|acts| - 1]);
        if before.None? then None else step(before.value, acts[|acts| - 1])
    }

    ghost predicate Reached(acts: seq<A>) {
      Exec(acts).Some?
    }

    /** The state after the first `i` actions of a run. */
    ghost function At(acts: seq<A>, i: nat): S
      requires Reached(acts) && i <= |acts|
    {
      PrefixRuns(acts, i);
      Exec(acts[..i]).value
    }

    /** A run reaches every intermediate state, and the next state is one step away. */
    lemma {:induction false} PrefixRuns(acts: seq<A>, i: nat)
      requires Reached(acts) && i <= |acts|
      ensures Reached(acts[..i])
      ensures i < |acts| ==>
                && Reached(acts[..i + 1])
                && step(Exec(acts[..i]).value, acts[i]) == Exec(acts[..i + 1])
      decreases |acts|
    {
      if i == |acts| {
        assert acts[..i] == acts;
      } else {
        var shorter := acts[..|acts| - 1];
        PrefixRuns(shorter, i);
        assert shorter[..i] == acts[..i];
        if i == |acts| - 1 {
          assert acts[..i + 1] == acts;
        } else {
          assert shorter[..i + 1] == acts[..i + 1];
        }
      }
    }

    /** What every step keeps, and holds after `i` actions, holds after every later action. */
    lemma {:induction false} KeptBetween(inv: S -> bool, acts: seq<A>, i: nat, j: nat)
      requires Reached(acts) && i <= j <= |acts|
      requires forall s, a :: inv(s) && step(s, a).Some? ==> inv(step(s, a).value)
      requires inv(At(acts, i))
      ensures inv(At(acts, j))
      decreases j - i
    {
      if i < j {
        PrefixRuns(acts, i);
        KeptBetween(inv, acts, i + 1, j);
      }
    }

    /** What holds at first and is kept by every step holds throughout every run. */
    lemma Always(inv: S -> bool, acts: seq<A>, i: nat)
      requires Reached(acts) && i <= |acts|
      requires inv(init) && forall s, a :: inv(s) && step(s, a).Some? ==> inv(step(s, a).value)
      ensures inv(At(acts, i))
    {
      KeptBetween(inv, acts, 0, i);
    }

    /** A run goes on with any possible action. */
    lemma Extended(acts: seq<A>, s: S, a: A) returns (next: seq<A>, s': S)
      requires Exec(acts) == Some(s) && step(s, a).Some?
      ensures next == acts + [a] && s' == step(s, a).value && Exec(next) == Some(s')
    {
      next, s' := acts + [a], step(s, a).value;
      assert next[..|next| - 1] == acts;
    }
  }
}
