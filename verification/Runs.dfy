/** Runs of a step system: which steps a state allows, and where each leads. */
module Runs {

  datatype System<!S(!new), !T(!new)> = System(enabled: (S, T) -> bool, next: (S, T) -> S) {

    ghost predicate IsRun(s: S, steps: seq<T>)
      decreases |steps|
    {
      steps == [] || (enabled(s, steps[0]) && IsRun(next(s, steps[0]), steps[1..]))
    }

    function Final(s: S, steps: seq<T>): S
      decreases |steps|
    {
      if steps == [] then s else Final(next(s, steps[0]), steps[1..])
    }

    /** What every step keeps, every run keeps. */
    lemma {:induction false} Keeps(inv: S -> bool, s: S, steps: seq<T>)
      requires inv(s) && IsRun(s, steps)
      requires forall x, t :: inv(x) && enabled(x, t) ==> inv(next(x, t))
      ensures inv(Final(s, steps))
      decreases |steps|
    {
      if steps != [] {
        Keeps(inv, next(s, steps[0]), steps[1..]);
      }
    }

    /** The same, when the steps of the run are of a certain kind. */
    lemma {:induction false} KeepsOn(inv: S -> bool, kind: T -> bool, s: S, steps: seq<T>)
      requires inv(s) && IsRun(s, steps) && forall i :: 0 <= i < |steps| ==> kind(steps[i])
      requires forall x, t :: inv(x) && enabled(x, t) && kind(t) ==> inv(next(x, t))
      ensures inv(Final(s, steps))
      decreases |steps|
    {
      if steps != [] {
        KeepsOn(inv, kind, next(s, steps[0]), steps[1..]);
      }
    }

    lemma {:induction false} Concat(s: S, a: seq<T>, b: seq<T>)
      requires IsRun(s, a) && IsRun(Final(s, a), b)
      ensures IsRun(s, a + b) && Final(s, a + b) == Final(Final(s, a), b)
      decreases |a|
    {
      if a == [] {
        assert a + b == b;
      } else {
        assert (a + b)[1..] == a[1..] + b;
        Concat(next(s, a[0]), a[1..], b);
      }
    }

    lemma Then(s: S, steps: seq<T>, step: T)
      requires IsRun(s, steps) && enabled(Final(s, steps), step)
      ensures IsRun(s, steps + [step]) && Final(s, steps + [step]) == next(Final(s, steps), step)
    {
      assert [step][1..] == [];
      Concat(s, steps, [step]);
    }
  }
}
