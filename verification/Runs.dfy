/**
 * Runs of a state machine. A machine gives the state after a step, or None when the step is not possible.
 */
module Runs {
  import opened Common

  /** The state after a sequence of steps, or None when one of them was not possible. */
  function Run<S, A>(machine: (S, A) -> Option<S>, s: S, steps: seq<A>): Option<S>
    decreases |steps|
  {
    if |steps| == 0 then Some(s)
    else
      var next := machine(s, steps[0]);
      if next.None? then None else Run(machine, next.value, steps[1..])
  }

  lemma {:induction false} RunSnoc<S, A>(machine: (S, A) -> Option<S>, s: S, steps: seq<A>, mid: S, step: A)
    requires Run(machine, s, steps) == Some(mid)
    ensures Run(machine, s, steps + [step]) == machine(mid, step)
    decreases |steps|
  {
    if |steps| == 0 {
      assert (steps + [step])[1..] == [];
    } else {
      RunSnoc(machine, machine(s, steps[0]).value, steps[1..], mid, step);
      assert (steps + [step])[1..] == steps[1..] + [step];
    }
  }

  lemma {:induction false} RunConcat<S, A>(machine: (S, A) -> Option<S>, s: S, a: seq<A>, mid: S, b: seq<A>)
    requires Run(machine, s, a) == Some(mid)
    ensures Run(machine, s, a + b) == Run(machine, mid, b)
    decreases |a|
  {
    if |a| == 0 {
      assert a + b == b;
    } else {
      RunConcat(machine, machine(s, a[0]).value, a[1..], mid, b);
      assert (a + b)[1..] == a[1..] + b;
    }
  }

  lemma TwoSteps<S, A>(machine: (S, A) -> Option<S>, s: S, a: A, mid: S, b: A)
    requires machine(s, a) == Some(mid)
    ensures Run(machine, s, [a, b]) == machine(mid, b)
  {
    var none: seq<A> := [];
    RunSnoc(machine, s, none, s, a);
    assert none + [a] == [a];
    RunSnoc(machine, s, [a], mid, b);
    assert [a] + [b] == [a, b];
  }

  /** Some run from an initial state ends in `s`. */
  ghost predicate Reachable<S(!new), A(!new)>(machine: (S, A) -> Option<S>, initial: S -> bool, s: S) {
    exists s0: S, steps: seq<A> :: initial(s0) && Run(machine, s0, steps) == Some(s)
  }

  lemma Begin<S(!new), A(!new)>(machine: (S, A) -> Option<S>, initial: S -> bool, s: S)
    requires initial(s)
    ensures Reachable(machine, initial, s)
  {
    var none: seq<A> := [];
    assert Run(machine, s, none) == Some(s);
  }

  lemma Extend<S(!new), A(!new)>(machine: (S, A) -> Option<S>, initial: S -> bool, s: S, step: A) returns (next: S)
    requires Reachable(machine, initial, s) && machine(s, step).Some?
    ensures next == machine(s, step).value && Reachable(machine, initial, next)
  {
    next := machine(s, step).value;
    var s0: S, steps: seq<A> :| initial(s0) && Run(machine, s0, steps) == Some(s);
    RunSnoc(machine, s0, steps, s, step);
  }

  /** Whatever `small` can do, `large` does too. */
  ghost predicate Within<S(!new), A(!new)>(small: (S, A) -> Option<S>, large: (S, A) -> Option<S>) {
    forall s, step :: small(s, step).Some? ==> large(s, step) == small(s, step)
  }

  lemma {:induction false} RunWithin<S(!new), A(!new)>(small: (S, A) -> Option<S>, large: (S, A) -> Option<S>, s: S, steps: seq<A>)
    requires Within(small, large) && Run(small, s, steps).Some?
    ensures Run(large, s, steps) == Run(small, s, steps)
    decreases |steps|
  {
    if |steps| > 0 {
      RunWithin(small, large, small(s, steps[0]).value, steps[1..]);
    }
  }

  lemma ReachableWithin<S(!new), A(!new)>(small: (S, A) -> Option<S>, large: (S, A) -> Option<S>, initial: S -> bool, s: S)
    requires Within(small, large) && Reachable(small, initial, s)
    ensures Reachable(large, initial, s)
  {
    var s0: S, steps: seq<A> :| initial(s0) && Run(small, s0, steps) == Some(s);
    RunWithin(small, large, s0, steps);
  }

  /** Every step of the machine keeps `inv`. */
  ghost predicate Keeps<S(!new), A(!new)>(machine: (S, A) -> Option<S>, inv: S -> bool) {
    forall s, step :: inv(s) && machine(s, step).Some? ==> inv(machine(s, step).value)
  }

  /** What every step keeps, every run keeps. */
  lemma {:induction false} RunKeeps<S(!new), A(!new)>(machine: (S, A) -> Option<S>, inv: S -> bool, s: S, steps: seq<A>)
    requires Keeps(machine, inv) && inv(s) && Run(machine, s, steps).Some?
    ensures inv(Run(machine, s, steps).value)
    decreases |steps|
  {
    if |steps| > 0 {
      RunKeeps(machine, inv, machine(s, steps[0]).value, steps[1..]);
    }
  }

  lemma ReachableKeeps<S(!new), A(!new)>(machine: (S, A) -> Option<S>, initial: S -> bool, inv: S -> bool, s: S)
    requires Keeps(machine, inv) && (forall s0 :: initial(s0) ==> inv(s0)) && Reachable(machine, initial, s)
    ensures inv(s)
  {
    var s0: S, steps: seq<A> :| initial(s0) && Run(machine, s0, steps) == Some(s);
    RunKeeps(machine, inv, s0, steps);
  }
}
