/**
 * Runs of a state machine, given by when a step is possible and by the state it leads to.
 */
module Runs {

  ghost predicate IsRun<S, T>(possible: (S, T) -> bool, next: (S, T) -> S, s: S, steps: seq<T>)
    decreases |steps|
  {
    steps != [] ==> possible(s, steps[0]) && IsRun(possible, next, next(s, steps[0]), steps[1..])
  }

  ghost function After<S, T>(next: (S, T) -> S, s: S, steps: seq<T>): (s': S)
    decreases |steps|
  {
    if steps == [] then s else After(next, next(s, steps[0]), steps[1..])
  }

  /** If every step is always possible, every list of steps is a run. */
  lemma {:induction false} Anything<S(!new), T(!new)>(possible: (S, T) -> bool, next: (S, T) -> S, s: S, steps: seq<T>)
    requires forall s, t :: possible(s, t)
    ensures IsRun(possible, next, s, steps)
    decreases |steps|
  {
    if steps != [] {
      Anything(possible, next, next(s, steps[0]), steps[1..]);
    }
  }

  /** The rule holds before, between and after the steps. */
  ghost predicate Always<S, T>(rule: S -> bool, next: (S, T) -> S, s: S, steps: seq<T>)
    decreases |steps|
  {
    rule(s) && (steps != [] ==> Always(rule, next, next(s, steps[0]), steps[1..]))
  }

  ghost predicate Never<S, T>(bad: (S, T) -> bool, next: (S, T) -> S, s: S, steps: seq<T>)
    decreases |steps|
  {
    steps != [] ==> !bad(s, steps[0]) && Never(bad, next, next(s, steps[0]), steps[1..])
  }

  ghost predicate Keeps<S(!new), T(!new)>(possible: (S, T) -> bool, next: (S, T) -> S, inv: S -> bool) {
    forall s, t :: inv(s) && possible(s, t) ==> inv(next(s, t))
  }

  lemma {:induction false} RunKeeps<S(!new), T(!new)>(
      possible: (S, T) -> bool, next: (S, T) -> S, inv: S -> bool, s: S, steps: seq<T>)
    requires inv(s) && Keeps(possible, next, inv) && IsRun(possible, next, s, steps)
    ensures inv(After(next, s, steps))
    decreases |steps|
  {
    if steps != [] {
      assert inv(next(s, steps[0]));
      RunKeeps(possible, next, inv, next(s, steps[0]), steps[1..]);
    }
  }

  lemma {:induction false} AlwaysHoldsAfter<S, T>(rule: S -> bool, next: (S, T) -> S, s: S, steps: seq<T>)
    requires Always(rule, next, s, steps)
    ensures rule(After(next, s, steps))
    decreases |steps|
  {
    if steps != [] {
      AlwaysHoldsAfter(rule, next, next(s, steps[0]), steps[1..]);
    }
  }

  /** As long as the rule holds, exactly the bad steps break it. */
  ghost predicate OnlyBrokenBy<S(!new), T(!new)>(
      possible: (S, T) -> bool, next: (S, T) -> S, inv: S -> bool, rule: S -> bool, bad: (S, T) -> bool)
  {
    forall s, t :: inv(s) && rule(s) && possible(s, t) ==> (rule(next(s, t)) <==> !bad(s, t))
  }

  /** Then a run keeps the rule throughout exactly if it has no bad step. */
  lemma {:induction false} AlwaysExactly<S(!new), T(!new)>(
      possible: (S, T) -> bool, next: (S, T) -> S, inv: S -> bool, rule: S -> bool, bad: (S, T) -> bool,
      s: S, steps: seq<T>)
    requires inv(s) && rule(s) && Keeps(possible, next, inv) && OnlyBrokenBy(possible, next, inv, rule, bad)
    requires IsRun(possible, next, s, steps)
    ensures Always(rule, next, s, steps) <==> Never(bad, next, s, steps)
    decreases |steps|
  {
    if steps != [] {
      assert inv(next(s, steps[0])) && (rule(next(s, steps[0])) <==> !bad(s, steps[0]));
      if rule(next(s, steps[0])) {
        AlwaysExactly(possible, next, inv, rule, bad, next(s, steps[0]), steps[1..]);
      }
    }
  }

  /** A run with stronger conditions is a run. */
  lemma {:induction false} RunWeaken<S(!new), T(!new)>(
      strong: (S, T) -> bool, weak: (S, T) -> bool, next: (S, T) -> S, s: S, steps: seq<T>)
    requires forall s, t :: strong(s, t) ==> weak(s, t)
    requires IsRun(strong, next, s, steps)
    ensures IsRun(weak, next, s, steps)
    decreases |steps|
  {
    if steps != [] {
      RunWeaken(strong, weak, next, next(s, steps[0]), steps[1..]);
    }
  }

  /** If no possible step is bad while the invariant holds, a run has no bad step. */
  lemma {:induction false} NeverBad<S(!new), T(!new)>(
      possible: (S, T) -> bool, next: (S, T) -> S, inv: S -> bool, bad: (S, T) -> bool, s: S, steps: seq<T>)
    requires inv(s) && Keeps(possible, next, inv) && IsRun(possible, next, s, steps)
    requires forall s, t :: inv(s) && possible(s, t) ==> !bad(s, t)
    ensures Never(bad, next, s, steps)
    decreases |steps|
  {
    if steps != [] {
      assert inv(next(s, steps[0]));
      NeverBad(possible, next, inv, bad, next(s, steps[0]), steps[1..]);
    }
  }

  /** One step in front of a run. */
  lemma RunStep<S, T>(possible: (S, T) -> bool, next: (S, T) -> S, s: S, step: T, rest: seq<T>)
    requires possible(s, step) && IsRun(possible, next, next(s, step), rest)
    ensures IsRun(possible, next, s, [step] + rest)
    ensures After(next, s, [step] + rest) == After(next, next(s, step), rest)
  {
    assert ([step] + rest)[0] == step && ([step] + rest)[1..] == rest;
  }

  lemma {:induction false} RunAppend<S, T>(possible: (S, T) -> bool, next: (S, T) -> S, s: S, a: seq<T>, b: seq<T>)
    requires IsRun(possible, next, s, a) && IsRun(possible, next, After(next, s, a), b)
    ensures IsRun(possible, next, s, a + b) && After(next, s, a + b) == After(next, After(next, s, a), b)
    decreases |a|
  {
    if a == [] {
      assert a + b == b;
    } else {
      assert (a + b)[0] == a[0] && (a + b)[1..] == a[1..] + b;
      RunAppend(possible, next, next(s, a[0]), a[1..], b);
    }
  }

  /** Three steps, one after the other. */
  lemma RunThree<S, T>(possible: (S, T) -> bool, next: (S, T) -> S, s: S, steps: seq<T>)
    requires |steps| == 3 && possible(s, steps[0]) && possible(next(s, steps[0]), steps[1])
    requires possible(next(next(s, steps[0]), steps[1]), steps[2])
    ensures IsRun(possible, next, s, steps)
    ensures After(next, s, steps) == next(next(next(s, steps[0]), steps[1]), steps[2])
  {
    var s2 := next(next(s, steps[0]), steps[1]);
    assert steps == [steps[0]] + ([steps[1]] + ([steps[2]] + []));
    RunStep(possible, next, s2, steps[2], []);
    RunStep(possible, next, next(s, steps[0]), steps[1], [steps[2]] + []);
    RunStep(possible, next, s, steps[0], [steps[1]] + ([steps[2]] + []));
  }
}
