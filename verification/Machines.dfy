/** Runs of a transition system: finite sequences of steps, each one enabled where it is
    taken. */
module Machines {

  datatype Machine<!S, !T> = Machine(enabled: (S, T) -> bool, next: (S, T) -> S)

  predicate Runs<S, T>(m: Machine<S, T>, s: S, steps: seq<T>)
    decreases steps
  {
    steps == [] || (m.enabled(s, steps[0]) && Runs(m, m.next(s, steps[0]), steps[1..]))
  }

  function Run<S, T>(m: Machine<S, T>, s: S, steps: seq<T>): S
    decreases steps
  {
    if steps == [] then s else Run(m, m.next(s, steps[0]), steps[1..])
  }

  /** What every allowed step keeps, every run of allowed steps keeps. */
  lemma {:induction false} RunKeeps<S(!new), T(!new)>(m: Machine<S, T>, allowed: T -> bool, inv: S -> bool, s: S,
                                                      steps: seq<T>)
    requires inv(s) && Runs(m, s, steps) && forall i | 0 <= i < |steps| :: allowed(steps[i])
    requires forall r: S, step: T :: inv(r) && m.enabled(r, step) && allowed(step) ==> inv(m.next(r, step))
    ensures inv(Run(m, s, steps))
    decreases steps
  {
    if steps != [] {
      assert forall i | 0 <= i < |steps[1..]| :: steps[1..][i] == steps[i + 1];
      RunKeeps(m, allowed, inv, m.next(s, steps[0]), steps[1..]);
    }
  }

  lemma {:induction false} RunSnoc<S, T>(m: Machine<S, T>, s: S, steps: seq<T>, step: T)
    requires Runs(m, s, steps) && m.enabled(Run(m, s, steps), step)
    ensures Runs(m, s, steps + [step]) && Run(m, s, steps + [step]) == m.next(Run(m, s, steps), step)
    decreases steps
  {
    if steps != [] {
      assert (steps + [step])[1..] == steps[1..] + [step];
      RunSnoc(m, m.next(s, steps[0]), steps[1..], step);
    }
  }

  /** One more step at the end of a run. */
  lemma Extend<S, T>(m: Machine<S, T>, start: S, steps: seq<T>, s: S, step: T) returns (more: seq<T>, r: S)
    requires Runs(m, start, steps) && Run(m, start, steps) == s && m.enabled(s, step)
    ensures more == steps + [step] && r == m.next(s, step)
    ensures Runs(m, start, more) && Run(m, start, more) == r
  {
    more, r := steps + [step], m.next(s, step);
    RunSnoc(m, start, steps, step);
  }

  lemma {:induction false} RunConcat<S, T>(m: Machine<S, T>, s: S, steps: seq<T>, more: seq<T>)
    requires Runs(m, s, steps) && Runs(m, Run(m, s, steps), more)
    ensures Runs(m, s, steps + more) && Run(m, s, steps + more) == Run(m, Run(m, s, steps), more)
    decreases steps
  {
    if steps == [] {
      assert steps + more == more;
    } else {
      assert (steps + more)[1..] == steps[1..] + more;
      RunConcat(m, m.next(s, steps[0]), steps[1..], more);
    }
  }
}
