/** Paths of a machine given by the relation between a state, a step and the state after it. */
module Runs {
  ghost predicate IsPath<S(!new), T(!new)>(next: (S, T, S) -> bool, run: seq<S>, steps: seq<T>) {
    && |run| == |steps| + 1
    && forall i {:trigger steps[i]} | 0 <= i < |steps| :: next(run[i], steps[i], run[i + 1])
  }

  /** Some path leads from `s` to `t`. */
  ghost predicate Leads<S(!new), T(!new)>(next: (S, T, S) -> bool, s: S, t: S) {
    exists run, steps :: IsPath(next, run, steps) && run[0] == s && run[|steps|] == t
  }

  lemma LeadsNowhere<S(!new), T(!new)>(next: (S, T, S) -> bool, s: S)
    ensures Leads(next, s, s)
  {
    var steps: seq<T> := [];
    assert IsPath(next, [s], steps) && [s][|steps|] == s;
  }

  lemma LeadsOn<S(!new), T(!new)>(next: (S, T, S) -> bool, s: S, t: S, step: T, u: S)
    requires Leads(next, s, t) && next(t, step, u)
    ensures Leads(next, s, u)
  {
    var run, steps :| IsPath(next, run, steps) && run[0] == s && run[|steps|] == t;
    var run', steps' := run + [u], steps + [step];
    forall i | 0 <= i < |steps'| ensures next(run'[i], steps'[i], run'[i + 1]) {
      if i < |steps| {
        assert run'[i] == run[i] && run'[i + 1] == run[i + 1] && steps'[i] == steps[i];
      }
    }
    assert IsPath(next, run', steps') && run'[|steps'|] == u;
  }

  lemma {:induction false} LeadsAlong<S(!new), T(!new)>(next: (S, T, S) -> bool, s: S, run: seq<S>, steps: seq<T>, k: nat)
    requires IsPath(next, run, steps) && k < |run| && Leads(next, s, run[0])
    ensures Leads(next, s, run[k])
  {
    if k > 0 {
      LeadsAlong(next, s, run, steps, k - 1);
      LeadsOn(next, s, run[k - 1], steps[k - 1], run[k]);
    }
  }

  lemma LeadsThrough<S(!new), T(!new)>(next: (S, T, S) -> bool, s: S, t: S, u: S)
    requires Leads(next, s, t) && Leads(next, t, u)
    ensures Leads(next, s, u)
  {
    var run, steps :| IsPath(next, run, steps) && run[0] == t && run[|steps|] == u;
    LeadsAlong(next, s, run, steps, |steps|);
  }
}
