/** Paths of a step relation. */
module Paths {
  ghost predicate Steps<S(!new)>(next: (S, S) -> bool, run: seq<S>, i: nat)
    requires i + 1 < |run|
  {
    next(run[i], run[i + 1])
  }

  ghost predicate Path<S(!new)>(next: (S, S) -> bool, run: seq<S>, s: S, s': S) {
    && |run| > 0 && run[0] == s && run[|run| - 1] == s'
    && forall i: nat :: i + 1 < |run| ==> Steps(next, run, i)
  }

  lemma Extend<S(!new)>(next: (S, S) -> bool, run: seq<S>, s0: S, s: S, s': S) returns (run': seq<S>)
    requires Path(next, run, s0, s) && next(s, s')
    ensures Path(next, run', s0, s')
  {
    run' := run + [s'];
    forall i: nat | i + 1 < |run'| ensures Steps(next, run', i) {
      if i + 1 < |run| { assert Steps(next, run, i); }
    }
  }
}
