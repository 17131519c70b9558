/** Finite labelled runs of a transition system, and the two arguments every protocol uses:
    an inductive invariant holds all along a run, and a decreasing measure bounds its length. */
module Runs {

  ghost predicate IsRun<S(!new), L(!new)>(init: S -> bool, next: (S, L, S) -> bool, run: seq<S>, labels: seq<L>) {
    && |run| == |labels| + 1
    && init(run[0])
    && forall i :: 0 <= i < |labels| ==> next(run[i], labels[i], run[i + 1])
  }

  /** A run without its last step. */
  lemma DropLast<S(!new), L(!new)>(init: S -> bool, next: (S, L, S) -> bool, run: seq<S>, labels: seq<L>)
    requires IsRun(init, next, run, labels) && |labels| > 0
    ensures IsRun(init, next, run[..|labels|], labels[..|labels| - 1])
    ensures next(run[|labels| - 1], labels[|labels| - 1], run[|labels|])
  {
    var n := |labels| - 1;
    forall i | 0 <= i < n
      ensures next(run[..n + 1][i], labels[..n][i], run[..n + 1][i + 1])
    {
      assert next(run[i], labels[i], run[i + 1]);
    }
  }

  /** A run with one more step. */
  lemma Extend<S(!new), L(!new)>(init: S -> bool, next: (S, L, S) -> bool, run: seq<S>, labels: seq<L>, l: L, s: S)
    returns (run': seq<S>, labels': seq<L>)
    requires IsRun(init, next, run, labels) && next(run[|labels|], l, s)
    ensures IsRun(init, next, run', labels')
    ensures run' == run + [s] && labels' == labels + [l] && run'[|labels'|] == s
  {
    run', labels' := run + [s], labels + [l];
    forall i | 0 <= i < |labels'|
      ensures next(run'[i], labels'[i], run'[i + 1])
    {
      if i < |labels| {
        assert next(run[i], labels[i], run[i + 1]);
      }
    }
  }

  lemma {:induction false} Invariance<S(!new), L(!new)>(init: S -> bool, next: (S, L, S) -> bool, inv: S -> bool,
                                                        run: seq<S>, labels: seq<L>)
    requires IsRun(init, next, run, labels)
    requires forall s :: init(s) ==> inv(s)
    requires forall s, l, s' :: inv(s) && next(s, l, s') ==> inv(s')
    ensures forall i :: 0 <= i < |run| ==> inv(run[i])
    decreases |labels|
  {
    if |labels| > 0 {
      var n := |labels| - 1;
      DropLast(init, next, run, labels);
      Invariance(init, next, inv, run[..n + 1], labels[..n]);
      forall i | 0 <= i < |run|
        ensures inv(run[i])
      {
        assert run[..n + 1][n] == run[n];
        if i <= n {
          assert run[..n + 1][i] == run[i];
        }
      }
    }
  }

  /** If every step from a state of the invariant lowers the measure, the measure of the first
      state bounds the number of steps. */
  lemma {:induction false} Termination<S(!new), L(!new)>(init: S -> bool, next: (S, L, S) -> bool, inv: S -> bool,
                                                         measure: S -> nat, run: seq<S>, labels: seq<L>)
    requires IsRun(init, next, run, labels)
    requires forall s :: init(s) ==> inv(s)
    requires forall s, l, s' :: inv(s) && next(s, l, s') ==> inv(s') && measure(s') < measure(s)
    ensures |labels| + measure(run[|labels|]) <= measure(run[0])
    decreases |labels|
  {
    if |labels| > 0 {
      var n := |labels| - 1;
      DropLast(init, next, run, labels);
      Termination(init, next, inv, measure, run[..n + 1], labels[..n]);
      Invariance(init, next, inv, run, labels);
      assert inv(run[n]);
    }
  }
}
