/** Sums of a per-element quantity over a sequence of threads. */
module Totals {

  function Total<A>(xs: seq<A>, f: A -> nat): nat {
    if xs == [] then 0 else Total(xs[..|xs| - 1], f) + f(xs[|xs| - 1])
  }

  /** Changing one element changes the total by the change of its own share. */
  lemma {:induction false} TotalUpdate<A>(xs: seq<A>, i: nat, a: A, f: A -> nat)
    requires i < |xs|
    ensures Total(xs[i := a], f) == Total(xs, f) - f(xs[i]) + f(a)
    decreases |xs|
  {
    var n := |xs| - 1;
    if i == n {
      assert xs[i := a][..n] == xs[..n];
    } else {
      assert xs[i := a][..n] == xs[..n][i := a];
      TotalUpdate(xs[..n], i, a, f);
    }
  }

  /** Every element contributing exactly `v` gives `|xs| * v`. */
  lemma {:induction false} TotalConstant<A>(xs: seq<A>, f: A -> nat, v: nat)
    requires forall i :: 0 <= i < |xs| ==> f(xs[i]) == v
    ensures Total(xs, f) == |xs| * v
    decreases |xs|
  {
    if xs != [] {
      TotalConstant(xs[..|xs| - 1], f, v);
      assert |xs| * v == (|xs| - 1) * v + v;
    }
  }

  /** Bounded shares: the total reaches `|xs| * v` only if every share is `v`. */
  lemma {:induction false} TotalBounded<A>(xs: seq<A>, f: A -> nat, v: nat)
    requires forall i :: 0 <= i < |xs| ==> f(xs[i]) <= v
    ensures Total(xs, f) <= |xs| * v
    ensures Total(xs, f) == |xs| * v ==> forall i :: 0 <= i < |xs| ==> f(xs[i]) == v
    decreases |xs|
  {
    if xs != [] {
      TotalBounded(xs[..|xs| - 1], f, v);
      assert |xs| * v == (|xs| - 1) * v + v;
      if Total(xs, f) == |xs| * v {
        forall i | 0 <= i < |xs|
          ensures f(xs[i]) == v
        {
          assert i < |xs| - 1 ==> xs[..|xs| - 1][i] == xs[i];
        }
      }
    }
  }

  /** Each share is part of the total. */
  lemma {:induction false} TotalAtLeast<A>(xs: seq<A>, i: nat, f: A -> nat)
    requires i < |xs|
    ensures f(xs[i]) <= Total(xs, f)
    decreases |xs|
  {
    if i < |xs| - 1 {
      TotalAtLeast(xs[..|xs| - 1], i, f);
    }
  }

  /** A positive total has a positive share. */
  lemma {:induction false} TotalPositive<A>(xs: seq<A>, f: A -> nat) returns (i: nat)
    requires Total(xs, f) > 0
    ensures i < |xs| && f(xs[i]) > 0
    decreases |xs|
  {
    var n := |xs| - 1;
    if f(xs[n]) > 0 {
      i := n;
    } else {
      i := TotalPositive(xs[..n], f);
    }
  }
}
