/** Sums over the threads of a machine. */
module Sums {
  ghost function Sum<T>(xs: seq<T>, f: T -> nat): nat {
    if xs == [] then 0 else f(xs[0]) + Sum(xs[1..], f)
  }

  lemma {:induction false} SumUpdate<T>(xs: seq<T>, i: nat, x: T, f: T -> nat)
    requires i < |xs|
    ensures Sum(xs[i := x], f) + f(xs[i]) == Sum(xs, f) + f(x)
  {
    if i == 0 {
      assert xs[i := x][1..] == xs[1..];
    } else {
      assert xs[i := x][1..] == xs[1..][i - 1 := x];
      SumUpdate(xs[1..], i - 1, x, f);
    }
  }

  lemma {:induction false} SumZero<T>(xs: seq<T>, f: T -> nat)
    requires forall i :: 0 <= i < |xs| ==> f(xs[i]) == 0
    ensures Sum(xs, f) == 0
  {
    if xs != [] { SumZero(xs[1..], f); }
  }

  lemma {:induction false} SumDrops<S, T>(xs: seq<S>, f: S -> nat, ys: seq<T>, g: T -> nat, t: nat)
    requires |xs| == |ys| && forall i :: 0 <= i < |xs| ==> f(xs[i]) <= g(ys[i])
    requires t < |xs| && f(xs[t]) < g(ys[t])
    ensures Sum(xs, f) < Sum(ys, g)
  {
    if t == 0 { SumBelow(xs[1..], f, ys[1..], g); } else { SumDrops(xs[1..], f, ys[1..], g, t - 1); }
  }

  lemma {:induction false} SumBelow<S, T>(xs: seq<S>, f: S -> nat, ys: seq<T>, g: T -> nat)
    requires |xs| == |ys| && forall i :: 0 <= i < |xs| ==> f(xs[i]) <= g(ys[i])
    ensures Sum(xs, f) <= Sum(ys, g)
  {
    if xs != [] { SumBelow(xs[1..], f, ys[1..], g); }
  }
}
