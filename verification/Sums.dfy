/** Sums over the threads of a system, and sizes of sets. */
module Sums {

  function Sum<T>(xs: seq<T>, f: T -> nat): nat {
    if xs == [] then 0 else Sum(xs[..|xs| - 1], f) + f(xs[|xs| - 1])
  }

  lemma {:induction false} SumUpdate<T>(xs: seq<T>, t: nat, x: T, f: T -> nat)
    requires t < |xs|
    ensures Sum(xs[t := x], f) == Sum(xs, f) - f(xs[t]) + f(x)
    decreases |xs|
  {
    var n := |xs| - 1;
    if t < n {
      SumUpdate(xs[..n], t, x, f);
      assert xs[t := x][..n] == xs[..n][t := x];
    } else {
      assert xs[t := x][..n] == xs[..n];
    }
  }

  lemma {:induction false} SumConstant<T>(xs: seq<T>, f: T -> nat, v: nat)
    requires forall t :: 0 <= t < |xs| ==> f(xs[t]) == v
    ensures Sum(xs, f) == |xs| * v
    decreases |xs|
  {
    if xs != [] { SumConstant(xs[..|xs| - 1], f, v); }
  }

  /** Terms of at most one each, and one of them zero or not. */
  lemma {:induction false} SumAtMost<T>(xs: seq<T>, f: T -> nat, t: nat)
    requires t < |xs| && forall u :: 0 <= u < |xs| ==> f(xs[u]) <= 1
    ensures Sum(xs, f) <= |xs| - 1 + f(xs[t])
    decreases |xs|
  {
    var n := |xs| - 1;
    if t < n {
      SumAtMost(xs[..n], f, t);
    } else if n > 0 {
      SumAtMost(xs[..n], f, 0);
    }
  }

  /** A sum at least as large as each term. */
  lemma {:induction false} SumBounds<T>(xs: seq<T>, f: T -> nat, t: nat)
    requires t < |xs|
    ensures f(xs[t]) <= Sum(xs, f)
    decreases |xs|
  {
    if t < |xs| - 1 { SumBounds(xs[..|xs| - 1], f, t); }
  }

  lemma {:induction false} SumSame<S, T>(xs: seq<S>, f: S -> nat, ys: seq<T>, g: T -> nat)
    requires |xs| == |ys| && forall t :: 0 <= t < |xs| ==> f(xs[t]) == g(ys[t])
    ensures Sum(xs, f) == Sum(ys, g)
    decreases |xs|
  {
    if xs != [] { SumSame(xs[..|xs| - 1], f, ys[..|ys| - 1], g); }
  }

  lemma {:induction false} SumLe<S, T>(xs: seq<S>, f: S -> nat, ys: seq<T>, g: T -> nat)
    requires |xs| == |ys| && forall t :: 0 <= t < |xs| ==> f(xs[t]) <= g(ys[t])
    ensures Sum(xs, f) <= Sum(ys, g)
    ensures forall t :: 0 <= t < |xs| && f(xs[t]) < g(ys[t]) ==> Sum(xs, f) < Sum(ys, g)
    decreases |xs|
  {
    if xs != [] { SumLe(xs[..|xs| - 1], f, ys[..|ys| - 1], g); }
  }

  /** A smaller sum has a smaller term. */
  lemma {:induction false} SmallerTerm<S, T>(xs: seq<S>, f: S -> nat, ys: seq<T>, g: T -> nat) returns (t: nat)
    requires |xs| == |ys| && Sum(xs, f) < Sum(ys, g)
    ensures t < |xs| && f(xs[t]) < g(ys[t])
    decreases |xs|
  {
    var n := |xs| - 1;
    if f(xs[n]) < g(ys[n]) { t := n; } else { t := SmallerTerm(xs[..n], f, ys[..n], g); }
  }

  lemma {:induction false} SmallerSet<K>(a: set<K>, b: set<K>)
    requires a <= b
    ensures |a| <= |b|
    decreases |a|
  {
    if a != {} {
      var x :| x in a;
      SmallerSet(a - {x}, b - {x});
      assert |b - {x}| == |b| - 1;
    }
  }
}
