/** Walks and cycles of a finite directed graph given by its edges. */
module Digraph {

  ghost predicate Walk<N(!new)>(g: set<(N, N)>, p: seq<N>) {
    forall i {:trigger Step(g, p, i)} :: 0 <= i < |p| - 1 ==> Step(g, p, i)
  }

  ghost predicate Step<N(!new)>(g: set<(N, N)>, p: seq<N>, i: nat)
    requires i + 1 < |p|
  {
    (p[i], p[i + 1]) in g
  }

  /** A closed walk of at least one edge; a self-loop at u is [u, u]. */
  ghost predicate Cycle<N(!new)>(g: set<(N, N)>, p: seq<N>) {
    |p| >= 2 && p[0] == p[|p| - 1] && Walk(g, p)
  }

  ghost predicate HasCycle<N(!new)>(g: set<(N, N)>) {
    exists p :: Cycle(g, p)
  }

  /** A graph whose nodes can be listed so that edges only lead backwards has no cycle. */
  ghost predicate Backward<N(!new)>(g: set<(N, N)>, order: seq<N>) {
    forall i, v :: 0 <= i < |order| && (order[i], v) in g ==> v in order[..i]
  }

  lemma {:induction false} WalkGoesBack<N(!new)>(g: set<(N, N)>, order: seq<N>, p: seq<N>, i: nat, j: nat)
    requires Backward(g, order) && Walk(g, p) && i < |order| && 0 < j < |p| && p[0] == order[i]
    ensures p[j] in order[..i]
    decreases j
  {
    if j == 1 {
      assert Step(g, p, 0);
    } else {
      WalkGoesBack(g, order, p, i, j - 1);
      assert Step(g, p, j - 1);
      var k :| 0 <= k < i && order[k] == p[j - 1];
      assert p[j] in order[..k];
    }
  }

  lemma BackwardHasNoCycle<N(!new)>(g: set<(N, N)>, order: seq<N>)
    requires Backward(g, order) && forall e :: e in g ==> e.0 in order
    ensures !HasCycle(g)
  {
    if p :| Cycle(g, p) {
      assert Step(g, p, 0);
      var i := FirstAt(order, p[0]);
      WalkGoesBack(g, order, p, i, |p| - 1);
    }
  }

  lemma FirstAt<N(!new)>(s: seq<N>, x: N) returns (i: nat)
    requires x in s
    ensures i < |s| && s[i] == x && x !in s[..i]
  {
    i := 0;
    while s[i] != x
      invariant i < |s| && x !in s[..i] && x in s[i..]
      decreases |s| - i
    {
      i := i + 1;
    }
  }

  /** Every node of a cycle has an edge of the cycle out of it. */
  lemma CycleGoesOn<N(!new)>(g: set<(N, N)>, p: seq<N>, i: nat) returns (j: nat)
    requires Cycle(g, p) && i < |p|
    ensures j + 1 < |p| && p[j] == p[i] && Step(g, p, j)
  {
    j := if i + 1 < |p| then i else 0;
  }

  /** A cycle survives in any graph that has its edges. */
  lemma CycleIn<N(!new)>(g: set<(N, N)>, h: set<(N, N)>, p: seq<N>)
    requires Cycle(g, p) && forall i :: 0 <= i < |p| - 1 && Step(g, p, i) ==> (p[i], p[i + 1]) in h
    ensures HasCycle(h)
  {
    forall i | 0 <= i < |p| - 1 ensures Step(h, p, i) { assert Step(g, p, i); }
    assert Cycle(h, p);
  }
}
