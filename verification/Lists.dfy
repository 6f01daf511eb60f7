/** Sequences of addresses or indices. */
module Lists {
  ghost predicate Distinct<T(!new)>(l: seq<T>) {
    forall i, j :: 0 <= i < j < |l| ==> l[i] != l[j]
  }

  function RemoveAt<T>(l: seq<T>, i: nat): (r: seq<T>)
    requires i < |l|
    ensures |r| == |l| - 1 && forall j :: 0 <= j < |r| ==> r[j] == l[if j < i then j else j + 1]
  {
    l[..i] + l[i + 1..]
  }

  lemma RemovedOne<T(!new)>(l: seq<T>, i: nat)
    requires Distinct(l) && i < |l|
    ensures Distinct(RemoveAt(l, i))
      && forall x {:trigger x in RemoveAt(l, i)} :: x in RemoveAt(l, i) <==> x in l && x != l[i]
  {
    var r := RemoveAt(l, i);
    forall x | x in l && x != l[i] ensures x in r {
      var j :| 0 <= j < |l| && l[j] == x;
      assert r[if j < i then j else j - 1] == x;
    }
  }

  function Position<T(==)>(l: seq<T>, x: T): (i: nat)
    requires x in l
    ensures i < |l| && l[i] == x
  {
    if l[0] == x then 0 else 1 + Position(l[1..], x)
  }

  /** The element of a list, or null. */
  function ElementOr<T>(l: seq<T>, i: int, none: T): T { if 0 <= i < |l| then l[i] else none }

  function At(l: seq<int>, i: int): int { ElementOr(l, i, -1) }

  lemma {:induction false} SetOfDistinct<T(!new)>(l: seq<T>, s: set<T>)
    requires Distinct(l) && (forall x :: x in l ==> x in s) && (forall x :: x in s ==> x in l)
    ensures |s| == |l|
    decreases l
  {
    if l == [] {
      assert s == {};
    } else {
      forall x | x in l[1..] ensures x in s - {l[0]} { assert x in l; }
      SetOfDistinct(l[1..], s - {l[0]});
    }
  }
}
