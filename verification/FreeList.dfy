/** The address-ordered free-list allocator: first fit, splitting, coalescing. */
module FreeList {
  import opened Bits
  import opened Lists

  const HEADER: nat := 16
  const ALIGNMENT: nat := 16

  ghost predicate IsAligned(x: int) { x % ALIGNMENT == 0 }

  lemma AlignedSums(x: int, y: int)
    requires IsAligned(x) && IsAligned(y)
    ensures IsAligned(x + y) && IsAligned(x - y) && IsAligned(x + HEADER) && IsAligned(x - HEADER)
  {
  }

  /** `align_up`: clearing the low bits of `size + alignment - 1`. */
  function AlignUp(size: nat): nat {
    LowBitsOf(size + ALIGNMENT - 1);
    size + ALIGNMENT - 1 - And(size + ALIGNMENT - 1, ALIGNMENT - 1)
  }

  lemma LowBitsOf(x: nat)
    ensures And(x, ALIGNMENT - 1) == x % 16
  {
    assert Pow2(4) == 16;
    AndMask(x, 4);
  }

  /** The least multiple of the alignment that is no smaller. */
  lemma AlignUpIsLeast(size: nat)
    ensures IsAligned(AlignUp(size)) && size <= AlignUp(size) < size + ALIGNMENT
    ensures forall m: nat :: IsAligned(m) && m >= size ==> m >= AlignUp(size)
  {
    hide AlignUp;
    AlignUpRounds(size);
    var q := (size + 15) / 16;
    forall m: nat | IsAligned(m) && m >= size ensures m >= AlignUp(size) {
      assert m == m / 16 * 16;
      assert m / 16 >= q;
    }
  }

  lemma AlignUpRounds(size: nat)
    ensures AlignUp(size) == (size + 15) / 16 * 16
  {
    hide And, Pow2;
    LowBitsOf(size + ALIGNMENT - 1);
  }

  // ---- blocks

  /** The first byte after the block at a. */
  function EndOf(size: map<nat, nat>, a: nat): nat
    requires a in size
  {
    a + HEADER + size[a]
  }

  ghost predicate BlockOk(size: map<nat, nat>, starts: set<nat>, pool: nat, a: nat) {
    && a in size && IsAligned(a) && IsAligned(size[a]) && size[a] >= ALIGNMENT
    && (EndOf(size, a) == pool || EndOf(size, a) in starts)
  }

  /** The blocks that begin at `starts` tile the pool. */
  ghost predicate Tiled(size: map<nat, nat>, starts: set<nat>, pool: nat) {
    && 0 in starts
    && (forall a {:trigger BlockOk(size, starts, pool, a)} :: a in starts ==>
      BlockOk(size, starts, pool, a) && EndOf(size, a) <= pool)
    && (forall a, b :: a in starts && b in starts && a < b && a in size ==> EndOf(size, a) <= b)
  }

  function Link(free: seq<nat>, i: nat): int { if i < |free| then free[i] else -1 }

  ghost predicate LinkOk(next: map<nat, int>, free: seq<nat>, i: nat)
    requires i < |free|
  {
    free[i] in next && next[free[i]] == Link(free, i + 1)
  }

  /** The list from `head` runs through `free`, in address order. */
  ghost predicate Listed(next: map<nat, int>, head: int, starts: set<nat>, free: seq<nat>) {
    && head == Link(free, 0)
    && (forall i: nat {:trigger LinkOk(next, free, i)} :: i < |free| ==> LinkOk(next, free, i))
    && (forall i, j :: 0 <= i < j < |free| ==> free[i] < free[j])
    && (forall i :: 0 <= i < |free| ==> free[i] in starts)
  }

  /** Among the first n free blocks, none touches the next one in the list. */
  ghost predicate Apart(size: map<nat, nat>, free: seq<nat>, n: nat) {
    forall i :: 0 <= i < n && i + 1 < |free| && free[i] in size ==> EndOf(size, free[i]) != free[i + 1]
  }

  ghost function LiveIn(size: map<nat, nat>, starts: set<nat>, free: seq<nat>): map<nat, nat> {
    map a | a in starts && a !in free && a in size :: size[a]
  }

  /** Every byte of the pool is in a block. */
  lemma BlockAt(size: map<nat, nat>, starts: set<nat>, pool: nat, p: nat, from: nat) returns (a: nat)
    requires Tiled(size, starts, pool) && from in starts && from <= p < pool
    ensures a in starts && a in size && a <= p < EndOf(size, a)
    decreases p - from
  {
    assert BlockOk(size, starts, pool, from);
    if p < EndOf(size, from) { a := from; } else { a := BlockAt(size, starts, pool, p, EndOf(size, from)); }
  }

  /** The bytes from w on, enough for a header and n more, meet no live block. */
  ghost predicate Gap(live: map<nat, nat>, pool: nat, w: nat, n: nat) {
    w + HEADER + n <= pool
      && forall a {:trigger a in live} :: a in live ==> a + HEADER + live[a] <= w || w + HEADER + n <= a
  }

  ghost predicate Fits(size: map<nat, nat>, free: seq<nat>, n: nat) {
    exists i :: 0 <= i < |free| && free[i] in size && size[free[i]] >= n
  }

  /** A free stretch of memory never spans two blocks, so some block on the list is large enough exactly when some
      stretch between the live blocks has room for the header and n bytes. */
  lemma FitsIffWindow(size: map<nat, nat>, next: map<nat, int>, head: int, starts: set<nat>, free: seq<nat>,
      pool: nat, n: nat)
    requires Tiled(size, starts, pool) && Listed(next, head, starts, free) && Apart(size, free, |free|)
    ensures Fits(size, free, n) <==> exists w: nat :: Gap(LiveIn(size, starts, free), pool, w, n)
  {
    var live := LiveIn(size, starts, free);
    if i :| 0 <= i < |free| && free[i] in size && size[free[i]] >= n {
      var f := free[i];
      assert BlockOk(size, starts, pool, f);
      forall a | a in live ensures a + HEADER + live[a] <= f || f + HEADER + n <= a {
        assert BlockOk(size, starts, pool, a);
      }
      assert Gap(live, pool, f, n);
    }
    if w: nat :| Gap(live, pool, w, n) {
      var a := BlockAt(size, starts, pool, w, 0);
      assert a in free by { assert a !in live; }
      var i :| 0 <= i < |free| && free[i] == a;
      var e := EndOf(size, a);
      assert BlockOk(size, starts, pool, a);
      if e < w + HEADER + n {
        assert BlockOk(size, starts, pool, e);
        assert e in free by { assert e !in live; }
        NextInOrder(size, next, head, starts, free, pool, i, e);
      }
    }
  }

  /** A free block that starts where free block i ends is the next one in the list. */
  lemma NextInOrder(size: map<nat, nat>, next: map<nat, int>, head: int, starts: set<nat>, free: seq<nat>,
      pool: nat, i: nat, e: nat)
    requires Tiled(size, starts, pool) && Listed(next, head, starts, free)
    requires i < |free| && free[i] in size && e == EndOf(size, free[i]) && e in free
    ensures i + 1 < |free| && free[i + 1] == e
  {
    var j :| 0 <= j < |free| && free[j] == e;
  }

  ghost predicate FollowsLive(live: map<nat, nat>, b: nat) { exists a :: a in live && a + HEADER + live[a] == b }

  /** When an address that is no live block is found on the list: exactly if it begins the pool or follows a live block.
      Otherwise it lies inside a block: a free one that it has been merged into, or one handed out since. */
  lemma FoundOnListIff(size: map<nat, nat>, next: map<nat, int>, head: int, starts: set<nat>, free: seq<nat>,
      pool: nat, b: nat)
    requires Tiled(size, starts, pool) && Listed(next, head, starts, free) && Apart(size, free, |free|)
    requires b < pool && b !in LiveIn(size, starts, free)
    ensures b in free <==> b == 0 || FollowsLive(LiveIn(size, starts, free), b)
  {
    var live := LiveIn(size, starts, free);
    if b in free && b > 0 {
      var a := BlockAt(size, starts, pool, b - 1, 0);
      Disjoint(size, starts, pool, a, b);
      if a in free {
        var i :| 0 <= i < |free| && free[i] == a;
        NextInOrder(size, next, head, starts, free, pool, i, b);
      }
      assert a in live;
    }
    if a :| a in live && a + HEADER + live[a] == b { assert BlockOk(size, starts, pool, a); }
    if b in starts { InSize(size, starts, pool, b); }
  }

  /** With nothing live, one free block is left, as at the start. */
  lemma NothingLive(size: map<nat, nat>, next: map<nat, int>, head: int, starts: set<nat>, free: seq<nat>, pool: nat)
    requires Tiled(size, starts, pool) && Listed(next, head, starts, free) && Apart(size, free, |free|)
    requires LiveIn(size, starts, free) == map[]
    ensures starts == {0} && free == [0] && 0 in size && size[0] == pool - HEADER && head == 0 && 0 in next
      && next[0] == -1
  {
    var live := LiveIn(size, starts, free);
    forall a | a in starts ensures a in free && a in size {
      assert BlockOk(size, starts, pool, a);
      assert a !in live;
    }
    var e := EndOf(size, 0);
    assert BlockOk(size, starts, pool, 0);
    var i :| 0 <= i < |free| && free[i] == 0;
    if e in starts { NextInOrder(size, next, head, starts, free, pool, i, e); }
    forall a | a in starts ensures a == 0 { assert BlockOk(size, starts, pool, a); }
    assert LinkOk(next, free, 0);
  }

  // ---- relinking

  /** `if (previous) previous->next = x; else free_list = x;` */
  function PatchNext(next: map<nat, int>, previous: int, x: int): map<nat, int> {
    if previous >= 0 then next[previous := x] else next
  }

  function PatchHead(head: int, previous: int, x: int): int { if previous >= 0 then head else x }

  function Before(free: seq<nat>, i: nat): int
    requires i <= |free|
  {
    if i == 0 then -1 else free[i - 1]
  }

  /** Block b takes the place of the i-th free block. */
  lemma Relink(next: map<nat, int>, head: int, starts: set<nat>, free: seq<nat>, i: nat, b: nat)
    requires Listed(next, head, starts, free) && i < |free| && free[i] in next && free[i] < b
      && (i + 1 < |free| ==> b < free[i + 1])
    ensures Listed(PatchNext(next[b := next[free[i]]], Before(free, i), b), PatchHead(head, Before(free, i), b),
      starts + {b}, free[i := b])
  {
    var free' := free[i := b];
    var next' := PatchNext(next[b := next[free[i]]], Before(free, i), b);
    assert LinkOk(next, free, i);
    forall j: nat | j < |free'| ensures LinkOk(next', free', j) { assert LinkOk(next, free, j); }
  }

  /** The i-th free block leaves the list. */
  lemma Unlink(next: map<nat, int>, head: int, starts: set<nat>, free: seq<nat>, i: nat)
    requires Listed(next, head, starts, free) && i < |free| && free[i] in next
    ensures Listed(PatchNext(next, Before(free, i), next[free[i]]), PatchHead(head, Before(free, i), next[free[i]]),
      starts, RemoveAt(free, i))
  {
    var free' := RemoveAt(free, i);
    var next' := PatchNext(next, Before(free, i), next[free[i]]);
    assert LinkOk(next, free, i);
    forall j: nat | j < |free'| ensures LinkOk(next', free', j) {
      assert LinkOk(next, free, if j < i then j else j + 1);
    }
  }

  /** Block b enters the list at position i. */
  lemma LinkIn(next: map<nat, int>, head: int, starts: set<nat>, free: seq<nat>, i: nat, b: nat)
    requires Listed(next, head, starts, free) && i <= |free| && b in starts
    requires (forall j :: 0 <= j < i ==> free[j] < b) && (i < |free| ==> b < free[i])
    ensures Listed(PatchNext(next[b := Link(free, i)], Before(free, i), b), PatchHead(head, Before(free, i), b),
      starts, free[..i] + [b] + free[i..])
  {
    var free' := free[..i] + [b] + free[i..];
    var next' := PatchNext(next[b := Link(free, i)], Before(free, i), b);
    forall j: nat | j < |free'| ensures LinkOk(next', free', j) {
      if j < i { assert LinkOk(next, free, j); }
      if j > i { assert LinkOk(next, free, j - 1); }
    }
  }

  // ---- what the operations do to the tiling

  lemma SplitTiles(size: map<nat, nat>, starts: set<nat>, pool: nat, a: nat, n: nat, b: nat, size': map<nat, nat>,
      starts': set<nat>)
    requires Tiled(size, starts, pool) && a in starts && a in size
    requires IsAligned(n) && n >= ALIGNMENT && size[a] >= n + HEADER + ALIGNMENT
    requires b == a + HEADER + n && starts' == starts + {b} && size' == size[a := n][b := size[a] - n - HEADER]
    ensures b !in starts && Tiled(size', starts', pool)
  {
    hide IsAligned;
    assert BlockOk(size, starts, pool, a);
    AlignedSums(a, n);
    AlignedSums(a + HEADER, n);
    AlignedSums(size[a], n);
    AlignedSums(size[a] - n, n);
    assert b !in starts && EndOf(size', b) == EndOf(size, a) && EndOf(size', a) == b;
    forall c | c in starts' ensures BlockOk(size', starts', pool, c) && EndOf(size', c) <= pool {
      if c != b { assert BlockOk(size, starts, pool, c) && (c == a || EndOf(size', c) == EndOf(size, c)); }
    }
    SplitOrder(size, starts, pool, a, n, b, size', starts');
  }

  lemma SplitOrder(size: map<nat, nat>, starts: set<nat>, pool: nat, a: nat, n: nat, b: nat, size': map<nat, nat>,
      starts': set<nat>)
    requires Tiled(size, starts, pool) && a in starts && a in size && size[a] >= n + HEADER
    requires b == a + HEADER + n && starts' == starts + {b} && size' == size[a := n][b := size[a] - n - HEADER]
    ensures forall c, d :: c in starts' && d in starts' && c < d && c in size' ==> EndOf(size', c) <= d
  {
    hide IsAligned;
    assert BlockOk(size, starts, pool, a);
    forall c, d | c in starts' && d in starts' && c < d && c in size' ensures EndOf(size', c) <= d {
      if c in starts { assert BlockOk(size, starts, pool, c); }
    }
  }

  lemma InSize(size: map<nat, nat>, starts: set<nat>, pool: nat, c: nat)
    requires Tiled(size, starts, pool) && c in starts
    ensures c in size && EndOf(size, c) <= pool
  {
    assert BlockOk(size, starts, pool, c);
  }

  lemma Replaced(free: seq<nat>, i: nat, b: nat)
    requires Distinct(free) && i < |free| && b !in free
    ensures forall c {:trigger c in free[i := b]} :: c in free[i := b] <==> (c in free && c != free[i]) || c == b
  {
    var free' := free[i := b];
    assert free'[i] == b;
    forall c | c in free && c != free[i] ensures c in free' {
      var j :| 0 <= j < |free| && free[j] == c;
      assert free'[j] == c;
    }
  }

  /** Cutting n bytes off the front of a free block leaves the rest free in its place. */
  lemma SplitFacts(size: map<nat, nat>, next: map<nat, int>, head: int, starts: set<nat>, free: seq<nat>, pool: nat,
      i: nat, n: nat)
    requires Tiled(size, starts, pool) && Listed(next, head, starts, free) && Apart(size, free, |free|)
    requires i < |free| && free[i] in size && IsAligned(n) && n >= ALIGNMENT && size[free[i]] >= n + HEADER + ALIGNMENT
    ensures var a := free[i]; var b := a + HEADER + n; var size' := size[a := n][b := size[a] - n - HEADER];
      && Tiled(size', starts + {b}, pool) && Apart(size', free[i := b], |free|) && (i + 1 < |free| ==> b < free[i + 1])
      && LiveIn(size', starts + {b}, free[i := b]) == LiveIn(size, starts, free)[a := n]
  {
    hide Tiled, BlockOk;
    var a := free[i];
    var b := a + HEADER + n;
    var size' := size[a := n][b := size[a] - n - HEADER];
    var free' := free[i := b];
    SplitTiles(size, starts, pool, a, n, b, size', starts + {b});
    Replaced(free, i, b);
    if i + 1 < |free| { Disjoint(size, starts, pool, a, free[i + 1]); }
    forall j | 0 <= j && j + 1 < |free| && free'[j] in size' ensures EndOf(size', free'[j]) != free'[j + 1] {
      if j + 1 == i { Disjoint(size, starts, pool, free[j], a); }
    }
    forall c | c in starts ensures c in size { InSize(size, starts, pool, c); }
    assert LiveIn(size', starts + {b}, free') == LiveIn(size, starts, free)[a := n];
  }

  lemma Disjoint(size: map<nat, nat>, starts: set<nat>, pool: nat, a: nat, b: nat)
    requires Tiled(size, starts, pool) && a in starts && b in starts && a < b
    ensures a in size && b in size && EndOf(size, a) <= b && size[a] >= ALIGNMENT
  {
    assert BlockOk(size, starts, pool, a) && BlockOk(size, starts, pool, b);
  }

  lemma ConsumeFacts(size: map<nat, nat>, starts: set<nat>, free: seq<nat>, i: nat, pool: nat)
    requires Tiled(size, starts, pool) && i < |free| && free[i] in size && free[i] in starts
      && Apart(size, free, |free|)
    requires forall i, j :: 0 <= i < j < |free| ==> free[i] < free[j]
    requires forall j :: 0 <= j < |free| ==> free[j] in starts
    ensures Apart(size, RemoveAt(free, i), |free|)
    ensures LiveIn(size, starts, RemoveAt(free, i)) == LiveIn(size, starts, free)[free[i] := size[free[i]]]
  {
    var free' := RemoveAt(free, i);
    RemovedOne(free, i);
    if 0 < i < |free'| {
      assert BlockOk(size, starts, pool, free[i - 1]) && free[i - 1] < free[i] < free[i + 1];
    }
    forall c | c in starts ensures c in size { assert BlockOk(size, starts, pool, c); }
    assert LiveIn(size, starts, free') == LiveIn(size, starts, free)[free[i] := size[free[i]]];
  }

  lemma InsertFacts(size: map<nat, nat>, starts: set<nat>, free: seq<nat>, i: nat, b: nat)
    requires i <= |free| && b in starts && b !in free
    ensures LiveIn(size, starts, free[..i] + [b] + free[i..]) == LiveIn(size, starts, free) - {b}
  {
    var free' := free[..i] + [b] + free[i..];
    forall c ensures c in free' <==> c in free || c == b {
      assert c in free ==> c in free[..i] || c in free[i..];
    }
  }

  lemma MergeTiles(size: map<nat, nat>, starts: set<nat>, pool: nat, a: nat, b: nat, size': map<nat, nat>,
      starts': set<nat>)
    requires Tiled(size, starts, pool) && a in starts && b in starts && a in size && b in size && EndOf(size, a) == b
    requires size' == size[a := size[a] + HEADER + size[b]] && starts' == starts - {b}
    ensures Tiled(size', starts', pool)
  {
    hide IsAligned;
    assert BlockOk(size, starts, pool, a) && BlockOk(size, starts, pool, b);
    AlignedSums(size[a], size[b]);
    AlignedSums(size[a] + HEADER, size[b]);
    forall c | c in starts' ensures BlockOk(size', starts', pool, c) && EndOf(size', c) <= pool {
      assert BlockOk(size, starts, pool, c) && (c == a || EndOf(size', c) == EndOf(size, c));
      if c != a { OtherEnd(size, starts, pool, a, c); }
    }
    MergeOrder(size, starts, pool, a, b, size', starts');
  }

  lemma OtherEnd(size: map<nat, nat>, starts: set<nat>, pool: nat, a: nat, c: nat)
    requires Tiled(size, starts, pool) && a in starts && c in starts && a != c && a in size && c in size
    ensures EndOf(size, c) != EndOf(size, a)
  {
    if a < c { Disjoint(size, starts, pool, a, c); } else { Disjoint(size, starts, pool, c, a); }
  }

  lemma MergeOrder(size: map<nat, nat>, starts: set<nat>, pool: nat, a: nat, b: nat, size': map<nat, nat>,
      starts': set<nat>)
    requires Tiled(size, starts, pool) && a in starts && b in starts && a in size && b in size && EndOf(size, a) == b
    requires size' == size[a := size[a] + HEADER + size[b]] && starts' == starts - {b}
    ensures forall c, d :: c in starts' && d in starts' && c < d && c in size' ==> EndOf(size', c) <= d
  {
    hide Tiled, BlockOk;
    forall c, d | c in starts' && d in starts' && c < d && c in size' ensures EndOf(size', c) <= d {
      Disjoint(size, starts, pool, c, d);
      if c == a { Disjoint(size, starts, pool, b, d); }
    }
  }

  lemma MergeLinks(next: map<nat, int>, head: int, starts: set<nat>, free: seq<nat>, i: nat)
    requires Listed(next, head, starts, free) && i + 1 < |free| && free[i + 1] in next
    ensures Listed(next[free[i] := next[free[i + 1]]], head, starts - {free[i + 1]}, RemoveAt(free, i + 1))
  {
    Unlink(next, head, starts, free, i + 1);
    RemovedOne(free, i + 1);
    var next' := next[free[i] := next[free[i + 1]]];
    var free' := RemoveAt(free, i + 1);
    forall j: nat {:trigger LinkOk(next', free', j)} | j < |free'| ensures LinkOk(next', free', j) {
      assert LinkOk(PatchNext(next, Before(free, i + 1), next[free[i + 1]]), free', j);
    }
  }

  /** Two free blocks that touch become one. */
  lemma MergeFacts(size: map<nat, nat>, next: map<nat, int>, head: int, starts: set<nat>, free: seq<nat>, pool: nat,
      i: nat)
    requires Tiled(size, starts, pool) && Listed(next, head, starts, free) && i + 1 < |free| && Apart(size, free, i)
    requires free[i] in size && free[i + 1] in size && EndOf(size, free[i]) == free[i + 1] && free[i + 1] in next
    ensures var a := free[i]; var b := free[i + 1]; var size' := size[a := size[a] + HEADER + size[b]];
      var free' := RemoveAt(free, i + 1);
      && Tiled(size', starts - {b}, pool) && Listed(next[a := next[b]], head, starts - {b}, free')
        && Apart(size', free', i)
      && LiveIn(size', starts - {b}, free') == LiveIn(size, starts, free)
  {
    hide Tiled, BlockOk;
    MergeTiles(size, starts, pool, free[i], free[i + 1],
      size[free[i] := size[free[i]] + HEADER + size[free[i + 1]]], starts - {free[i + 1]});
    MergeLinks(next, head, starts, free, i);
    RemovedOne(free, i + 1);
    var a := free[i];
    var b := free[i + 1];
    var free' := RemoveAt(free, i + 1);
    assert free'[i] == a;
    assert LiveIn(size[a := size[a] + HEADER + size[b]], starts - {b}, free') == LiveIn(size, starts, free);
  }
}
