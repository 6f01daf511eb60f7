/** Block headers, free lists and the order of a request: what the allocator's state must describe, and
    what each step of an operation does to it, on values. */
module BuddyInvariant {
  import opened Bits
  import opened BuddyTiling
  import opened Lists

  const MAX_ORDERS: nat := 16
  const HEADER: nat := 24   // sizeof(BlockHeader)
  const NULL: int := -1

  /** What the memory at an offset reads as when taken for a block header; links are offsets or NULL. */
  datatype BlockHeader = BlockHeader(next: int, prev: int, order: nat, isFree: bool)

  type Memory = seq<BlockHeader>

  // ---- the order of a request

  /** The least order whose blocks hold n bytes. */
  function CeilLog2(n: nat): (k: nat)
    ensures n <= Pow2(k)
    ensures k > 0 ==> Pow2(k - 1) < n
    decreases n
  {
    if n <= 1 then 0 else 1 + CeilLog2((n + 1) / 2)
  }

  lemma CeilLog2Unique(n: nat, k: nat)
    requires n <= Pow2(k) && (k > 0 ==> Pow2(k - 1) < n)
    ensures k == CeilLog2(n)
  {
    var c := CeilLog2(n);
    if k < c { Pow2Monotone(k, c - 1); }
    if c < k { Pow2Monotone(c, k - 1); }
  }

  /** The root block of a pool lies inside the pool if and only if the pool's size is a power of two. */
  lemma RootFitsIff(poolSize: nat)
    requires poolSize >= 1
    ensures Pow2(CeilLog2(poolSize)) <= poolSize <==> exists k: nat :: poolSize == Pow2(k)
  {
    if k: nat :| poolSize == Pow2(k) {
      if k > 0 { assert Pow2(k) == 2 * Pow2(k - 1); }
      CeilLog2Unique(poolSize, k);
    }
  }

  const WORD: nat := 0x1_0000_0000_0000_0000   // 2^64
  const HALF_WORD: nat := 0x8000_0000_0000_0000   // 2^63

  /** `log2_ceil`: shifting a 64-bit one left until it reaches the size. */
  method Log2Ceil(size: nat) returns (order: nat)
    requires size <= HALF_WORD
    ensures order == CeilLog2(size)
  {
    order := 0;
    var val := 1;
    while val < size
      invariant val == Pow2(order) && order <= 63
      invariant order > 0 ==> Pow2(order - 1) < size
      decreases 64 - order
    {
      ShiftFits(order);
      val := (val * 2) % WORD;
      order := order + 1;
    }
    CeilLog2Unique(size, order);
  }

  lemma ShiftFits(order: nat)
    requires Pow2(order) < HALF_WORD
    ensures Pow2(order) * 2 == (Pow2(order) * 2) % WORD == Pow2(order + 1)
    ensures order < 63
  {
    HalfWord();
    if order >= 63 { Pow2Monotone(63, order); }
  }

  lemma HalfWord()
    ensures Pow2(63) == HALF_WORD && Pow2(64) == WORD
  {
    assert Pow2(8) == 0x100;
    Pow2Add(8, 8);
    Pow2Add(16, 16);
    Pow2Add(32, 32);
  }

  /** The value of the 64-bit one after n shifts. */
  function Shifted(n: nat): nat {
    Pow2(n) % WORD
  }

  lemma ShiftedBound(n: nat)
    ensures Shifted(n) <= HALF_WORD
  {
    HalfWord();
    if n < 64 {
      Pow2Monotone(n, 63);
    } else {
      var q := Pow2Quotient(64, n);
      QuotientUnique(Pow2(n), WORD, q, 0);
    }
  }

  /** The loop of `log2_ceil` stops exactly for the sizes up to 2^63: beyond, the shifted one falls off
      the word before it reaches the size. */
  lemma Log2CeilStopsIff(size: nat)
    ensures (exists n :: Shifted(n) >= size) <==> size <= HALF_WORD
  {
    HalfWord();
    assert Shifted(63) == HALF_WORD;
    forall n ensures Shifted(n) <= HALF_WORD { ShiftedBound(n); }
  }

  // ---- free lists

  /** The element at j, or NULL outside the list. */
  function At(l: seq<nat>, j: int): int {
    ElementOr<int>(l, j, NULL)
  }

  ghost predicate LinkOk(m: Memory, l: seq<nat>, j: nat)
    requires j < |l|
  {
    l[j] < |m| && m[l[j]].next == At(l, j + 1) && m[l[j]].prev == At(l, j - 1)
  }

  /** `l` is the doubly linked list that starts at `head`. */
  ghost predicate IsList(m: Memory, head: int, l: seq<nat>) {
    && head == At(l, 0)
    && (forall j :: 0 <= j < |l| ==> LinkOk(m, l, j))
    && (forall j, k :: 0 <= j < k < |l| ==> l[j] != l[k])
  }

  ghost predicate SameLinks(m: Memory, m': Memory, l: seq<nat>) {
    |m'| == |m| && forall x :: x in l && x < |m| ==> m'[x].next == m[x].next && m'[x].prev == m[x].prev
  }

  /** Orders and free flags are as they were: only links were written. */
  ghost predicate SameMarks(m: Memory, m': Memory) {
    |m'| == |m| && forall x :: 0 <= x < |m| ==> m'[x].order == m[x].order && m'[x].isFree == m[x].isFree
  }

  ghost predicate AllLists(m: Memory, heads: seq<int>, lists: seq<seq<nat>>) {
    && |lists| == |heads| == MAX_ORDERS
    && (forall i :: 0 <= i < MAX_ORDERS ==> IsList(m, heads[i], lists[i]))
    && (forall i, j, x :: 0 <= i < j < MAX_ORDERS && x in lists[i] ==> x !in lists[j])
  }

  lemma InMemory(m: Memory, head: int, l: seq<nat>)
    requires IsList(m, head, l)
    ensures forall j :: 0 <= j < |l| ==> l[j] < |m|
  {
    forall j | 0 <= j < |l| ensures l[j] < |m| { assert LinkOk(m, l, j); }
  }

  lemma OtherListKept(m: Memory, m': Memory, head: int, l: seq<nat>)
    requires IsList(m, head, l) && SameLinks(m, m', l)
    ensures IsList(m', head, l)
  {
    forall j | 0 <= j < |l| ensures LinkOk(m', l, j) { assert LinkOk(m, l, j); }
  }

  /** The pointer writes of `list_add`. */
  ghost predicate AddWrites(m: Memory, head: int, node: nat, m': Memory) {
    && |m'| == |m| && node < |m|
    && m'[node].next == head && m'[node].prev == NULL
    && (head != NULL ==> 0 <= head < |m| && m'[head].prev == node && m'[head].next == m[head].next)
    && forall x :: 0 <= x < |m| && x != node && x != head ==> m'[x] == m[x]
  }

  lemma AddToList(m: Memory, head: int, l: seq<nat>, node: nat, m': Memory)
    requires IsList(m, head, l) && node !in l && AddWrites(m, head, node, m')
    ensures IsList(m', node, [node] + l)
  {
    var l' := [node] + l;
    forall j | 0 <= j < |l'|
      ensures LinkOk(m', l', j)
    {
      if j > 0 { assert LinkOk(m, l, j - 1) && l'[j] == l[j - 1]; }
    }
  }

  lemma AddLinks(m: Memory, heads: seq<int>, lists: seq<seq<nat>>, i: nat, node: nat, m': Memory)
    requires AllLists(m, heads, lists) && i < MAX_ORDERS && AddWrites(m, heads[i], node, m')
    requires forall j :: 0 <= j < MAX_ORDERS ==> node !in lists[j]
    ensures AllLists(m', heads[i := node], lists[i := [node] + lists[i]])
  {
    AddToList(m, heads[i], lists[i], node, m');
    forall j | 0 <= j < MAX_ORDERS && j != i ensures IsList(m', heads[j], lists[j]) {
      assert heads[i] != NULL ==> lists[i][0] !in lists[j];
      OtherListKept(m, m', heads[j], lists[j]);
    }
  }

  /** The pointer writes of `list_remove` at position j of its list. */
  ghost predicate RemoveWrites(m: Memory, l: seq<nat>, j: nat, m': Memory)
    requires j < |l|
  {
    && |m'| == |m| && (forall k :: 0 <= k < |l| ==> l[k] < |m|)
    && (j > 0 ==> m'[l[j - 1]] == m[l[j - 1]].(next := At(l, j + 1)))
    && (j + 1 < |l| ==> m'[l[j + 1]] == m[l[j + 1]].(prev := At(l, j - 1)))
    && forall x :: 0 <= x < |m| && x != At(l, j - 1) && x != At(l, j + 1) ==> m'[x] == m[x]
  }

  lemma RemovedAt(l: seq<nat>, j: nat, k: int)
    requires j < |l|
    ensures At(RemoveAt(l, j), k) == if k < j then At(l, k) else At(l, k + 1)
  {
  }

  lemma LinksAfterRemove(m: Memory, head: int, l: seq<nat>, j: nat, m': Memory, s: nat)
    requires IsList(m, head, l) && j < |l| && RemoveWrites(m, l, j, m') && s < |l| && s != j
    ensures m'[l[s]].next == if s + 1 == j then At(l, j + 1) else At(l, s + 1)
    ensures m'[l[s]].prev == if s == j + 1 then At(l, j - 1) else At(l, s - 1)
  {
    assert LinkOk(m, l, s);
    if s + 1 != j && s != j + 1 {
      assert l[s] != At(l, j - 1) && l[s] != At(l, j + 1);
    }
  }

  lemma RemoveFromList(m: Memory, head: int, l: seq<nat>, j: nat, m': Memory)
    requires IsList(m, head, l) && j < |l| && RemoveWrites(m, l, j, m')
    ensures IsList(m', At(RemoveAt(l, j), 0), RemoveAt(l, j))
  {
    var l' := RemoveAt(l, j);
    forall k | 0 <= k < |l'|
      ensures LinkOk(m', l', k)
    {
      var s := if k < j then k else k + 1;
      assert l'[k] == l[s];
      RemovedAt(l, j, k - 1);
      RemovedAt(l, j, k + 1);
      LinksAfterRemove(m, head, l, j, m', s);
    }
    assert forall k :: 0 <= k < |l'| ==> l'[k] == l[if k < j then k else k + 1];
  }

  lemma RemoveLinks(m: Memory, heads: seq<int>, lists: seq<seq<nat>>, i: nat, j: nat, m': Memory)
    requires AllLists(m, heads, lists) && i < MAX_ORDERS && j < |lists[i]| && RemoveWrites(m, lists[i], j, m')
    ensures AllLists(m', heads[i := At(RemoveAt(lists[i], j), 0)], lists[i := RemoveAt(lists[i], j)])
  {
    var l := lists[i];
    RemoveFromList(m, heads[i], l, j, m');
    assert forall x :: x in RemoveAt(l, j) ==> x in l;
    forall k | 0 <= k < MAX_ORDERS && k != i ensures IsList(m', heads[k], lists[k]) {
      forall x | x in lists[k] && x < |m| ensures m'[x] == m[x] {
        assert x !in l;
      }
      OtherListKept(m, m', heads[k], lists[k]);
    }
  }

  // ---- blocks, headers and lists together

  /** Headers and lists describe the blocks: every block's header carries its order and flag, list i holds
      exactly the free blocks of order lo + i, and no two buddies of one order are both free. `d` is
      a block taken off the lists while an operation works on it, or NULL. */
  ghost predicate Described(b: Blocks, m: Memory, lists: seq<seq<nat>>, lo: nat, d: int) {
    && (forall o :: o in b ==> o < |m| && m[o].order == b[o].order && m[o].isFree == b[o].free)
    && (forall i, o :: 0 <= i < |lists| ==> (o in lists[i] <==> o in b && b[o] == Block(lo + i, true) && o != d))
  }

  ghost predicate CanonicalExcept(b: Blocks, hi: nat, d: int) {
    forall o {:trigger FreePair(b, o)} ::
      o in b && b[o].order < hi && o != d && BuddyOf(o, b[o].order) != d ==> !FreePair(b, o)
  }

  /** Everything an operation keeps, with the block d (if any) taken off the lists. */
  ghost predicate Good(b: Blocks, m: Memory, lists: seq<seq<nat>>, lo: nat, hi: nat, d: int) {
    && lo <= hi && hi - lo < MAX_ORDERS == |lists| && |m| == Pow2(hi)
    && Tiles(b, lo, hi) && Described(b, m, lists, lo, d) && CanonicalExcept(b, hi, d)
  }

  // ---- what each step of an operation does to that

  /** Only the marks of d and of the upper half h of d are rewritten. */
  ghost predicate SplitMarks(m: Memory, m': Memory, d: nat, h: nat, k: nat) {
    && |m'| == |m| && d < |m| && h < |m|
    && m'[d].order == m'[h].order == k && m'[d].isFree && m'[h].isFree
    && forall x :: 0 <= x < |m| && x != d && x != h ==> m'[x].order == m[x].order && m'[x].isFree == m[x].isFree
  }

  lemma MarkHalves(m: Memory, heads: seq<int>, lists: seq<seq<nat>>, d: nat, h: nat, k: nat)
    requires AllLists(m, heads, lists) && d < |m| && h < |m| && d != h && m[d].isFree
    ensures var m' := m[d := m[d].(order := k)][h := m[h].(order := k, isFree := true)];
      SplitMarks(m, m', d, h, k) && AllLists(m', heads, lists)
  {
    var m' := m[d := m[d].(order := k)][h := m[h].(order := k, isFree := true)];
    forall i | 0 <= i < MAX_ORDERS ensures IsList(m', heads[i], lists[i]) {
      OtherListKept(m, m', heads[i], lists[i]);
    }
  }

  lemma SplitMarksKept(m: Memory, m1: Memory, m2: Memory, d: nat, h: nat, k: nat)
    requires SplitMarks(m, m1, d, h, k) && SameMarks(m1, m2)
    ensures SplitMarks(m, m2, d, h, k)
  {
  }

  lemma SplitDescribed(b: Blocks, m: Memory, lists: seq<seq<nat>>, lo: nat, d: nat, k: nat, m': Memory)
    requires Described(b, m, lists, lo, d) && d in b && b[d] == Block(k + 1, true) && lo <= k < lo + |lists|
    requires d + Pow2(k) !in b && SplitMarks(m, m', d, d + Pow2(k), k)
    ensures Described(Split(b, d), m', lists[k - lo := [d + Pow2(k)] + lists[k - lo]], lo, d)
  {
  }

  lemma SplitCanonical(b: Blocks, hi: nat, d: nat, k: nat)
    requires CanonicalExcept(b, hi, d) && d in b && b[d] == Block(k + 1, true)
    requires d + Pow2(k) !in b && BuddyOf(d, k) == d + Pow2(k)
    requires Aligned(d, k) && forall o :: o in b ==> Aligned(o, b[o].order)
    ensures CanonicalExcept(Split(b, d), hi, d)
  {
    var h, s := d + Pow2(k), Split(b, d);
    BuddyHalves(d, k);
    forall o | o in s && s[o].order < hi && o != d && BuddyOf(o, s[o].order) != d
      ensures !FreePair(s, o)
    {
      BuddyHalves(o, s[o].order);
      assert o in b && !FreePair(b, o);
    }
  }

  /** Splitting the detached block and listing its upper half. */
  lemma SplitStep(b: Blocks, m: Memory, lists: seq<seq<nat>>, lo: nat, hi: nat, d: nat, k: nat, m': Memory)
    requires Good(b, m, lists, lo, hi, d) && d in b && b[d] == Block(k + 1, true) && lo <= k
    requires SplitMarks(m, m', d, d + Pow2(k), k)
    ensures Good(Split(b, d), m', lists[k - lo := [d + Pow2(k)] + lists[k - lo]], lo, hi, d)
  {
    SplitFacts(b, lo, hi, d);
    AlignedHalf(d, k);
    SplitDescribed(b, m, lists, lo, d, k, m');
    SplitCanonical(b, hi, d, k);
  }

  ghost predicate Retagged(m: Memory, m': Memory, d: nat, order: nat, free: bool) {
    && |m'| == |m| && d < |m| && m'[d].order == order && m'[d].isFree == free
    && forall x :: 0 <= x < |m| && x != d ==> m'[x].order == m[x].order && m'[x].isFree == m[x].isFree
  }

  lemma RetaggedAfterLinks(m: Memory, m1: Memory, d: nat, order: nat, h: BlockHeader)
    requires SameMarks(m, m1) && d < |m| && h.order == order && h.isFree
    ensures Retagged(m, m1[d := h], d, order, true)
  {
  }

  lemma JoinDescribed(b: Blocks, m: Memory, lists: seq<seq<nat>>, lo: nat, d: nat, q: nat, w: nat, k: nat,
      l: seq<nat>, m': Memory)
    requires Described(b, m, lists, lo, d) && lo <= k < lo + |lists|
    requires {d, q} == {w, w + Pow2(k)} && d in b && q in b && b[d] == b[q] == Block(k, true)
    requires forall x :: x in l <==> x in lists[k - lo] && x != q
    requires Retagged(m, m', w, k + 1, true)
    ensures Described(Join(b, w, k), m', lists[k - lo := l], lo, w)
  {
    assert w in {d, q} && w + Pow2(k) in {d, q};
  }

  lemma JoinCanonical(b: Blocks, hi: nat, d: nat, w: nat, k: nat)
    requires CanonicalExcept(b, hi, d) && (d == w || d == w + Pow2(k))
    ensures CanonicalExcept(Join(b, w, k), hi, w)
  {
    var j := Join(b, w, k);
    forall o | o in j && j[o].order < hi && o != w && BuddyOf(o, j[o].order) != w
      ensures !FreePair(j, o)
    {
      assert o in b && j[o] == b[o] && w + Pow2(k) !in j;
      assert BuddyOf(o, b[o].order) == w + Pow2(k) || !FreePair(b, o);
    }
  }

  /** Joining the detached block d with its free buddy q, taken off its list. */
  lemma JoinStep(b: Blocks, m: Memory, lists: seq<seq<nat>>, lo: nat, hi: nat, d: nat, q: nat, k: nat, l: seq<nat>,
      m': Memory)
    requires Good(b, m, lists, lo, hi, d) && lo <= k < hi
    requires d in b && q in b && b[d] == b[q] == Block(k, true) && q == BuddyOf(d, k)
    requires forall x :: x in l <==> x in lists[k - lo] && x != q
    requires Retagged(m, m', if q < d then q else d, k + 1, true)
    ensures var w := if q < d then q else d;
      Good(Join(b, w, k), m', lists[k - lo := l], lo, hi, w) && Live(Join(b, w, k)) == Live(b)
      && w in Join(b, w, k) && Join(b, w, k)[w] == Block(k + 1, true)
  {
    var w := if q < d then q else d;
    BuddyHalves(d, k);
    JoinFacts(b, lo, hi, w, k);
    JoinDescribed(b, m, lists, lo, d, q, w, k, l, m');
    JoinCanonical(b, hi, d, w, k);
  }

  lemma SameOrdersTile(b: Blocks, b': Blocks, lo: nat, hi: nat)
    requires Tiles(b, lo, hi) && b.Keys == b'.Keys && forall o :: o in b ==> b'[o].order == b[o].order
    ensures Tiles(b', lo, hi)
  {
    assert forall o :: o in b ==> End(b', o) == End(b, o);
    forall x: nat | x < Pow2(hi) ensures Covered(b', x) {
      assert Covered(b, x);
      var o :| Covers(b, o, x);
      assert Covers(b', o, x);
    }
  }

  lemma RemovedMembers(m: Memory, head: int, l: seq<nat>, j: nat)
    requires IsList(m, head, l) && j < |l|
    ensures forall x :: x in RemoveAt(l, j) <==> x in l && x != l[j]
  {
    var r := RemoveAt(l, j);
    forall x | x in l && x != l[j] ensures x in r {
      var k :| 0 <= k < |l| && l[k] == x;
      assert x == r[if k < j then k else k - 1];
    }
  }

  /** Taking a block off its list to work on it. */
  lemma TakeStep(b: Blocks, m: Memory, lists: seq<seq<nat>>, lo: nat, hi: nat, d: nat, i: nat, j: nat, m': Memory)
    requires Good(b, m, lists, lo, hi, NULL) && i < |lists| && j < |lists[i]| && d == lists[i][j] && SameMarks(m, m')
    requires exists head :: IsList(m, head, lists[i])
    ensures Good(b, m', lists[i := RemoveAt(lists[i], j)], lo, hi, d)
  {
    var head :| IsList(m, head, lists[i]);
    RemovedMembers(m, head, lists[i], j);
    assert d in lists[i];
  }

  /** Putting the block back on the list of its order: pairs with d are allowed to be free only until here. */
  lemma PutStep(b: Blocks, m: Memory, lists: seq<seq<nat>>, lo: nat, hi: nat, d: nat, m': Memory)
    requires Good(b, m, lists, lo, hi, d) && d in b && b[d].free && SameMarks(m, m')
    requires b[d].order < hi ==> !FreePair(b, d)
    ensures Good(b, m', lists[b[d].order - lo := [d] + lists[b[d].order - lo]], lo, hi, NULL)
  {
    forall o | o in b && b[o].order < hi ensures !FreePair(b, o) {
      BuddyHalves(o, b[o].order);
    }
  }

  /** Handing the detached block to the client. */
  lemma GiveStep(b: Blocks, m: Memory, lists: seq<seq<nat>>, lo: nat, hi: nat, d: nat, m': Memory)
    requires Good(b, m, lists, lo, hi, d) && d in b && b[d].free && Retagged(m, m', d, b[d].order, false)
    ensures Good(b[d := Block(b[d].order, false)], m', lists, lo, hi, NULL)
  {
    SameOrdersTile(b, b[d := Block(b[d].order, false)], lo, hi);
    GiveCanonical(b, hi, d);
  }

  lemma GiveCanonical(b: Blocks, hi: nat, d: nat)
    requires CanonicalExcept(b, hi, d) && d in b
    ensures CanonicalExcept(b[d := Block(b[d].order, false)], hi, NULL)
  {
    var b' := b[d := Block(b[d].order, false)];
    forall o | o in b' && b'[o].order < hi ensures !FreePair(b', o) {
      assert o == d || BuddyOf(o, b[o].order) == d || !FreePair(b, o);
    }
  }

  lemma GiveLive(b: Blocks, d: nat)
    requires d in b && b[d].free
    ensures Live(b[d := Block(b[d].order, false)]) == Live(b)[d := b[d].order]
  {
  }

  /** Taking a block back from the client. */
  lemma ReturnStep(b: Blocks, m: Memory, lists: seq<seq<nat>>, lo: nat, hi: nat, d: nat, m': Memory)
    requires Good(b, m, lists, lo, hi, NULL) && d in b && !b[d].free && Retagged(m, m', d, b[d].order, true)
    ensures Good(b[d := Block(b[d].order, true)], m', lists, lo, hi, d)
  {
    SameOrdersTile(b, b[d := Block(b[d].order, true)], lo, hi);
    ReturnCanonical(b, hi, d);
  }

  lemma ReturnCanonical(b: Blocks, hi: nat, d: nat)
    requires CanonicalExcept(b, hi, NULL) && d in b
    ensures CanonicalExcept(b[d := Block(b[d].order, true)], hi, d)
  {
    var b' := b[d := Block(b[d].order, true)];
    forall o | o in b' && b'[o].order < hi && o != d && BuddyOf(o, b'[o].order) != d ensures !FreePair(b', o) {
      assert !FreePair(b, o);
    }
  }

  lemma ReturnLive(b: Blocks, d: nat)
    requires d in b && !b[d].free
    ensures Live(b[d := Block(b[d].order, true)]) == Live(b) - {d}
  {
  }
}
