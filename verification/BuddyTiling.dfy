/** The pool of the buddy allocator as a set of blocks: a map from a block's offset to its
    order and whether it is free. Everything the allocator promises about the pool as a whole
    is stated and proved here, on values; BuddyAllocator.dfy runs the C code against it. */
module BuddyTiling {
  import opened Bits

  datatype Block = Block(order: nat, free: bool)
  type Blocks = map<nat, Block>

  function End(b: Blocks, o: nat): nat
    requires o in b
  {
    o + Pow2(b[o].order)
  }

  ghost predicate Covers(b: Blocks, o: nat, x: nat) {
    o in b && o <= x < End(b, o)
  }

  ghost predicate Covered(b: Blocks, x: nat) {
    exists o :: Covers(b, o, x)
  }

  ghost predicate InBounds(b: Blocks, lo: nat, hi: nat) {
    forall o :: o in b ==> lo <= b[o].order <= hi && Aligned(o, b[o].order) && End(b, o) <= Pow2(hi)
  }

  ghost predicate Disjoint(b: Blocks) {
    forall o, p :: o in b && p in b && o < p ==> End(b, o) <= p
  }

  ghost predicate Covering(b: Blocks, hi: nat) {
    forall x: nat :: x < Pow2(hi) ==> Covered(b, x)
  }

  /** Every block is a naturally aligned block of an order in [lo..hi] inside the pool, blocks do not
      overlap, and every byte of the pool is in a block. */
  ghost predicate Tiles(b: Blocks, lo: nat, hi: nat) {
    InBounds(b, lo, hi) && Disjoint(b) && Covering(b, hi)
  }

  /** The offset of the buddy, as the allocator computes it. */
  function BuddyOf(o: nat, k: nat): nat {
    Xor(o, Pow2(k))
  }

  /** Two free buddies of one order: what coalescing must never leave behind. */
  ghost predicate FreePair(b: Blocks, o: nat) {
    && o in b && b[o].free
    && BuddyOf(o, b[o].order) in b && b[BuddyOf(o, b[o].order)] == b[o]
  }

  ghost predicate Canonical(b: Blocks, hi: nat) {
    forall o {:trigger FreePair(b, o)} :: o in b && b[o].order < hi ==> !FreePair(b, o)
  }

  /** The aligned window of order k at w holds no byte of a live block. */
  ghost predicate WhollyFree(b: Blocks, w: nat, k: nat) {
    forall o :: o in b && o < w + Pow2(k) && w < End(b, o) ==> b[o].free
  }

  /** The blocks handed out to clients, with their orders. */
  ghost function Live(b: Blocks): map<nat, nat> {
    map o | o in b && !b[o].free :: b[o].order
  }

  // ---- arithmetic of naturally aligned windows

  /** Two naturally aligned windows that share a byte are nested. */
  lemma {:induction false} Nested(p: nat, i: nat, m: nat, j: nat)
    requires i <= j && Aligned(p, i) && Aligned(m, j)
    requires p < m + Pow2(j) && m < p + Pow2(i)
    ensures m <= p && p + Pow2(i) <= m + Pow2(j)
    decreases i
  {
    if i > 0 { Nested(p / 2, i - 1, m / 2, j - 1); }
  }

  /** A block and its buddy are the two halves of the aligned window of the next order. */
  lemma {:induction false} BuddyHalves(o: nat, k: nat)
    requires Aligned(o, k)
    ensures Aligned(BuddyOf(o, k), k)
    ensures || (BuddyOf(o, k) == o + Pow2(k) && Aligned(o, k + 1))
            || (BuddyOf(o, k) == o - Pow2(k) && Aligned(BuddyOf(o, k), k + 1))
    ensures BuddyOf(BuddyOf(o, k), k) == o
    decreases k
  {
    if k > 0 {
      BuddyHalves(o / 2, k - 1);
      XorDouble(o / 2, Pow2(k - 1));
      var h := BuddyOf(o / 2, k - 1);
      XorDouble(h, Pow2(k - 1));
      assert o == 2 * (o / 2) && Pow2(k) == 2 * Pow2(k - 1);
      assert (2 * h) / 2 == h;
    } else {
      XorOne(o);
      XorOne(BuddyOf(o, 0));
    }
  }

  /** An aligned window of order j < k inside one of order k lies, with its buddy, inside it. */
  lemma BuddyInside(o: nat, j: nat, w: nat, k: nat)
    requires j < k && Aligned(o, j) && Aligned(w, k)
    requires w <= o && o + Pow2(j) <= w + Pow2(k)
    ensures w <= BuddyOf(o, j) && BuddyOf(o, j) + Pow2(j) <= w + Pow2(k)
  {
    BuddyHalves(o, j);
    var v := if BuddyOf(o, j) < o then BuddyOf(o, j) else o;
    Nested(v, j + 1, w, k);
  }

  lemma XorOne(a: nat)
    ensures Xor(a, 1) == if a % 2 == 0 then a + 1 else a - 1
  {
    assert Xor(a / 2, 0) == a / 2;
  }

  lemma XorDouble(a: nat, b: nat)
    ensures Xor(2 * a, 2 * b) == 2 * Xor(a, b)
  {
    if a > 0 && b > 0 {
      assert (2 * a) / 2 == a && (2 * b) / 2 == b;
    }
  }

  lemma {:induction false} AlignedZero(k: nat)
    ensures Aligned(0, k)
  {
    if k > 0 { AlignedZero(k - 1); }
  }

  lemma {:induction false} AlignedHalf(o: nat, k: nat)
    requires Aligned(o, k + 1)
    ensures Aligned(o, k) && Aligned(o + Pow2(k), k) && BuddyOf(o, k) == o + Pow2(k)
    decreases k
  {
    if k > 0 {
      AlignedHalf(o / 2, k - 1);
      XorDouble(o / 2, Pow2(k - 1));
      assert o == 2 * (o / 2) && Pow2(k) == 2 * Pow2(k - 1) && (o + Pow2(k)) / 2 == o / 2 + Pow2(k - 1);
    } else {
      XorOne(o);
    }
  }

  // ---- what a tiling gives

  /** The header `buddy_free` inspects is always the header of a current block, of no larger order. */
  lemma BuddyIsBlock(b: Blocks, lo: nat, hi: nat, o: nat)
    requires Tiles(b, lo, hi) && o in b && b[o].order < hi
    ensures BuddyOf(o, b[o].order) in b && b[BuddyOf(o, b[o].order)].order <= b[o].order
  {
    var k := b[o].order;
    var bo := BuddyOf(o, k);
    BuddyHalves(o, k);
    AlignedZero(hi);
    BuddyInside(o, k, 0, hi);
    assert Covered(b, bo);
    var p :| Covers(b, p, bo);
    var j := b[p].order;
    if j > k {
      var v := if bo < o then bo else o;
      Nested(v, k + 1, p, j);
    } else {
      Nested(p, j, bo, k);
    }
  }

  /** In a canonical pool a wholly free window contains no free block smaller than itself. */
  lemma {:induction false} NoSmallFreeBlock(b: Blocks, lo: nat, hi: nat, w: nat, k: nat, o: nat)
    requires Tiles(b, lo, hi) && Canonical(b, hi) && k <= hi && Aligned(w, k) && WhollyFree(b, w, k)
    requires o in b && b[o].order < k && w <= o && End(b, o) <= w + Pow2(k)
    ensures false
    decreases b[o].order
  {
    var j := b[o].order;
    BuddyIsBlock(b, lo, hi, o);
    BuddyInside(o, j, w, k);
    var q := BuddyOf(o, j);
    Pow2Monotone(b[q].order, j);
    assert !FreePair(b, o);
    if b[q].order < j {
      NoSmallFreeBlock(b, lo, hi, w, k, q);
    }
  }

  /** Canonical free space: a wholly free aligned window always lies inside one free block. */
  lemma FreeWindowInOneBlock(b: Blocks, lo: nat, hi: nat, w: nat, k: nat) returns (o: nat)
    requires Tiles(b, lo, hi) && Canonical(b, hi)
    requires Aligned(w, k) && w + Pow2(k) <= Pow2(hi) && WhollyFree(b, w, k)
    ensures o in b && b[o].free && b[o].order >= k && o <= w && w + Pow2(k) <= End(b, o)
  {
    if k > hi { Pow2Monotone(hi + 1, k); }
    assert Covered(b, w);
    o :| Covers(b, o, w);
    if b[o].order >= k {
      Nested(w, k, o, b[o].order);
    } else {
      Nested(o, b[o].order, w, k);
      NoSmallFreeBlock(b, lo, hi, w, k, o);
    }
  }

  lemma LiveInBoth(a: Blocks, b: Blocks, o: nat)
    requires Live(a) == Live(b) && o in a && !a[o].free
    ensures o in b && b[o] == a[o]
  {
    assert o in Live(a) && Live(a)[o] == a[o].order;
    assert o in Live(b) && Live(b)[o] == b[o].order;
  }

  /** A block of one tiling that is not live in another tiling with the same live blocks
      overlaps none of them there. */
  lemma SameLiveSameFree(a: Blocks, b: Blocks, lo: nat, hi: nat, o: nat)
    requires Tiles(a, lo, hi) && Tiles(b, lo, hi) && Live(a) == Live(b)
    requires o in a && a[o].free
    ensures WhollyFree(b, o, a[o].order)
  {
    forall q | q in b && q < End(a, o) && o < End(b, q)
      ensures b[q].free
    {
      if !b[q].free {
        LiveInBoth(b, a, q);
      }
    }
  }

  lemma SubsetOfCanonical(a: Blocks, b: Blocks, lo: nat, hi: nat, o: nat)
    requires Tiles(a, lo, hi) && Tiles(b, lo, hi) && Canonical(a, hi) && Canonical(b, hi) && Live(a) == Live(b)
    requires o in a
    ensures o in b && b[o] == a[o]
  {
    if a[o].free {
      SameLiveSameFree(a, b, lo, hi, o);
      var p := FreeWindowInOneBlock(b, lo, hi, o, a[o].order);
      SameLiveSameFree(b, a, lo, hi, p);
      var r := FreeWindowInOneBlock(a, lo, hi, p, b[p].order);
      assert r == o && b[p].order == a[o].order;
    } else {
      LiveInBoth(a, b, o);
    }
  }

  /** The blocks of a canonical pool are determined by the live blocks alone: neither the order of the
      calls that led here nor the choices made on the way leave a trace in the free space. */
  lemma CanonicalIsUnique(a: Blocks, b: Blocks, lo: nat, hi: nat)
    requires Tiles(a, lo, hi) && Tiles(b, lo, hi) && Canonical(a, hi) && Canonical(b, hi)
    requires Live(a) == Live(b)
    ensures a == b
  {
    forall o | o in a ensures o in b && b[o] == a[o] { SubsetOfCanonical(a, b, lo, hi, o); }
    forall o | o in b ensures o in a { SubsetOfCanonical(b, a, lo, hi, o); }
  }

  function Root(hi: nat): Blocks {
    map[0 := Block(hi, true)]
  }

  lemma RootTiles(lo: nat, hi: nat)
    requires lo <= hi
    ensures Tiles(Root(hi), lo, hi) && Canonical(Root(hi), hi) && Live(Root(hi)) == map[]
  {
    AlignedZero(hi);
    forall x: nat | x < Pow2(hi) ensures Covered(Root(hi), x) {
      assert Covers(Root(hi), 0, x);
    }
  }

  /** Nothing live: the pool has coalesced back to its one initial block. */
  lemma NothingLiveIsRoot(b: Blocks, lo: nat, hi: nat)
    requires lo <= hi && Tiles(b, lo, hi) && Canonical(b, hi) && Live(b) == map[]
    ensures b == Root(hi)
  {
    RootTiles(lo, hi);
    CanonicalIsUnique(b, Root(hi), lo, hi);
  }

  // ---- the two changes of the tiling

  /** `f` is `c` with the block of order k + 1 at w cut into its two halves. */
  ghost predicate Halved(c: Blocks, f: Blocks, w: nat, k: nat) {
    var h := w + Pow2(k);
    && w in c && c[w].order == k + 1 && h !in c
    && w in f && h in f && f[w].order == f[h].order == k
    && forall p :: p != w && p != h ==> (p in c <==> p in f) && (p in c ==> c[p] == f[p])
  }

  lemma HalvedCovering(c: Blocks, f: Blocks, w: nat, k: nat, hi: nat)
    requires Halved(c, f, w, k)
    ensures Covering(c, hi) <==> Covering(f, hi)
  {
    var h := w + Pow2(k);
    assert End(f, w) == h && End(f, h) == End(c, w);
    forall x: nat ensures Covered(c, x) <==> Covered(f, x) {
      if p :| Covers(c, p, x) {
        assert if p != w then Covers(f, p, x) else if x < h then Covers(f, w, x) else Covers(f, h, x);
      }
      if p :| Covers(f, p, x) {
        assert if p == w || p == h then Covers(c, w, x) else Covers(c, p, x);
      }
    }
  }

  lemma HalvedDisjoint(c: Blocks, f: Blocks, w: nat, k: nat)
    requires Halved(c, f, w, k)
    ensures Disjoint(c) <==> Disjoint(f)
  {
    var h := w + Pow2(k);
    assert End(f, w) == h && End(f, h) == End(c, w);
    if Disjoint(c) {
      forall p, q | p in f && q in f && p < q ensures End(f, p) <= q {
        var p', q' := if p == h then w else p, if q == h then w else q;
        assert p' in c && q' in c;
      }
    }
    if Disjoint(f) {
      forall p, q | p in c && q in c && p < q ensures End(c, p) <= q {
        assert p in f && q in f;
      }
    }
  }

  lemma HalvedBounds(c: Blocks, f: Blocks, w: nat, k: nat, lo: nat, hi: nat)
    requires Halved(c, f, w, k) && lo <= k < hi && Aligned(w, k + 1)
    ensures InBounds(c, lo, hi) <==> InBounds(f, lo, hi)
  {
    var h := w + Pow2(k);
    AlignedHalf(w, k);
    assert End(f, w) == h && End(f, h) == End(c, w);
    if InBounds(c, lo, hi) {
      forall o | o in f
        ensures lo <= f[o].order <= hi && Aligned(o, f[o].order) && End(f, o) <= Pow2(hi)
      {
        assert o == h || o in c;
        assert w in c;
      }
    }
    if InBounds(f, lo, hi) {
      forall o | o in c
        ensures lo <= c[o].order <= hi && Aligned(o, c[o].order) && End(c, o) <= Pow2(hi)
      {
        assert o in f;
      }
    }
  }

  lemma HalvedTiles(c: Blocks, f: Blocks, w: nat, k: nat, lo: nat, hi: nat)
    requires Halved(c, f, w, k) && lo <= k < hi && Aligned(w, k + 1)
    ensures Tiles(c, lo, hi) <==> Tiles(f, lo, hi)
  {
    HalvedBounds(c, f, w, k, lo, hi);
    HalvedDisjoint(c, f, w, k);
    HalvedCovering(c, f, w, k, hi);
  }

  function Split(b: Blocks, o: nat): Blocks
    requires o in b && b[o].order > 0
  {
    var k := b[o].order - 1;
    b[o := Block(k, b[o].free)][o + Pow2(k) := Block(k, true)]
  }

  lemma SplitIsHalved(b: Blocks, o: nat)
    requires o in b && b[o].order > 0 && o + Pow2(b[o].order - 1) !in b
    ensures Halved(b, Split(b, o), o, b[o].order - 1)
    ensures b[o].free ==> Live(Split(b, o)) == Live(b)
  {
  }

  /** A free block's split changes nothing for the clients, and the new upper half is its buddy. */
  lemma SplitFacts(b: Blocks, lo: nat, hi: nat, o: nat)
    requires Tiles(b, lo, hi) && o in b && lo < b[o].order
    ensures Tiles(Split(b, o), lo, hi)
    ensures o + Pow2(b[o].order - 1) !in b
    ensures BuddyOf(o, b[o].order - 1) == o + Pow2(b[o].order - 1)
    ensures b[o].free ==> Live(Split(b, o)) == Live(b)
  {
    var k := b[o].order - 1;
    AlignedHalf(o, k);
    assert o < o + Pow2(k) < End(b, o);
    SplitIsHalved(b, o);
    HalvedTiles(b, Split(b, o), o, k, lo, hi);
  }

  /** Join the two halves of the window of order k + 1 at w. */
  function Join(b: Blocks, w: nat, k: nat): Blocks {
    (b - {w + Pow2(k)})[w := Block(k + 1, true)]
  }

  lemma JoinIsHalved(b: Blocks, w: nat, k: nat)
    requires w in b && w + Pow2(k) in b && b[w] == b[w + Pow2(k)] == Block(k, true)
    ensures Halved(Join(b, w, k), b, w, k)
    ensures Live(Join(b, w, k)) == Live(b)
  {
  }

  /** Joining a free block with its free buddy changes nothing for the clients either. */
  lemma JoinFacts(b: Blocks, lo: nat, hi: nat, w: nat, k: nat)
    requires Tiles(b, lo, hi) && k < hi && Aligned(w, k + 1)
    requires w in b && w + Pow2(k) in b && b[w] == b[w + Pow2(k)] == Block(k, true)
    ensures Tiles(Join(b, w, k), lo, hi) && Live(Join(b, w, k)) == Live(b)
  {
    JoinIsHalved(b, w, k);
    HalvedTiles(Join(b, w, k), b, w, k, lo, hi);
  }
}
