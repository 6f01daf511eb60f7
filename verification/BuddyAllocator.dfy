/** The buddy allocator: block headers kept in the pool, one doubly linked list of free blocks per order. */
module BuddyAllocator {
  import opened Bits
  import opened BuddyTiling
  import opened BuddyInvariant
  import opened Lists

  /** The blocks a request of this size is served with have this order. */
  function RequestOrder(size: nat, minOrder: nat): nat {
    var k := CeilLog2(size + HEADER);
    if k < minOrder then minOrder else k
  }

  /** The least order that the pool has and whose blocks hold the header and the bytes. */
  ghost predicate LeastOrder(size: nat, minOrder: nat, k: nat) {
    k >= minOrder && size + HEADER <= Pow2(k) && (k == minOrder || Pow2(k - 1) < size + HEADER)
  }

  lemma RequestOrderIsLeast(size: nat, minOrder: nat)
    ensures LeastOrder(size, minOrder, RequestOrder(size, minOrder))
    ensures forall j: nat {:trigger Pow2(j)} :: j >= minOrder && size + HEADER <= Pow2(j) ==>
      j >= RequestOrder(size, minOrder)
  {
    var k := CeilLog2(size + HEADER);
    if k < minOrder { Pow2Monotone(k, minOrder); }
    forall j: nat | j >= minOrder && size + HEADER <= Pow2(j) ensures j >= RequestOrder(size, minOrder) {
      if j < k { Pow2Monotone(j, k - 1); }
    }
  }

  /** Some naturally aligned window of order k holds no byte of a live block. */
  ghost predicate HasFreeWindow(b: Blocks, k: nat, hi: nat) {
    exists w: nat :: WhollyFree(b, w, k) && Aligned(w, k) && w + Pow2(k) <= Pow2(hi)
  }

  /** Some aligned window that is wholly free, of any order the pool has, would hold the header and the bytes. */
  ghost predicate RoomFor(b: Blocks, size: nat, lo: nat, hi: nat) {
    exists j: nat :: j >= lo && size + HEADER <= Pow2(j) && HasFreeWindow(b, j, hi)
  }

  /** It is enough to look for windows of the request's order. */
  lemma RoomIff(b: Blocks, size: nat, lo: nat, hi: nat)
    requires Tiles(b, lo, hi) && Canonical(b, hi)
    ensures RoomFor(b, size, lo, hi) <==> HasFreeWindow(b, RequestOrder(size, lo), hi)
  {
    hide HasFreeWindow, Canonical, Tiles;
    RequestOrderIsLeast(size, lo);
    var k := RequestOrder(size, lo);
    FreeWindowIffFreeBlock(b, k, lo, hi);
    if j: nat :| j >= lo && size + HEADER <= Pow2(j) && HasFreeWindow(b, j, hi) {
      FreeWindowIffFreeBlock(b, j, lo, hi);
    }
  }

  /** A request of order k was served with the block at o: an aligned window of the pool that held nothing
      live, and is now one more live block. */
  ghost predicate Served(b: Blocks, b': Blocks, poolSize: nat, o: int, k: nat) {
    && 0 <= o && Aligned(o, k) && o + Pow2(k) <= poolSize
    && WhollyFree(b, o, k) && o !in Live(b) && Live(b') == Live(b)[o := k]
  }

  lemma ServedBy(b: Blocks, b': Blocks, poolSize: nat, o: nat, k: nat)
    requires Aligned(o, k) && o + Pow2(k) <= poolSize && WhollyFree(b, o, k) && o !in Live(b)
    requires o in b' && b'[o] == Block(k, true) && Live(b') == Live(b)
    ensures Served(b, b'[o := Block(k, false)], poolSize, o, k)
  {
    GiveLive(b', o);
  }

  /** A canonical pool has a free window of order k exactly when it has a free block at least that large. */
  lemma FreeWindowIffFreeBlock(b: Blocks, k: nat, lo: nat, hi: nat)
    requires Tiles(b, lo, hi) && Canonical(b, hi)
    ensures HasFreeWindow(b, k, hi) <==> exists o :: o in b && b[o].free && b[o].order >= k
  {
    if HasFreeWindow(b, k, hi) {
      var w: nat :| WhollyFree(b, w, k) && Aligned(w, k) && w + Pow2(k) <= Pow2(hi);
      var o := FreeWindowInOneBlock(b, lo, hi, w, k);
    }
    if o :| o in b && b[o].free && b[o].order >= k {
      FreeBlockIsWindow(b, k, lo, hi, o);
    }
  }

  lemma FreeBlockIsWindow(b: Blocks, k: nat, lo: nat, hi: nat, o: nat)
    requires Tiles(b, lo, hi) && o in b && b[o].free && b[o].order >= k
    ensures WhollyFree(b, o, k) && Aligned(o, k) && o + Pow2(k) <= Pow2(hi)
  {
    Pow2Monotone(k, b[o].order);
    AlignedLess(o, k, b[o].order);
    OnlyOwnBlock(b, k, o);
  }

  lemma FreeBlockServes(b: Blocks, m: Memory, lists: seq<seq<nat>>, k: nat, lo: nat, hi: nat, o: nat)
    requires Good(b, m, lists, lo, hi, o) && o in b && b[o].free && b[o].order >= k
    ensures WhollyFree(b, o, k) && Aligned(o, k) && o + Pow2(k) <= |m| && o !in Live(b)
  {
    FreeBlockIsWindow(b, k, lo, hi, o);
  }

  lemma OnlyOwnBlock(b: Blocks, k: nat, o: nat)
    requires Disjoint(b) && o in b && b[o].free && Pow2(k) <= Pow2(b[o].order)
    ensures WhollyFree(b, o, k)
  {
  }

  lemma {:induction false} AlignedLess(o: nat, k: nat, j: nat)
    requires k <= j && Aligned(o, j)
    ensures Aligned(o, k)
    decreases k
  {
    if k > 0 { AlignedLess(o / 2, k - 1, j - 1); }
  }

  /** No list from order k up holds a block: no free block is that large. */
  lemma NoneListed(b: Blocks, m: Memory, lists: seq<seq<nat>>, lo: nat, hi: nat, k: nat)
    requires Good(b, m, lists, lo, hi, NULL) && lo <= k
    requires forall i :: k - lo <= i <= hi - lo ==> lists[i] == []
    ensures forall o :: o in b && b[o].free ==> b[o].order < k
  {
    forall o | o in b && b[o].free ensures b[o].order < k {
      assert o in lists[b[o].order - lo];
    }
  }

  lemma HeadOfList(b: Blocks, m: Memory, heads: seq<int>, lists: seq<seq<nat>>, lo: nat, hi: nat, i: nat)
    requires Good(b, m, lists, lo, hi, NULL) && AllLists(m, heads, lists) && i <= hi - lo
    ensures heads[i] == NULL <==> lists[i] == []
    ensures lists[i] != [] ==> heads[i] == lists[i][0] && lists[i][0] in b && b[lists[i][0]] == Block(lo + i, true)
  {
    assert IsList(m, heads[i], lists[i]);
    if lists[i] != [] { assert lists[i][0] in lists[i]; }
  }

  function RootLists(top: nat): seq<seq<nat>> {
    seq(MAX_ORDERS, i => if i == top then [0] else [])
  }

  lemma RootGood(m: Memory, heads: seq<int>, lo: nat, hi: nat)
    requires lo <= hi && hi - lo < MAX_ORDERS && |m| == Pow2(hi) && m[0] == BlockHeader(NULL, NULL, hi, true)
    requires |heads| == MAX_ORDERS && forall i :: 0 <= i < MAX_ORDERS ==> heads[i] == if i == hi - lo then 0 else NULL
    ensures AllLists(m, heads, RootLists(hi - lo)) && Good(Root(hi), m, RootLists(hi - lo), lo, hi, NULL)
  {
    RootTiles(lo, hi);
  }

  /** An offset that is no block is on no list. */
  lemma Unlisted(b: Blocks, m: Memory, lists: seq<seq<nat>>, lo: nat, hi: nat, d: int, o: nat)
    requires Good(b, m, lists, lo, hi, d) && o !in b
    ensures forall i :: 0 <= i < MAX_ORDERS ==> o !in lists[i]
  {
  }

  lemma DetachedUnlisted(b: Blocks, m: Memory, lists: seq<seq<nat>>, lo: nat, hi: nat, d: nat)
    requires Good(b, m, lists, lo, hi, d) && d in b
    ensures d < |m| && b[d].order - lo < MAX_ORDERS && forall i :: 0 <= i < MAX_ORDERS ==> d !in lists[i]
  {
  }

  lemma InsideIsNoBlock(b: Blocks, m: Memory, lists: seq<seq<nat>>, lo: nat, hi: nat, o: nat, x: nat)
    requires Good(b, m, lists, lo, hi, NULL) && o in b && o < x < End(b, o)
    ensures x !in b && x < |m| && forall i :: 0 <= i < MAX_ORDERS ==> x !in lists[i]
  {
  }

  /** Memory that is no block's header may change at will. */
  lemma PayloadStep(b: Blocks, m: Memory, heads: seq<int>, lists: seq<seq<nat>>, lo: nat, hi: nat, x: nat, m': Memory)
    requires Good(b, m, lists, lo, hi, NULL) && AllLists(m, heads, lists) && x !in b && x < |m|
    requires |m'| == |m| && forall y :: 0 <= y < |m| && y != x ==> m'[y] == m[y]
    ensures Good(b, m', lists, lo, hi, NULL) && AllLists(m', heads, lists)
  {
    forall i | 0 <= i < MAX_ORDERS ensures IsList(m', heads[i], lists[i]) {
      OtherListKept(m, m', heads[i], lists[i]);
    }
  }

  /** Writing marks leaves every list as it is. */
  lemma LinksKept(m: Memory, m': Memory, heads: seq<int>, lists: seq<seq<nat>>)
    requires AllLists(m, heads, lists) && |m'| == |m|
    requires forall x :: 0 <= x < |m| ==> m'[x].next == m[x].next && m'[x].prev == m[x].prev
    ensures AllLists(m', heads, lists)
  {
    forall i | 0 <= i < MAX_ORDERS ensures IsList(m', heads[i], lists[i]) {
      OtherListKept(m, m', heads[i], lists[i]);
    }
  }

  class Buddy {
    const minOrder: nat
    const maxOrder: nat
    var mem: Memory            // the pool, read as headers
    var freeLists: seq<int>    // heads, one per order from minOrder up

    ghost var blocks: Blocks
    ghost var lists: seq<seq<nat>>

    ghost predicate Linked()
      reads this
    {
      AllLists(mem, freeLists, lists)
    }

    ghost predicate Inv(d: int)
      reads this
    {
      Linked() && Good(blocks, mem, lists, minOrder, maxOrder, d)
    }

    ghost predicate Valid()
      reads this
    {
      Inv(NULL)
    }

    /** What a valid state says about its sizes and about requests of order k. */
    lemma ValidFacts(k: nat)
      requires Valid()
      ensures minOrder <= maxOrder && maxOrder - minOrder < MAX_ORDERS == |lists| && |mem| == Pow2(maxOrder)
      ensures HasFreeWindow(blocks, k, maxOrder) <==> exists o :: o in blocks && blocks[o].free && blocks[o].order >= k
      ensures forall o :: o in blocks ==> minOrder <= blocks[o].order <= maxOrder
    {
      FreeWindowIffFreeBlock(blocks, k, minOrder, maxOrder);
    }

    /** `list_add` */
    method ListAdd(i: nat, node: nat)
      requires Linked() && i < MAX_ORDERS && node < |mem|
      requires forall j :: 0 <= j < MAX_ORDERS ==> node !in lists[j]
      modifies `lists, `mem, `freeLists
      ensures Linked() && lists == old(lists)[i := [node] + old(lists)[i]]
      ensures SameMarks(old(mem), mem)
    {
      ghost var m0, h0 := mem, freeLists;
      var head := freeLists[i];
      InMemory(mem, head, lists[i]);
      mem := mem[node := mem[node].(next := head, prev := NULL)];
      if head != NULL {
        mem := mem[head := mem[head].(prev := node)];
      }
      freeLists := freeLists[i := node];
      AddLinks(m0, h0, lists, i, node, mem);
      lists := lists[i := [node] + lists[i]];
    }

    /** `list_remove` */
    method ListRemove(i: nat, node: nat, ghost j: nat)
      requires Linked() && i < MAX_ORDERS && j < |lists[i]| && lists[i][j] == node
      modifies `lists, `mem, `freeLists
      ensures Linked() && lists == old(lists)[i := RemoveAt(old(lists)[i], j)]
      ensures SameMarks(old(mem), mem)
    {
      ghost var m0, h0 := mem, freeLists;
      assert IsList(mem, freeLists[i], lists[i]);
      assert LinkOk(mem, lists[i], j);
      InMemory(mem, freeLists[i], lists[i]);
      var n := mem[node];
      if n.prev != NULL {
        mem := mem[n.prev := mem[n.prev].(next := n.next)];
      } else {
        freeLists := freeLists[i := n.next];
      }
      if n.next != NULL {
        mem := mem[n.next := mem[n.next].(prev := n.prev)];
      }
      RemoveLinks(m0, h0, lists, i, j, mem);
      lists := lists[i := RemoveAt(lists[i], j)];
    }

    /** `buddy_init` on a pool whose memory holds anything. The size of the pool is a power of two; the
        order range must fit the array of lists, as the source asserts. */
    constructor (pool: Memory, minBlockSize: nat)
      requires 1 <= |pool| <= HALF_WORD && |pool| == Pow2(CeilLog2(|pool|))
      requires minBlockSize <= HALF_WORD
      requires 0 <= CeilLog2(|pool|) - CeilLog2(minBlockSize) < MAX_ORDERS
      ensures Valid()
      ensures maxOrder == CeilLog2(|pool|) && minOrder == CeilLog2(minBlockSize)
      ensures blocks == Root(maxOrder)
    {
      var lo := Log2Ceil(minBlockSize);
      var hi := Log2Ceil(|pool|);
      minOrder, maxOrder := lo, hi;
      mem := pool[0 := BlockHeader(NULL, NULL, hi, true)];
      freeLists := seq(MAX_ORDERS, _ => NULL)[hi - lo := 0];
      blocks := Root(hi);
      lists := RootLists(hi - lo);
      new;
      RootGood(mem, freeLists, minOrder, maxOrder);
    }

    /** The first nonempty list from `target` up, if there is one. */
    method FindList(target: nat) returns (current: nat)
      requires Linked() && minOrder <= maxOrder && maxOrder - minOrder < MAX_ORDERS && target <= maxOrder - minOrder
      ensures target <= current <= maxOrder - minOrder + 1
      ensures forall i :: target <= i < current ==> lists[i] == []
      ensures current <= maxOrder - minOrder ==> lists[current] != []
    {
      current := target;
      while current < maxOrder - minOrder + 1 && freeLists[current] == NULL
        invariant target <= current <= maxOrder - minOrder + 1
        invariant forall i :: target <= i < current ==> lists[i] == []
      {
        assert IsList(mem, freeLists[current], lists[current]);
        current := current + 1;
      }
      if current <= maxOrder - minOrder {
        assert IsList(mem, freeLists[current], lists[current]);
      }
    }

    /** Take the head of a list off it. */
    method TakeHead(current: nat) returns (block: nat)
      requires Valid() && current <= maxOrder - minOrder && lists[current] != []
      modifies `lists, `mem, `freeLists
      ensures block == old(lists)[current][0] && Inv(block) && |mem| == |old(mem)|
      ensures block in blocks && blocks[block] == Block(minOrder + current, true)
    {
      HeadOfList(blocks, mem, freeLists, lists, minOrder, maxOrder, current);
      block := freeLists[current];
      ghost var m0, l0 := mem, lists;
      ListRemove(current, block, 0);
      TakeStep(blocks, m0, l0, minOrder, maxOrder, block, current, 0, mem);
    }

    /** The upper half of a detached block is inside the pool, no block yet, and on no list. */
    lemma HalfFacts(block: nat)
      requires Inv(block) && block in blocks && blocks[block].free && blocks[block].order > minOrder
      ensures block < |mem| && mem[block].order == blocks[block].order && mem[block].isFree
      ensures var h := block + Pow2(blocks[block].order - 1);
        h < |mem| && forall i :: 0 <= i < MAX_ORDERS ==> h !in lists[i]
      ensures Live(Split(blocks, block)) == Live(blocks) && |lists| == MAX_ORDERS > maxOrder - minOrder
    {
      SplitFacts(blocks, minOrder, maxOrder, block);
      var h := block + Pow2(blocks[block].order - 1);
      assert h in Split(blocks, block);
      Unlisted(blocks, mem, lists, minOrder, maxOrder, block, h);
    }

    /** One round of the splitting loop: the block keeps its lower half, the upper half goes on list `current`. */
    method SplitOnce(block: nat, current: nat)
      requires Inv(block) && current < maxOrder - minOrder
      requires block in blocks && blocks[block] == Block(minOrder + current + 1, true)
      modifies `blocks, `lists, `mem, `freeLists
      ensures Inv(block) && |mem| == |old(mem)| && blocks == Split(old(blocks), block)
    {
      hide Good, AllLists, SplitMarks, SameMarks, Live;
      ghost var m0 := mem;
      HalfFacts(block);
      mem := mem[block := mem[block].(order := mem[block].order - 1)];
      var buddy := block + Pow2(mem[block].order);
      mem := mem[buddy := mem[buddy].(order := mem[block].order, isFree := true)];
      MarkHalves(m0, freeLists, lists, block, buddy, minOrder + current);
      ghost var m1, l0 := mem, lists;
      ListAdd(current, buddy);
      SplitMarksKept(m0, m1, mem, block, buddy, minOrder + current);
      SplitStep(blocks, m0, l0, minOrder, maxOrder, block, minOrder + current, mem);
      blocks := Split(blocks, block);
    }

    /** Mark the block as in use. */
    method Give(block: nat)
      requires Inv(block) && block in blocks && blocks[block].free
      modifies `blocks, `mem
      ensures Valid() && |mem| == |old(mem)| && blocks == old(blocks)[block := Block(old(blocks)[block].order, false)]
    {
      ghost var m0 := mem;
      mem := mem[block := mem[block].(isFree := false)];
      GiveStep(blocks, m0, lists, minOrder, maxOrder, block, mem);
      LinksKept(m0, mem, freeLists, lists);
      blocks := blocks[block := Block(blocks[block].order, false)];
    }

    /** The search and the split of `buddy_alloc`: the offset of a block of order k, or NULL. */
    method AllocBlock(k: nat) returns (block: int)
      requires Valid() && minOrder <= k <= maxOrder
      modifies `blocks, `lists, `mem, `freeLists
      ensures Valid() && |mem| == |old(mem)|
      ensures block == NULL <==> !old(HasFreeWindow(blocks, k, maxOrder))
      ensures block == NULL ==> blocks == old(blocks) && lists == old(lists)
      ensures block == NULL || 0 <= block
      ensures block != NULL ==> Served(old(blocks), blocks, |mem|, block, k)
    {
      hide Good, AllLists, WhollyFree, Live, Served;
      ValidFacts(k);
      var target := k - minOrder;
      var current := FindList(target);
      if current > maxOrder - minOrder {
        NoneListed(blocks, mem, lists, minOrder, maxOrder, k);
        return NULL;
      }
      block := TakeHead(current);
      FreeBlockServes(blocks, mem, lists, k, minOrder, maxOrder, block);
      while current > target
        invariant target <= current <= maxOrder - minOrder
        invariant Inv(block) && block in blocks && blocks[block] == Block(minOrder + current, true)
        invariant Live(blocks) == old(Live(blocks)) && |mem| == |old(mem)|
      {
        current := current - 1;
        HalfFacts(block);
        SplitOnce(block, current);
      }
      ServedBy(old(blocks), blocks, |mem|, block, k);
      Give(block);
    }

    /** `buddy_alloc`: NULL exactly when no aligned window that would hold the request is wholly free; otherwise the
        payload of a block of the least order that holds it, which joins the live blocks and held nothing live. */
    method Alloc(size: nat) returns (ptr: int)
      requires Valid() && size + HEADER <= HALF_WORD
      modifies `blocks, `lists, `mem, `freeLists
      ensures Valid() && |mem| == |old(mem)|
      ensures ptr == NULL <==> !old(RoomFor(blocks, size, minOrder, maxOrder))
      ensures ptr == NULL ==> blocks == old(blocks) && lists == old(lists)
      ensures ptr != NULL ==> exists k ::
        LeastOrder(size, minOrder, k) && Served(old(blocks), blocks, |mem|, ptr - HEADER, k)
    {
      hide Good, AllLists, HasFreeWindow, Served, CeilLog2, RoomFor, LeastOrder;
      RequestOrderIsLeast(size, minOrder);
      RoomInPool(size);
      var reqOrder := Log2Ceil(size + HEADER);
      if reqOrder < minOrder { reqOrder := minOrder; }
      ValidFacts(reqOrder);
      if reqOrder > maxOrder { return NULL; }
      var block := AllocBlock(reqOrder);
      if block == NULL { return NULL; }
      ptr := block + HEADER;
      assert ptr - HEADER == block;
    }

    lemma RoomInPool(size: nat)
      requires Valid()
      ensures RoomFor(blocks, size, minOrder, maxOrder) <==>
        HasFreeWindow(blocks, RequestOrder(size, minOrder), maxOrder)
    {
      RoomIff(blocks, size, minOrder, maxOrder);
    }

    lemma Marks(block: nat)
      requires Inv(block) && block in blocks
      ensures block < |mem| && mem[block].order == blocks[block].order && mem[block].isFree == blocks[block].free
      ensures minOrder <= blocks[block].order <= maxOrder
    {
    }

    /** Take a live block back: it is free, but on no list yet. */
    method TakeBack(block: nat)
      requires Valid() && block in Live(blocks)
      modifies `blocks, `mem
      ensures Inv(block) && |mem| == |old(mem)| && block in blocks && blocks[block].free
      ensures Live(blocks) == old(Live(blocks)) - {block}
      ensures block < |mem| && mem[block].order == blocks[block].order && minOrder <= blocks[block].order
    {
      ghost var m0 := mem;
      mem := mem[block := mem[block].(isFree := true)];
      ReturnStep(blocks, m0, lists, minOrder, maxOrder, block, mem);
      LinksKept(m0, mem, freeLists, lists);
      ReturnLive(blocks, block);
      blocks := blocks[block := Block(blocks[block].order, true)];
    }

    /** List a detached block that has no free buddy. */
    method PutBack(block: nat, current: nat)
      requires Inv(block) && block in blocks && blocks[block] == Block(minOrder + current, true)
      requires minOrder + current < maxOrder ==> !FreePair(blocks, block)
      modifies `lists, `mem, `freeLists
      ensures Valid() && |mem| == |old(mem)|
    {
      ghost var m0, l0 := mem, lists;
      DetachedUnlisted(blocks, mem, lists, minOrder, maxOrder, block);
      ListAdd(current, block);
      PutStep(blocks, m0, l0, minOrder, maxOrder, block, mem);
    }

    /** A client may write anything into the payload of its block: no header of a current block is there. */
    method ClientWrite(block: nat, x: nat, h: BlockHeader)
      requires Valid() && block in Live(blocks) && block < x < block + Pow2(Live(blocks)[block])
      modifies `mem
      ensures Valid() && mem == old(mem)[x := h]
    {
      InsideIsNoBlock(blocks, mem, lists, minOrder, maxOrder, block, x);
      ghost var m0 := mem;
      mem := mem[x := h];
      PayloadStep(blocks, m0, freeLists, lists, minOrder, maxOrder, x, mem);
    }

    /** The buddy whose header the coalescing loop inspects is a current block, no larger than the block. */
    lemma BuddyFacts(block: nat)
      requires Inv(block) && block in blocks && blocks[block].order < maxOrder
      ensures var k, q := blocks[block].order, BuddyOf(block, blocks[block].order);
        && q in blocks && blocks[q].order <= k && q != block && q < |mem|
        && mem[q].order == blocks[q].order && mem[q].isFree == blocks[q].free
        && (blocks[q] == Block(k, true) ==> q in lists[k - minOrder])
      ensures minOrder <= blocks[block].order && maxOrder - minOrder < MAX_ORDERS == |lists|
    {
      BuddyIsBlock(blocks, minOrder, maxOrder, block);
      BuddyHalves(block, blocks[block].order);
    }

    /** One round of the coalescing loop: join the block with its free buddy. */
    method JoinOnce(block: nat, current: nat) returns (joined: nat)
      requires Inv(block) && block in blocks && blocks[block] == Block(minOrder + current, true)
      requires minOrder + current < maxOrder
      requires BuddyOf(block, minOrder + current) in blocks
      requires blocks[BuddyOf(block, minOrder + current)] == Block(minOrder + current, true)
      modifies `blocks, `lists, `mem, `freeLists
      ensures Inv(joined) && joined in blocks && blocks[joined] == Block(minOrder + current + 1, true)
      ensures |mem| == |old(mem)| && Live(blocks) == old(Live(blocks))
    {
      hide Good, Live, Retagged;
      BuddyFacts(block);
      Marks(block);
      var k := minOrder + current;
      var buddy := BuddyOf(block, k);
      ghost var m0, l0 := mem, lists;
      ghost var j :| 0 <= j < |lists[current]| && lists[current][j] == buddy;
      RemovedMembers(mem, freeLists[current], lists[current], j);
      ListRemove(current, buddy, j);
      joined := block;
      if buddy < block { joined := buddy; }
      ghost var m1 := mem;
      mem := mem[joined := mem[joined].(order := mem[joined].order + 1)];
      LinksKept(m1, mem, freeLists, lists);
      RetaggedAfterLinks(m0, m1, joined, k + 1, mem[joined]);
      JoinStep(blocks, m0, l0, minOrder, maxOrder, block, buddy, k, lists[current], mem);
      blocks := Join(blocks, joined, k);
    }

    /** `buddy_free`: the block leaves the live blocks; whatever can be coalesced is. */
    method Free(ptr: int)
      requires Valid() && (ptr == NULL || ptr - HEADER in Live(blocks))
      modifies `blocks, `lists, `mem, `freeLists
      ensures Valid() && |mem| == |old(mem)|
      ensures ptr == NULL ==> blocks == old(blocks)
      ensures ptr != NULL ==> Live(blocks) == old(Live(blocks)) - {ptr - HEADER}
    {
      hide Good, AllLists;
      if ptr == NULL { return; }
      var block := ptr - HEADER;
      ghost var live := Live(blocks) - {block};
      TakeBack(block);
      var current := mem[block].order - minOrder;
      while mem[block].order < maxOrder
        invariant Inv(block) && block in blocks && blocks[block] == Block(minOrder + current, true)
        invariant |mem| == |old(mem)| && Live(blocks) == live && 0 <= current && block < |mem|
        invariant mem[block].order == minOrder + current
        decreases maxOrder - current
      {
        BuddyFacts(block);
        var buddy := BuddyOf(block, mem[block].order);
        if !mem[buddy].isFree || mem[buddy].order != mem[block].order { break; }
        block := JoinOnce(block, current);
        current := current + 1;
        Marks(block);
      }
      PutBack(block, current);
    }
  }
}
