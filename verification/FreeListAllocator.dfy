/** The free-list allocator's state and operations. */
module FreeListAllocator {
  import opened FreeList
  import opened Lists
  import opened Wrappers

  /** Headers are two words at an offset of the pool; -1 is the null pointer. */
  class Allocator {
    const pool: nat
    var size: map<nat, nat>
    var next: map<nat, int>
    var head: int

    ghost var starts: set<nat>   // where the blocks begin
    ghost var free: seq<nat>     // the blocks on the list

    /** The list is linked in address order through the pool, whose every offset holds a word of each kind. */
    ghost predicate ListOk()
      reads this
    {
      Listed(next, head, starts, free) && Words(size, next, pool) && forall i :: 0 <= i < |free| ==> free[i] < pool
    }

    /** Everything but the coalescing: in addition the blocks tile the pool. */
    ghost predicate Linked()
      reads this
    {
      pool >= HEADER + ALIGNMENT && Tiled(size, starts, pool) && ListOk()
    }

    ghost predicate Valid()
      reads this
    {
      Linked() && Apart(size, free, |free|)
    }

    /** The allocated blocks and their payload sizes. */
    ghost function Live(): map<nat, nat>
      reads this
    {
      LiveIn(size, starts, free)
    }

    /** The state that initialization leaves: one free block. */
    ghost predicate Initial()
      reads this
    {
      starts == {0} && free == [0] && 0 in size && size[0] == pool - HEADER && head == 0 && 0 in next && next[0] == -1
    }

    constructor (pool: nat)
      requires pool >= HEADER + ALIGNMENT && IsAligned(pool)
      ensures Valid() && Initial() && Live() == map[] && this.pool == pool
    {
      this.pool := pool;
      size := Zeros(pool)[0 := pool - HEADER];
      var links: map<nat, int> := Zeros(pool);
      next := links[0 := -1];
      head := 0;
      starts, free := {0}, [0];
      new;
      AlignedSums(pool, pool);
      assert BlockOk(size, starts, pool, 0);
      assert LinkOk(next, free, 0);
    }

    /** The block's first n bytes are taken; the rest becomes a block in its place on the list. */
    method Split(previous: int, current: nat, n: nat, ghost i: nat)
      requires Valid() && i < |free| && current == free[i] && previous == Before(free, i) && current in size
        && current in next
      requires IsAligned(n) && n >= ALIGNMENT && size[current] >= n + HEADER + ALIGNMENT
      modifies this
      ensures Valid() && Live() == old(Live())[current := n]
    {
      hide Tiled, Listed, Apart, LiveIn, Words;
      SplitFacts(size, next, head, starts, free, pool, i, n);
      Relink(next, head, starts, free, i, current + HEADER + n);
      var newBlock := current + HEADER + n;
      var remaining := size[current] - n;
      size := size[current := n][newBlock := remaining - HEADER];
      next := next[newBlock := next[current]];
      if previous >= 0 { next := next[previous := newBlock]; } else { head := newBlock; }
      starts := starts + {newBlock};
      free := free[i := newBlock];
      WordsKept(old(size), old(next), size, next, pool);
      InPool(size, next, head, starts, free, pool);
    }

    /** The whole block is taken. */
    method Consume(previous: int, current: nat, ghost i: nat)
      requires Valid() && i < |free| && current == free[i] && previous == Before(free, i) && current in size
        && current in next
      modifies this
      ensures Valid() && Live() == old(Live())[current := old(size)[current]]
    {
      hide Tiled, Apart, LiveIn;
      ConsumeFacts(size, starts, free, i, pool);
      Unlink(next, head, starts, free, i);
      ApartShorter(size, RemoveAt(free, i), |free|);
      if previous >= 0 { next := next[previous := next[current]]; } else { head := next[current]; }
      free := RemoveAt(free, i);
    }

    /** `free_list_alloc`: the first block on the list that is large enough. It fails exactly when there is no room
        between the live blocks for a header and the rounded size; live blocks stay as they are. */
    method Alloc(requested: nat) returns (p: Option<nat>)
      requires Valid()
      modifies this
      ensures Valid()
      ensures p == None <==> requested == 0 || !exists w: nat :: Gap(old(Live()), pool, w, AlignUp(requested))
      ensures p == None ==> unchanged(this)
      ensures p != None ==> Taken(old(size), old(free), old(Live()), Live(), requested, p.value)
    {
      hide Tiled, Apart, LiveIn, Gap, AlignUp;
      if requested == 0 { return None; }
      AlignUpIsLeast(requested);
      var n := AlignUp(requested);
      AlignedIsWhole(n);
      FitsIffWindow(size, next, head, starts, free, pool, n);
      var current, previous := head, -1;
      ghost var i := 0;
      while current != -1
        invariant unchanged(this)
        invariant i <= |free| && current == Link(free, i) && previous == Before(free, i)
        invariant forall j :: 0 <= j < i ==> free[j] in size && size[free[j]] < n
        decreases |free| - i
      {
        InSize(size, starts, pool, current);
        assert LinkOk(next, free, i);
        if size[current] >= n {
          assert Fits(size, free, n);
          TakenNow(size, starts, free, requested, n, i);
          if size[current] - n >= HEADER + ALIGNMENT {
            Split(previous, current, n, i);
          } else {
            Consume(previous, current, i);
          }
          return Some(current + HEADER);
        }
        previous, current := current, next[current];
        i := i + 1;
      }
      assert !Fits(size, free, n);
      return None;
    }

    /** The walk of `insert_free_block` to the block's place. */
    method FindPlace(block: nat) returns (previous: int, current: int, ghost i: nat)
      requires ListOk() && block !in free
      ensures i <= |free| && current == Link(free, i) && previous == Before(free, i)
      ensures (forall j :: 0 <= j < i ==> free[j] < block) && (i < |free| ==> block < free[i])
    {
      hide Listed, Words;
      previous, current, i := -1, head, 0;
      LinkAt(next, head, starts, free, 0);
      while current != -1 && current < block
        invariant i <= |free| && current == Link(free, i) && previous == Before(free, i)
        invariant forall j :: 0 <= j < i ==> free[j] < block
        decreases |free| - i
      {
        LinkAt(next, head, starts, free, i);
        previous, current := current, next[current];
        i := i + 1;
      }
      assert i < |free| ==> free[i] in free;
    }

    /** `insert_free_block`: the block enters the list in address order; a live block is live no longer. */
    method InsertFreeBlock(block: nat) returns (ghost i: nat)
      requires ListOk() && block < pool && block !in free
      modifies this`next, this`head, this`free, this`starts
      ensures ListOk() && starts == old(starts) + {block}
      ensures i <= |old(free)| && free == old(free)[..i] + [block] + old(free)[i..]
      ensures old(Linked() && block in Live()) ==> Linked() && Live() == old(Live()) - {block}
    {
      hide Tiled, Listed, Words, LiveIn;
      var previous, current;
      previous, current, i := FindPlace(block);
      WiderStarts(next, head, starts, free, block);
      LiveIsStart(size, starts, free, block);
      LinkIn(next, head, starts + {block}, free, i, block);
      if block in starts { InsertFacts(size, starts, free, i, block); }
      SameStarts(starts, block);
      next := next[block := current];
      if previous >= 0 { next := next[previous := block]; } else { head := block; }
      starts := starts + {block};
      free := free[..i] + [block] + free[i..];
      WordsKept(old(size), old(next), size, next, pool);
    }

    /** The block after `current` on the list, which touches it, becomes part of it. */
    method MergeNext(current: nat, ghost i: nat, ghost n: nat)
      requires ListOk() && n <= i && i + 1 < |free| && current == free[i] && Apart(size, free, i)
        && Apart(size, free, n)
      requires current in size && current in next && next[current] == free[i + 1] == EndOf(size, current)
      modifies this`size, this`next, this`starts, this`free
      ensures ListOk() && free == RemoveAt(old(free), i + 1) && Apart(size, free, i) && Apart(size, free, n)
        && LinkOk(next, free, i)
      ensures forall j :: 0 <= j < n ==> free[j] == old(free)[j] && free[j] != current
      ensures forall a :: a in old(size) && a != current ==> a in size && size[a] == old(size)[a]
      ensures old(Linked()) ==> Linked() && Live() == old(Live())
    {
      hide Tiled, LiveIn, Listed, Apart, Words;
      AllWords(size, next, pool, free);
      ListFacts(next, head, starts, free);
      MergeApart(size, next, head, starts, free, pool, i, n);
      if Linked() { MergeFacts(size, next, head, starts, free, pool, i); }
      var absorbed := next[current];
      size := size[current := size[current] + HEADER + size[absorbed]];
      next := next[current := next[absorbed]];
      starts := starts - {absorbed};
      free := RemoveAt(free, i + 1);
      WordsKept(old(size), old(next), size, next, pool);
      LinkAt(next, head, starts, free, i);
    }

    /** `coalesce`: one pass merges every pair of free blocks that touch. The first n + 1 entries stay if none of them
        touches the next one, and the first n of them keep their sizes. */
    method Coalesce(ghost n: nat)
      requires ListOk() && n < |free| && Apart(size, free, n)
      modifies this
      ensures ListOk() && free != [] && n < |free| && free[..n + 1] == old(free[..n + 1])
      ensures forall j :: 0 <= j < n ==> free[j] in size && free[j] in old(size) && size[free[j]] == old(size)[free[j]]
      ensures old(Linked()) ==> Valid() && Live() == old(Live())
    {
      hide Tiled, LiveIn, Listed, Apart, Words;
      var current := head;
      ghost var i := 0;
      ghost var tiled, live := Linked(), Live();
      NothingApart(size, free);
      LinkAt(next, head, starts, free, i);
      AllWords(size, next, pool, free);
      while current != -1 && next[current] != -1
        invariant ListOk() && i < |free| && n < |free| && current == free[i] && LinkOk(next, free, i)
        invariant Apart(size, free, i) && Apart(size, free, n) && free[..n + 1] == old(free[..n + 1])
        invariant forall j :: 0 <= j < n ==>
          free[j] in size && free[j] in old(size) && size[free[j]] == old(size)[free[j]]
        invariant tiled ==> Linked() && Live() == live
        decreases |free| - i
      {
        LinkAt(next, head, starts, free, i + 1);
        AllWords(size, next, pool, free);
        if EndOf(size, current) == next[current] {
          NotApart(size, free, i, n);
          ghost var was := free;
          MergeNext(current, i, n);
          assert free[..n + 1] == was[..n + 1];
        } else {
          ApartFurther(size, free, i);
          current := next[current];
          i := i + 1;
        }
      }
      ApartToEnd(size, free, i);
    }

    /** `is_already_free` */
    method IsAlreadyFree(block: int) returns (found: bool)
      requires Linked()
      ensures found == (exists i :: 0 <= i < |free| && free[i] == block)
    {
      hide Tiled;
      var current := head;
      ghost var i := 0;
      while current != -1
        invariant i <= |free| && current == Link(free, i)
        invariant forall j :: 0 <= j < i ==> free[j] != block
        decreases |free| - i
      {
        assert LinkOk(next, free, i);
        if current == block { return true; }
        current := next[current];
        i := i + 1;
      }
      return false;
    }

    /** `free_list_free`: a null pointer is accepted, a pointer outside the pool, in the first header or of a block on
        the list is refused. A live block is live no longer. Any other pointer is taken for a block: it is on the list
        afterwards, though it lies inside a live block or inside another free one. */
    method Free(p: Option<int>) returns (ok: bool)
      requires Valid()
      modifies this
      ensures ok == (p == None
        || (HEADER <= p.value < pool && !(exists i :: 0 <= i < |old(free)| && old(free)[i] == p.value - HEADER)))
      ensures !ok || p == None ==> unchanged(this)
      ensures ok && p != None ==>
        if p.value - HEADER in old(Live()) then Valid() && Live() == old(Live()) - {p.value - HEADER}
        else Swallowed(old(size), old(Live()), size, free, p.value - HEADER)
    {
      hide Tiled, LiveIn, Listed, Apart, Words, Swallowed;
      if p == None { return true; }
      if !(0 <= p.value < pool) { return false; }
      if p.value < HEADER { return false; }
      var block := p.value - HEADER;
      var already := IsAlreadyFree(block);
      if already { return false; }
      ghost var size0, starts0, free0, live0 := size, starts, free, Live();
      ListFacts(next, head, starts, free);
      ghost var n := InsertFreeBlock(block);
      ListFacts(next, head, starts, free);
      ghost var free1, inside := free, 0;
      if block in live0 {
        n := 0;
        NothingApart(size, free);
      } else {
        inside := BlockAround(size0, starts0, free0, pool, block, n, free);
      }
      Coalesce(n);
      if block !in live0 { StillInside(size0, live0, free1, size, free, inside, block, n); }
      return true;
    }

    /** Freeing all live blocks, in any order, leaves the state that initialization left. */
    method FreeAll(order: seq<nat>)
      requires Valid() && Distinct(order) && forall a {:trigger a in Live()} :: a in Live() <==> a in order
      modifies this
      ensures Valid() && Initial()
    {
      hide Tiled, LiveIn, Listed, Apart;
      for i := 0 to |order|
        invariant Valid() && forall a {:trigger a in Live()} :: a in Live() <==> a in order[i..]
      {
        ghost var rest := order[i + 1..];
        assert order[i..] == [order[i]] + rest && order[i] !in rest;
        assert order[i] in Live();
        LiveBlock(size, next, head, starts, free, pool, order[i]);
        var ok := Free(Some(order[i] + HEADER));
      }
      assert Live() == map[];
      NothingLive(size, next, head, starts, free, pool);
    }

    /** Whether a second free of a block is noticed, as `free_list_free` means to, whatever happened since the first: if
        and only if the block begins the pool or follows a live block. */
    method SecondFreeIsRefused(block: nat) returns (found: bool)
      requires Valid() && block < pool && block !in Live()
      ensures found == (exists i :: 0 <= i < |free| && free[i] == block)
      ensures found <==> block == 0 || FollowsLive(Live(), block)
    {
      hide Tiled, Listed, Apart, LiveIn;
      FoundOnListIff(size, next, head, starts, free, pool, block);
      found := IsAlreadyFree(block);
    }

    /** A second free that is not noticed: the only live block, if it does not begin the pool. */
    method MissedDoubleFree(block: nat) returns (found: bool)
      requires Valid() && block > 0 && forall a {:trigger a in Live()} :: a in Live() <==> a == block
      modifies this
      ensures Valid() && !found
    {
      hide Tiled, Listed, Apart, LiveIn;
      assert block in Live();
      LiveBlock(size, next, head, starts, free, pool, block);
      var ok := Free(Some(block + HEADER));
      found := SecondFreeIsRefused(block);
    }

    /** The double free in full: two blocks are allocated and freed, the second one twice. The second free goes through,
        and leaves two free blocks on the list of which one lies inside the other. */
    method DoubleFreeTest() returns (ok: bool, ghost inner: nat, ghost outer: nat)
      requires Valid() && Initial() && Live() == map[] && pool >= 160
      modifies this
      ensures ok && inner in free && outer in free && outer in size && outer < inner < EndOf(size, outer)
    {
      hide Tiled, LiveIn, Listed, Apart, Words, AlignUp;
      AlignUpIsLeast(1);
      assert Gap(Live(), pool, 0, AlignUp(1));
      var p := Alloc(1);
      assert p.value == HEADER;
      ghost var first := Live()[0];
      assert Gap(Live(), pool, 96, AlignUp(1));
      var q := Alloc(1);
      var block := q.value - HEADER;
      inner := block;
      LiveBlock(size, next, head, starts, free, pool, inner);
      LiveBlock(size, next, head, starts, free, pool, 0);
      ok := Free(p);
      LiveBlock(size, next, head, starts, free, pool, inner);
      ok := Free(q);
      assert Live() == map[];
      var found := SecondFreeIsRefused(block);
      ghost var was := size;
      ok := Free(q);
      outer :| Around(was, map[], size, free, inner, outer);
    }

    /** A client writes into the payload of a live block, over whatever old headers are there. */
    method ClientWrite(a: nat, at: nat, word: nat, other: int)
      requires Valid() && a in Live() && a + HEADER <= at < a + HEADER + Live()[a]
      modifies this`size, this`next
      ensures Valid() && Live() == old(Live())
    {
      PayloadIsNoHeader(size, starts, free, pool, a, at);
      PayloadWrite(size, next, head, starts, free, pool, at, word, other);
      size, next := size[at := word], next[at := other];
    }
  }

  /** Static memory is zero. */
  function Zeros(n: nat): (m: map<nat, nat>)
    ensures forall a: nat :: a < n ==> a in m
  {
    if n == 0 then map[] else Zeros(n - 1)[n - 1 := 0]
  }

  /** The pool's memory: a size word and a link word at every offset. */
  ghost predicate Words(size: map<nat, nat>, next: map<nat, int>, pool: nat) {
    forall a: nat :: a < pool ==> a in size && a in next
  }

  /** The block is on the list, though it begins inside a live block or inside another free one, which is on the list
      with its old size. */
  ghost predicate Swallowed(size0: map<nat, nat>, live0: map<nat, nat>, size: map<nat, nat>, free: seq<nat>,
      block: nat) {
    block in free && exists x :: Around(size0, live0, size, free, block, x)
  }

  ghost predicate Around(size0: map<nat, nat>, live0: map<nat, nat>, size: map<nat, nat>, free: seq<nat>,
      block: nat, x: nat) {
    && x in size0 && x < block < EndOf(size0, x)
    && (x in live0 || (x in free && x in size && size[x] == size0[x]))
  }

  /** What a successful allocation changes: the first block on the list that fits is live, with the rounded size, or
      with all it has if a split would leave no useful rest. */
  ghost predicate Taken(size: map<nat, nat>, free: seq<nat>, live: map<nat, nat>, live': map<nat, nat>,
      requested: nat, p: nat) {
    exists i {:trigger free[i]} :: 0 <= i < |free| && p == free[i] + HEADER && free[i] !in live && free[i] in size
      && (forall j :: 0 <= j < i ==> free[j] in size && size[free[j]] < AlignUp(requested))
      && free[i] in live' && live' == live[free[i] := live'[free[i]]]
      && requested <= AlignUp(requested) <= size[free[i]]
      && (if size[free[i]] >= AlignUp(requested) + HEADER + ALIGNMENT then live'[free[i]] == AlignUp(requested)
          else live'[free[i]] == size[free[i]])
  }

  lemma AlignedIsWhole(n: nat)
    requires IsAligned(n) && n > 0
    ensures n >= ALIGNMENT
  {
  }

  lemma TakenNow(size: map<nat, nat>, starts: set<nat>, free: seq<nat>, requested: nat, n: nat, i: nat)
    requires i < |free| && free[i] in size && size[free[i]] >= n == AlignUp(requested) >= requested
    requires forall j :: 0 <= j < i ==> free[j] in size && size[free[j]] < n
    ensures var taken := if size[free[i]] - n >= HEADER + ALIGNMENT then n else size[free[i]];
      Taken(size, free, LiveIn(size, starts, free), LiveIn(size, starts, free)[free[i] := taken], requested, free[i]
        + HEADER)
  {
    var live := LiveIn(size, starts, free);
    var taken := if size[free[i]] - n >= HEADER + ALIGNMENT then n else size[free[i]];
    assert live[free[i] := taken] == live[free[i] := live[free[i] := taken][free[i]]];
  }

  lemma ApartShorter(size: map<nat, nat>, free: seq<nat>, n: nat)
    requires Apart(size, free, n) && n >= |free|
    ensures Apart(size, free, |free|)
  {
  }

  lemma NotApart(size: map<nat, nat>, free: seq<nat>, i: nat, n: nat)
    requires Apart(size, free, n) && i + 1 < |free| && free[i] in size && EndOf(size, free[i]) == free[i + 1]
    ensures i >= n
  {
  }

  lemma ApartFurther(size: map<nat, nat>, free: seq<nat>, i: nat)
    requires Apart(size, free, i) && i + 1 < |free| && free[i] in size && EndOf(size, free[i]) != free[i + 1]
    ensures Apart(size, free, i + 1)
  {
  }

  lemma ApartToEnd(size: map<nat, nat>, free: seq<nat>, i: nat)
    requires Apart(size, free, i) && i + 1 >= |free|
    ensures Apart(size, free, |free|)
  {
  }

  /** A merge at position i >= n leaves the first n blocks apart, in any list in address order. */
  lemma MergeApart(size: map<nat, nat>, next: map<nat, int>, head: int, starts: set<nat>, free: seq<nat>, pool: nat,
      i: nat, n: nat)
    requires Listed(next, head, starts, free) && n <= i && i + 1 < |free| && Apart(size, free, n)
      && Apart(size, free, i)
    requires free[i] in size && free[i + 1] in size && free[i + 1] in next
    ensures var free' := RemoveAt(free, i + 1);
      var size' := size[free[i] := size[free[i]] + HEADER + size[free[i + 1]]];
      && Listed(next[free[i] := next[free[i + 1]]], head, starts - {free[i + 1]}, free') && Apart(size', free', n)
        && Apart(size', free', i)
      && forall j :: 0 <= j < n ==> free[j] != free[i]
  {
    MergeLinks(next, head, starts, free, i);
  }

  lemma SameStarts(starts: set<nat>, block: nat)
    ensures block in starts ==> starts + {block} == starts
  {
  }

  /** An address that begins no block lies in the block that contains it, and the block before it on the list does not
      end there. */
  lemma BlockAround(size: map<nat, nat>, starts: set<nat>, free: seq<nat>, pool: nat, block: nat, n: nat,
      free': seq<nat>) returns (x: nat)
    requires Tiled(size, starts, pool) && (forall i :: 0 <= i < |free| ==> free[i] in starts)
      && Apart(size, free, |free|)
    requires forall i, j :: 0 <= i < j < |free'| ==> free'[i] < free'[j]
    requires block < pool && block !in LiveIn(size, starts, free) && block !in free
    requires n <= |free| && free' == free[..n] + [block] + free[n..]
    ensures x in size && x < block < EndOf(size, x) && (x in LiveIn(size, starts, free) || x in free'[..n])
    ensures Apart(size, free', n)
  {
    x := BlockAt(size, starts, pool, block, 0);
    InsertedOrder(free, free', block, n);
    if x in free {
      var i :| 0 <= i < |free| && free[i] == x;
      assert free'[..n] == free[..n];
      assert i < n && free[..n][i] == x;
    }
    forall i | 0 <= i < n && free'[i] in size ensures EndOf(size, free'[i]) != free'[i + 1] {
      assert free'[i] == free[i];
      if i + 1 == n { EndsInOrder(size, starts, pool, free[i], x); }
    }
  }

  lemma InsertedOrder(free: seq<nat>, free': seq<nat>, block: nat, n: nat)
    requires n <= |free| && free' == free[..n] + [block] + free[n..]
      && forall i, j :: 0 <= i < j < |free'| ==> free'[i] < free'[j]
    ensures free'[n] == block && (forall i :: 0 <= i < n ==> free[i] < block)
      && forall i :: n <= i < |free| ==> block < free[i]
  {
    assert free'[n] == block;
    forall i | 0 <= i < n ensures free[i] < block { assert free'[i] == free[i]; }
    forall i | n <= i < |free| ensures block < free[i] { assert free'[i + 1] == free[i]; }
  }

  lemma EndsInOrder(size: map<nat, nat>, starts: set<nat>, pool: nat, a: nat, b: nat)
    requires Tiled(size, starts, pool) && a in starts && b in starts && a in size && b in size
    ensures (a < b ==> EndOf(size, a) <= b) && (b < a ==> EndOf(size, b) <= a)
  {
  }

  lemma StillInside(size0: map<nat, nat>, live0: map<nat, nat>, free1: seq<nat>, size: map<nat, nat>,
      free: seq<nat>, x: nat, block: nat, n: nat)
    requires x in size0 && x < block < EndOf(size0, x) && n < |free| && n < |free1| && (x in live0 || x in free1[..n])
    requires free[..n + 1] == free1[..n + 1] && free1[n] == block
    requires forall j :: 0 <= j < n ==> free[j] in size && free[j] in size0 && size[free[j]] == size0[free[j]]
    ensures Swallowed(size0, live0, size, free, block)
  {
    assert free[n] == free[..n + 1][n] == block;
    if x in free1[..n] {
      var j :| 0 <= j < n && free1[j] == x;
      assert free[j] == free[..n + 1][j] == x;
    }
    assert Around(size0, live0, size, free, block, x);
  }

  lemma NothingApart(size: map<nat, nat>, free: seq<nat>)
    ensures Apart(size, free, 0)
  {
  }

  lemma LiveBlock(size: map<nat, nat>, next: map<nat, int>, head: int, starts: set<nat>, free: seq<nat>, pool: nat,
      a: nat)
    requires Tiled(size, starts, pool) && a in LiveIn(size, starts, free)
    ensures a + HEADER < pool && forall i :: 0 <= i < |free| ==> free[i] != a
  {
    assert BlockOk(size, starts, pool, a);
  }

  lemma PayloadIsNoHeader(size: map<nat, nat>, starts: set<nat>, free: seq<nat>, pool: nat, a: nat, at: nat)
    requires Tiled(size, starts, pool) && a in LiveIn(size, starts, free) && a + HEADER <= at < a + HEADER + size[a]
    ensures at !in starts
  {
    if at in starts { Disjoint(size, starts, pool, a, at); }
  }

  lemma LinkAt(next: map<nat, int>, head: int, starts: set<nat>, free: seq<nat>, i: nat)
    requires Listed(next, head, starts, free)
    ensures head == Link(free, 0) && (i < |free| ==> LinkOk(next, free, i))
  {
  }

  lemma LiveIsStart(size: map<nat, nat>, starts: set<nat>, free: seq<nat>, a: nat)
    ensures a in LiveIn(size, starts, free) ==> a in starts
  {
  }

  lemma AllWords(size: map<nat, nat>, next: map<nat, int>, pool: nat, free: seq<nat>)
    requires Words(size, next, pool) && forall i :: 0 <= i < |free| ==> free[i] < pool
    ensures forall i :: 0 <= i < |free| ==> free[i] in size && free[i] in next
  {
  }

  lemma ListFacts(next: map<nat, int>, head: int, starts: set<nat>, free: seq<nat>)
    requires Listed(next, head, starts, free)
    ensures (forall i :: 0 <= i < |free| ==> free[i] in starts)
      && forall i, j :: 0 <= i < j < |free| ==> free[i] < free[j]
  {
  }

  lemma WiderStarts(next: map<nat, int>, head: int, starts: set<nat>, free: seq<nat>, block: nat)
    requires Listed(next, head, starts, free)
    ensures Listed(next, head, starts + {block}, free)
  {
  }

  lemma InPool(size: map<nat, nat>, next: map<nat, int>, head: int, starts: set<nat>, free: seq<nat>, pool: nat)
    requires Tiled(size, starts, pool) && Listed(next, head, starts, free)
    ensures forall i :: 0 <= i < |free| ==> free[i] < pool
  {
    forall i | 0 <= i < |free| ensures free[i] < pool { InSize(size, starts, pool, free[i]); }
  }

  lemma WordsKept(size: map<nat, nat>, next: map<nat, int>, size': map<nat, nat>, next': map<nat, int>, pool: nat)
    requires Words(size, next, pool) && size.Keys <= size'.Keys && next.Keys <= next'.Keys
    ensures Words(size', next', pool)
  {
  }

  lemma SameTiles(size: map<nat, nat>, size': map<nat, nat>, starts: set<nat>, pool: nat)
    requires Tiled(size, starts, pool) && forall c :: c in starts && c in size ==> c in size' && size'[c] == size[c]
    ensures Tiled(size', starts, pool)
  {
    forall c | c in starts ensures c in size && c in size' { InSize(size, starts, pool, c); }
    forall c | c in starts ensures BlockOk(size', starts, pool, c) && EndOf(size', c) <= pool {
      assert BlockOk(size, starts, pool, c);
    }
    forall c, d | c in starts && d in starts && c < d ensures EndOf(size', c) <= d {
      Disjoint(size, starts, pool, c, d);
    }
  }

  lemma PayloadWrite(size: map<nat, nat>, next: map<nat, int>, head: int, starts: set<nat>, free: seq<nat>,
      pool: nat, at: nat, word: nat, other: int)
    requires Tiled(size, starts, pool) && Listed(next, head, starts, free) && Apart(size, free, |free|) && at !in starts
    ensures Tiled(size[at := word], starts, pool) && Listed(next[at := other], head, starts, free)
      && Apart(size[at := word], free, |free|)
    ensures LiveIn(size[at := word], starts, free) == LiveIn(size, starts, free)
  {
    hide Tiled;
    var next' := next[at := other];
    SameTiles(size, size[at := word], starts, pool);
    forall j: nat | j < |free| ensures LinkOk(next', free, j) { LinkAt(next, head, starts, free, j); }
    forall c | c in starts ensures c in size { InSize(size, starts, pool, c); }
  }
}
