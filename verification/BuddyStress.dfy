/** The stress test of the buddy allocator, for every sequence of rounds instead of one random one. */
module BuddyStress {
  import opened Bits
  import opened BuddyTiling
  import opened BuddyInvariant
  import opened BuddyAllocator

  const NUM_PTRS: nat := 64

  /** One round: the slot and the size the source draws at random. */
  datatype Round = Round(slot: nat, size: nat)

  ghost predicate Holds(live: map<nat, nat>, p: int, size: nat) {
    p - HEADER in live && size + HEADER <= Pow2(live[p - HEADER])
  }

  /** The slots name the live blocks, each once, and each block holds what was asked for it. */
  ghost predicate Owned(live: map<nat, nat>, ptrs: seq<int>, sizes: seq<nat>) {
    && |ptrs| == |sizes| == NUM_PTRS
    && (forall i :: 0 <= i < NUM_PTRS && ptrs[i] != NULL ==> Holds(live, ptrs[i], sizes[i]))
    && (forall i, j :: 0 <= i < j < NUM_PTRS && ptrs[i] != NULL ==> ptrs[i] != ptrs[j])
    && (forall o :: o in live ==> o + HEADER in ptrs)
  }

  predicate RangesOverlap(a: int, aLen: nat, b: int, bLen: nat) {
    a < b + bLen && b < a + aLen
  }

  lemma LiveApart(b: Blocks, lo: nat, hi: nat, p: int, pSize: nat, q: int, qSize: nat)
    requires Tiles(b, lo, hi) && Holds(Live(b), p, pSize) && Holds(Live(b), q, qSize) && p != q
    ensures !RangesOverlap(p, pSize, q, qSize)
  {
    var o, r: nat := p - HEADER, q - HEADER;
    assert o in b && r in b && o != r;
    assert End(b, o) <= r || End(b, r) <= o;
  }

  lemma OwnedAfterFree(live: map<nat, nat>, live': map<nat, nat>, ptrs: seq<int>, sizes: seq<nat>, i: nat)
    requires Owned(live, ptrs, sizes) && i < NUM_PTRS && ptrs[i] != NULL && live' == live - {ptrs[i] - HEADER}
    ensures Owned(live', ptrs[i := NULL], sizes[i := 0])
  {
    var ptrs' := ptrs[i := NULL];
    forall o | o in live' ensures o + HEADER in ptrs' {
      var j :| 0 <= j < NUM_PTRS && ptrs[j] == o + HEADER;
      assert ptrs'[j] == o + HEADER;
    }
  }

  lemma OwnedAfterAlloc(live: map<nat, nat>, live': map<nat, nat>, ptrs: seq<int>, sizes: seq<nat>, i: nat, p: int,
      size: nat, k: nat)
    requires Owned(live, ptrs, sizes) && i < NUM_PTRS && ptrs[i] == NULL && p >= HEADER
    requires p - HEADER !in live && live' == live[p - HEADER := k] && size + HEADER <= Pow2(k)
    ensures Owned(live', ptrs[i := p], sizes[i := size])
  {
    var ptrs' := ptrs[i := p];
    var sizes' := sizes[i := size];
    forall j | 0 <= j < NUM_PTRS && ptrs'[j] != NULL ensures Holds(live', ptrs'[j], sizes'[j])
      && (j != i ==> ptrs'[j] != p) {
      if j != i { assert Holds(live, ptrs[j], sizes[j]); }
    }
    forall o | o in live' ensures o + HEADER in ptrs' {
      if o == p - HEADER {
        assert ptrs'[i] == p;
      } else {
        var j :| 0 <= j < NUM_PTRS && ptrs[j] == o + HEADER;
        assert ptrs'[j] == o + HEADER;
      }
    }
  }

  method FreeSlot(a: Buddy, p: int, ghost ptrs: seq<int>, ghost sizes: seq<nat>, ghost i: nat)
    requires a.Valid() && Owned(Live(a.blocks), ptrs, sizes) && i < NUM_PTRS && p == ptrs[i] != NULL
    modifies a
    ensures a.Valid() && Owned(Live(a.blocks), ptrs[i := NULL], sizes[i := 0])
  {
    ghost var live := Live(a.blocks);
    assert Holds(live, ptrs[i], sizes[i]);
    a.Free(p);
    OwnedAfterFree(live, Live(a.blocks), ptrs, sizes, i);
  }

  ghost predicate Cleared(rest: seq<int>, ptrs: seq<int>, i: nat) {
    && |rest| == |ptrs| == NUM_PTRS >= i
    && forall j :: 0 <= j < NUM_PTRS ==> rest[j] == if j < i then NULL else ptrs[j]
  }

  lemma ClearedStep(rest: seq<int>, ptrs: seq<int>, i: nat)
    requires Cleared(rest, ptrs, i) && i < NUM_PTRS
    ensures rest[i] == ptrs[i] && Cleared(rest[i := NULL], ptrs, i + 1)
    ensures ptrs[i] == NULL ==> Cleared(rest, ptrs, i + 1)
  {
  }

  lemma NoneOwned(live: map<nat, nat>, ptrs: seq<int>, rest: seq<int>, sizes: seq<nat>)
    requires Owned(live, rest, sizes) && Cleared(rest, ptrs, NUM_PTRS)
    ensures live == map[]
  {
    assert forall o :: o in live ==> o + HEADER in rest;
  }

  /** Free every slot in use, in slot order. */
  method FreeAll(a: Buddy, ptrs: seq<int>, ghost sizes: seq<nat>)
    requires a.Valid() && Owned(Live(a.blocks), ptrs, sizes)
    modifies a
    ensures a.Valid() && Live(a.blocks) == map[]
  {
    hide Good, AllLists, Live;
    var i := 0;
    ghost var rest, restSizes := ptrs, sizes;
    while i < NUM_PTRS
      invariant 0 <= i <= NUM_PTRS && a.Valid() && Owned(Live(a.blocks), rest, restSizes)
      invariant Cleared(rest, ptrs, i) && |rest| == |restSizes| == NUM_PTRS
    {
      ClearedStep(rest, ptrs, i);
      if ptrs[i] != NULL {
        FreeSlot(a, ptrs[i], rest, restSizes, i);
        rest, restSizes := rest[i := NULL], restSizes[i := 0];
      }
      i := i + 1;
    }
    NoneOwned(Live(a.blocks), ptrs, rest, restSizes);
  }

  /** The slots, and the pool's blocks, at one moment. */
  datatype Slots = Slots(ptrs: seq<int>, sizes: seq<nat>, blocks: Blocks)

  /** No two allocations in use overlap. */
  ghost predicate NoneOverlap(s: Slots) {
    && |s.ptrs| == |s.sizes| == NUM_PTRS
    && forall i, j :: 0 <= i < NUM_PTRS && 0 <= j < NUM_PTRS && i != j && s.ptrs[i] != NULL && s.ptrs[j] != NULL ==>
      !RangesOverlap(s.ptrs[i], s.sizes[i], s.ptrs[j], s.sizes[j])
  }

  /** A round empties the slot if it is in use, and otherwise fills it, unless the pool has no room for the request:
      then nothing changes. */
  ghost predicate Follows(s: Slots, r: Round, s': Slots, lo: nat, hi: nat) {
    && |s.ptrs| == |s.sizes| == NUM_PTRS && r.slot < NUM_PTRS && |s'.ptrs| == |s'.sizes| == NUM_PTRS
    && (forall i :: 0 <= i < NUM_PTRS && i != r.slot ==> s'.ptrs[i] == s.ptrs[i] && s'.sizes[i] == s.sizes[i])
    && if s.ptrs[r.slot] != NULL then s'.ptrs[r.slot] == NULL
       else if RoomFor(s.blocks, r.size, lo, hi) then s'.ptrs[r.slot] != NULL && s'.sizes[r.slot] == r.size
       else s' == s
  }

  /** The slots before the first round and after each: every round does its work, and at no time do two overlap. */
  ghost predicate TraceOk(rounds: seq<Round>, trace: seq<Slots>, lo: nat, hi: nat) {
    && |trace| == |rounds| + 1
    && (forall r :: 0 <= r < |rounds| ==> Follows(trace[r], rounds[r], trace[r + 1], lo, hi))
    && forall r :: 0 <= r < |trace| ==> NoneOverlap(trace[r])
  }

  lemma TraceStarts(rounds: seq<Round>, s: Slots, lo: nat, hi: nat)
    requires NoneOverlap(s)
    ensures TraceOk(rounds[..0], [s], lo, hi)
  {
  }

  lemma TraceGrows(rounds: seq<Round>, n: nat, trace: seq<Slots>, s: Slots, lo: nat, hi: nat)
    requires n < |rounds| && |trace| == n + 1 && TraceOk(rounds[..n], trace, lo, hi)
    requires Follows(trace[n], rounds[n], s, lo, hi) && NoneOverlap(s)
    ensures TraceOk(rounds[..n + 1], trace + [s], lo, hi)
  {
    assert rounds[..n + 1] == rounds[..n] + [rounds[n]];
  }

  lemma ServedFits(b: Blocks, b': Blocks, poolSize: nat, o: int, k: nat, size: nat, lo: nat)
    requires LeastOrder(size, lo, k) && Served(b, b', poolSize, o, k)
    ensures o >= 0 && o !in Live(b) && Live(b') == Live(b)[o := k] && size + HEADER <= Pow2(k)
  {
  }

  /** An empty slot is filled if the pool has room. */
  method FillSlot(a: Buddy, size: nat, ghost ptrs: seq<int>, ghost sizes: seq<nat>, ghost i: nat) returns (p: int)
    requires a.Valid() && Owned(Live(a.blocks), ptrs, sizes) && i < NUM_PTRS && ptrs[i] == NULL
      && size + HEADER <= HALF_WORD
    modifies a
    ensures a.Valid() && (p != NULL <==> old(RoomFor(a.blocks, size, a.minOrder, a.maxOrder)))
    ensures if p == NULL then a.blocks == old(a.blocks) else Owned(Live(a.blocks), ptrs[i := p], sizes[i := size])
  {
    hide RoomFor, Good, AllLists, Live, LeastOrder, Served;
    ghost var blocks := a.blocks;
    p := a.Alloc(size);
    if p != NULL {
      ghost var k :| LeastOrder(size, a.minOrder, k) && Served(blocks, a.blocks, |a.mem|, p - HEADER, k);
      ServedFits(blocks, a.blocks, |a.mem|, p - HEADER, k, size, a.minOrder);
      OwnedAfterAlloc(Live(blocks), Live(a.blocks), ptrs, sizes, i, p, size, k);
    }
  }

  /** One round: the slot's block is freed, or one is allocated for it. */
  method OneRound(a: Buddy, round: Round, ptrs: seq<int>, sizes: seq<nat>) returns (ptrs': seq<int>, sizes': seq<nat>)
    requires a.Valid() && Owned(Live(a.blocks), ptrs, sizes) && round.slot < NUM_PTRS
      && round.size + HEADER <= HALF_WORD
    modifies a
    ensures a.Valid() && Owned(Live(a.blocks), ptrs', sizes')
    ensures Follows(Slots(ptrs, sizes, old(a.blocks)), round, Slots(ptrs', sizes', a.blocks), a.minOrder, a.maxOrder)
  {
    hide RoomFor, Good, AllLists, Live;
    var i, size := round.slot, round.size;
    ptrs', sizes' := ptrs, sizes;
    if ptrs[i] != NULL {
      FreeSlot(a, ptrs[i], ptrs, sizes, i);
      ptrs', sizes' := ptrs[i := NULL], sizes[i := 0];
    } else {
      var p := FillSlot(a, size, ptrs, sizes, i);
      if p != NULL { ptrs', sizes' := ptrs[i := p], sizes[i := size]; }
    }
  }

  /** Any rounds of allocating and freeing, then freeing everything: no allocation ever overlaps a live one,
      and the pool ends as one root block on the top list, every other list empty. */
  method StressTest(a: Buddy, rounds: seq<Round>) returns (ghost trace: seq<Slots>)
    requires a.Valid() && a.blocks == Root(a.maxOrder)
    requires forall r :: 0 <= r < |rounds| ==> rounds[r].slot < NUM_PTRS && rounds[r].size + HEADER <= HALF_WORD
    modifies a
    ensures TraceOk(rounds, trace, a.minOrder, a.maxOrder) && |trace| > 0 && trace[0].ptrs == seq(NUM_PTRS, _ => NULL)
    ensures a.Valid() && a.blocks == Root(a.maxOrder)
    ensures var top := a.maxOrder - a.minOrder;
      && a.freeLists[top] == 0 && a.mem[0].next == NULL
      && forall i :: 0 <= i < MAX_ORDERS && i != top ==> a.freeLists[i] == NULL
  {
    hide Owned, Follows, Good, AllLists, TraceOk, NoneOverlap, Live, Root;
    RootFacts(a);
    var ptrs := seq(NUM_PTRS, _ => NULL);
    var sizes: seq<nat> := seq(NUM_PTRS, _ => 0);
    NothingOwned(Live(a.blocks), ptrs, sizes);
    trace := [Slots(ptrs, sizes, a.blocks)];
    ghost var none := ptrs;
    NoOverlap(a, ptrs, sizes);
    TraceStarts(rounds, Slots(ptrs, sizes, a.blocks), a.minOrder, a.maxOrder);
    for r := 0 to |rounds|
      invariant a.Valid() && Owned(Live(a.blocks), ptrs, sizes)
      invariant |trace| == r + 1 && TraceOk(rounds[..r], trace, a.minOrder, a.maxOrder)
      invariant trace[r] == Slots(ptrs, sizes, a.blocks) && trace[0].ptrs == none
    {
      ptrs, sizes := OneRound(a, rounds[r], ptrs, sizes);
      NoOverlap(a, ptrs, sizes);
      TraceGrows(rounds, r, trace, Slots(ptrs, sizes, a.blocks), a.minOrder, a.maxOrder);
      trace := trace + [Slots(ptrs, sizes, a.blocks)];
    }
    assert rounds[..|rounds|] == rounds;
    FreeAll(a, ptrs, sizes);
    EndsAsRoot(a);
  }

  lemma EndsAsRoot(a: Buddy)
    requires a.Valid() && Live(a.blocks) == map[]
    ensures a.blocks == Root(a.maxOrder)
    ensures var top := a.maxOrder - a.minOrder;
      && a.freeLists[top] == 0 && a.mem[0].next == NULL
      && forall i :: 0 <= i < MAX_ORDERS && i != top ==> a.freeLists[i] == NULL
  {
    NothingLiveIsRoot(a.blocks, a.minOrder, a.maxOrder);
    RootFacts(a);
  }

  lemma NothingOwned(live: map<nat, nat>, ptrs: seq<int>, sizes: seq<nat>)
    requires live == map[] && |ptrs| == |sizes| == NUM_PTRS && forall i :: 0 <= i < NUM_PTRS ==> ptrs[i] == NULL
    ensures Owned(live, ptrs, sizes)
  {
  }

  lemma NoOverlap(a: Buddy, ptrs: seq<int>, sizes: seq<nat>)
    requires a.Valid() && Owned(Live(a.blocks), ptrs, sizes)
    ensures NoneOverlap(Slots(ptrs, sizes, a.blocks))
  {
    hide Good, AllLists;
    TilesOf(a);
    forall i, j | 0 <= i < NUM_PTRS && 0 <= j < NUM_PTRS && i != j && ptrs[i] != NULL && ptrs[j] != NULL
      ensures !RangesOverlap(ptrs[i], sizes[i], ptrs[j], sizes[j])
    {
      LiveApart(a.blocks, a.minOrder, a.maxOrder, ptrs[i], sizes[i], ptrs[j], sizes[j]);
    }
  }

  lemma TilesOf(a: Buddy)
    requires a.Valid()
    ensures Tiles(a.blocks, a.minOrder, a.maxOrder)
  {
  }

  /** What the root block's state looks like in the lists. */
  lemma RootFacts(a: Buddy)
    requires a.Valid() && a.blocks == Root(a.maxOrder)
    ensures Live(a.blocks) == map[]
    ensures var top := a.maxOrder - a.minOrder;
      && a.freeLists[top] == 0 && a.mem[0].next == NULL
      && forall i :: 0 <= i < MAX_ORDERS && i != top ==> a.freeLists[i] == NULL
  {
    var top := a.maxOrder - a.minOrder;
    RootListed(a.mem, a.lists, a.minOrder, a.maxOrder);
    forall i | 0 <= i < MAX_ORDERS ensures a.lists[i] == if i == top then [0] else [] {
      OnlyZero(a.mem, a.freeLists[i], a.lists[i], i == top);
    }
    assert IsList(a.mem, a.freeLists[top], a.lists[top]);
    assert LinkOk(a.mem, a.lists[top], 0);
  }

  lemma RootListed(m: Memory, lists: seq<seq<nat>>, lo: nat, hi: nat)
    requires Good(Root(hi), m, lists, lo, hi, NULL)
    ensures forall i, o :: 0 <= i < MAX_ORDERS ==> (o in lists[i] <==> o == 0 && i == hi - lo)
  {
    assert Root(hi)[0] == Block(hi, true);
    forall i, o | 0 <= i < MAX_ORDERS ensures o in lists[i] <==> o == 0 && i == hi - lo {
      assert o in lists[i] <==> o in Root(hi) && Root(hi)[o] == Block(lo + i, true) && o != NULL;
    }
  }

  lemma Distinct(m: Memory, head: int, l: seq<nat>)
    requires IsList(m, head, l) && |l| > 1
    ensures l[0] != l[1]
  {
  }

  lemma OnlyZero(m: Memory, head: int, l: seq<nat>, listed: bool)
    requires IsList(m, head, l) && forall o :: o in l <==> o == 0 && listed
    ensures l == if listed then [0] else []
  {
    assert forall j :: 0 <= j < |l| ==> l[j] in l;
    if |l| > 1 { Distinct(m, head, l); }
    if listed { assert 0 in l; }
  }
}
