/** The buffer pool manager: its methods against the contents, the pins, the recency order and the free chain. */
module BufferPool {
  import opened Paging
  import opened PageChain
  import opened Lists
  import opened Sums
  import opened Wrappers

  class BufferPoolManager {
    var pages: seq<Frame>
    var freeFrames: seq<nat>
    var table: map<int, nat>
    var lru: seq<nat>              // the front is the most recently fetched
    var disk: map<int, Bytes>
    var pwrites: nat

    ghost var clock: nat           // number of successful fetches
    ghost var fetchedAt: map<int, nat>
    ghost var chain: seq<int>      // the freed pages, last freed first
    ghost var reported: set<int>   // the pages that an unpin reported dirty since they were last written to the file

    ghost function State(): Pool
      reads this
    {
      Pool(pages, freeFrames, table, lru, disk)
    }

    ghost predicate Coherent()
      reads this
    {
      Ok(State(), -1) && Stamped(State(), fetchedAt, clock) && reported == DirtyPages(State())
    }

    ghost predicate Valid()
      reads this
    {
      Coherent() && ChainOk(State(), chain)
    }

    /** Opens a file: an empty one gets a header, another must carry an intact chain. */
    constructor (disk: map<int, Bytes>, capacity: nat, ghost chain: seq<int>)
      requires capacity >= 1 && (if disk == map[] then chain == [] else FileOk(disk, chain))
      ensures Valid() && this.chain == chain && |pages| == capacity && Pinned(State()) == {}
      ensures disk == map[] ==>
        Allocated(State(), chain) == {} && forall i :: 0 <= i < PAGE_SIZE ==> Content(State(), 0)[i] == HeaderByte(i)
      ensures reported == {}
      ensures forall id {:trigger Content(State(), id)} :: disk != map[] || id != 0 ==>
        Content(State(), id) == OnDisk(disk, id)
    {
      pages := seq(capacity, _ => Frame(-1, ZeroPage(), 0, false));
      freeFrames := seq(capacity, i => i);
      table, lru, this.disk, pwrites := map[], [], disk, 0;
      clock, fetchedAt, this.chain, reported := 0, map[], chain, {};
      new;
      EmptyPool(State());
      if disk == map[] {
        InitHeader();
      } else {
        ChainSurvives(Pool([], [], map[], [], disk), State(), chain);
      }
    }

    /** The header of a new file. */
    method InitHeader()
      requires Coherent() && |pages| >= 1 && table == map[] && disk == map[] && chain == [] && reported == {}
      modifies this
      ensures Valid() && chain == [] && |pages| == old(|pages|) && Pinned(State()) == {}
        && Allocated(State(), chain) == {} && reported == {}
      ensures forall i :: 0 <= i < PAGE_SIZE ==> Content(State(), 0)[i] == HeaderByte(i)
      ensures forall id {:trigger Content(State(), id)} :: id != 0 ==> Content(State(), id) == ZeroPage()
    {
      hide DirtyPages, EvictedFor, Ok, Content, Stamped, Fetched, NoFrameFor, ChainOk, PinStep, SameContent,
        SameElsewhere, Flushed, Pinned;
      ghost var s0 := State();
      NothingCached(s0);
      RoomToFetch(s0, 0);
      var hdr := FetchPage(0);
      ghost var s1 := State();
      PinHeld(s0, s1, s1, 0);
      Write(0, PutI32(PutU32(PutU32(pages[hdr.value].data, 0, PAGE_SIZE), 4, 1), 8, -1));
      ghost var s2 := State();
      PinHeld(s0, s1, s2, 0);
      UnpinPage(0, true);
      ghost var s3 := State();
      FlushPage(0);
      HeaderWritten(s0, s1, s2, s3, State());
      FreshHeader(State());
      HeaderBytes();
    }

    /** The scan from the back of the recency list. */
    method FindVictim() returns (i: int)
      requires Ok(State(), -1)
      ensures i == VictimOf(State())
    {
      Listed(State(), -1);
      i := |lru| - 1;
      while i >= 0 && pages[lru[i]].pin > 0
        invariant -1 <= i < |lru| && forall j :: i < j < |lru| ==> pages[lru[j]].pin > 0
      {
        i := i - 1;
      }
    }

    /** `FlushPage`: a dirty cached page is written to the file; no content changes. */
    method FlushPage(id: int)
      requires Coherent()
      modifies this
      ensures Coherent() && SameContent(old(State()), State()) && |pages| == old(|pages|)
      ensures State() == if id in old(table) && old(table[id]) < |old(pages)| then
        Flushed(old(State()), old(table[id])) else old(State())
      ensures pwrites == old(pwrites) + if id in old(table) && old(table[id]) < |old(pages)|
        && old(pages[table[id]]).dirty then 1 else 0
      ensures clock == old(clock) && fetchedAt == old(fetchedAt) && chain == old(chain)
        && reported == old(reported) - {id}
    {
      hide Ok, Content, Stamped, DirtyPages;
      ghost var s := State();
      FlushStep(s, Flushing(s, id), id);
      if id !in table {
        OnlyCachedDirty(s, id);
        return;
      }
      UsedFrame(s, -1, id);
      FlushKeeps(s, -1, table[id]);
      var f := table[id];
      if pages[f].dirty {
        disk := disk[id := pages[f].data];
        pwrites := pwrites + 1;
        pages := pages[f := pages[f].(dirty := false)];
        SameStamps(s, State(), fetchedAt, clock);
      }
      reported := reported - {id};
    }

    /** The victim at position i of the list is flushed and gives up its frame. */
    method Evict(i: nat)
      requires Coherent() && i == VictimOf(State())
      modifies this
      ensures State() == Evicted(old(State()), i)
      ensures pwrites == old(pwrites) + if old(pages[lru[i]].dirty) then 1 else 0
      ensures clock == old(clock) && fetchedAt == old(fetchedAt) && chain == old(chain)
      ensures reported == old(reported) - {old(pages[lru[i]].pageId)}
    {
      hide Ok, Content, Stamped, DirtyPages;
      VictimFacts(State());
      var f := lru[i];
      FlushPage(pages[f].pageId);
      table := table - {pages[f].pageId};
      lru := RemoveAt(lru, i);
    }

    /** Reading the page into frame f. */
    method Load(f: nat, id: int)
      requires f < |pages|
      modifies this`pages, this`table, this`lru
      ensures State() == Loaded(old(State()), f, id)
    {
      pages := pages[f := Frame(id, OnDisk(disk, id), 1, false)];
      table := table[id := f];
      lru := [f] + lru;
    }

    /** Brings a page into the cache and pins it: a hit, a free frame, or the victim's frame. */
    method Bring(id: int) returns (f: int)
      requires Coherent() && 0 <= id
      modifies this
      ensures State() == Fetched(old(State()), id)
      ensures if f < 0 then NoFrameFor(old(State()), id) && State() == old(State()) else id in table && table[id] == f
      ensures clock == old(clock) && fetchedAt == old(fetchedAt) && chain == old(chain)
      ensures reported == old(reported) - old(EvictedFor(State(), id))
      ensures pwrites == old(pwrites) + |old(EvictedFor(State(), id) * reported)|
    {
      hide Ok, Content, Stamped, Used, DirtyPages;
      ghost var s := State();
      if id in table {
        UsedFrame(s, -1, id);
        f := table[id];
        pages := pages[f := pages[f].(pin := pages[f].pin + 1)];
        lru := [f] + RemoveAt<nat>(lru, Position<nat>(lru, f));
      } else if freeFrames != [] {
        FreeFrame(s, -1, freeFrames[0]);
        f := freeFrames[0];
        freeFrames := freeFrames[1..];
        Load(f, id);
      } else {
        VictimFacts(s);
        var i := FindVictim();
        if i < 0 { return -1; }
        f := lru[i];
        DirtyVictim(s, id, i, reported);
        Evict(i);
        Load(f, id);
      }
    }

    /** `FetchPage`: the frame holding the page's current content, pinned; it fails exactly when the page is not
        cached, no frame is free and every cached page is pinned. Nothing is written, unless the page evicted for it
        was reported dirty since it was last written. */
    method FetchPage(id: int) returns (r: Option<nat>)
      requires Coherent() && 0 <= id
      modifies this
      ensures Coherent() && State() == Fetched(old(State()), id) && SameContent(old(State()), State())
      ensures |pages| == old(|pages|) && chain == old(chain)
      ensures r == None <==> NoFrameFor(old(State()), id)
      ensures r == None ==> clock == old(clock) && fetchedAt == old(fetchedAt)
      ensures reported == old(reported) - old(EvictedFor(State(), id))
      ensures pwrites == old(pwrites) + |old(EvictedFor(State(), id) * reported)|
      ensures old(EvictedFor(State(), id) !! reported) ==> disk == old(disk)
      ensures r != None ==>
        && id in table && r == Some(table[id]) && r.value < |pages| && pages[r.value].pageId == id
        && pages[r.value].data == Content(old(State()), id)
        && PinStep(old(State()), State(), id, 1) && Stays(old(State()), State())
        && pages[r.value].dirty == (id in old(reported))
        && clock == old(clock) + 1 && fetchedAt == old(fetchedAt)[id := old(clock)]
    {
      hide Ok, Content, Stamped, PinStep, Stays, NoFrameFor, PinOf, Fetched, SameContent, DirtyPages, EvictedFor;
      ghost var s := State();
      FetchKeeps(s, id);
      FetchDisk(s, id);
      NoEviction(s, id);
      var f := Bring(id);
      if f < 0 { return None; }
      FetchStamps(s, id, fetchedAt, clock);
      FetchPins(s, id);
      FetchPinStep(s, id);
      FetchDirty(s, id);
      IsDirtyPage(s, id);
      clock, fetchedAt := clock + 1, fetchedAt[id := clock];
      return Some(f);
    }

    /** The page, if cached, stays pinned, is or becomes dirty, or agrees with the file. */
    ghost predicate MayUnpin(id: int, isDirty: bool)
      reads this
    {
      id in table && table[id] < |pages| ==>
        isDirty || pages[table[id]].dirty || pages[table[id]].pin > 1 || pages[table[id]].data == OnDisk(disk, id)
    }

    /** `UnpinPage`: one pin less, and the dirty bit if asked for. The pool stays coherent if and only if the last
        holder of a page that differs from the file says that it is dirty. */
    method UnpinPage(id: int, isDirty: bool)
      requires Coherent()
      modifies this`pages, this`reported
      ensures Coherent() <==> old(MayUnpin(id, isDirty))
      ensures reported == if id in table && isDirty then old(reported) + {id} else old(reported)
      ensures SameContent(old(State()), State()) && |pages| == old(|pages|)
      ensures PinStep(old(State()), State(), id, if PinOf(old(State()), id) > 0 then -1 else 0)
        && Stays(old(State()), State())
      ensures pages == if id in table && table[id] < |old(pages)| then
        var p := old(pages)[table[id]];
        old(pages)[table[id] := p.(dirty := p.dirty || isDirty, pin := if p.pin > 0 then p.pin - 1 else 0)]
      else old(pages)
    {
      hide Ok, Content, Stamped, DirtyPages;
      ghost var s := State();
      if id !in table { return; }
      UsedFrame(s, -1, id);
      UsedIsWritten(s, table[id]);
      IsDirtyPage(s, id);
      var f := table[id];
      if isDirty { pages := pages[f := pages[f].(dirty := true)]; }
      if pages[f].pin > 0 { pages := pages[f := pages[f].(pin := pages[f].pin - 1)]; }
      if isDirty { reported := reported + {id}; }
      FrameEffects(s, State(), id);
      if pages[f].pin == 0 && !pages[f].dirty && pages[f].data != OnDisk(disk, id) {
        FrameLost(s, State(), id);
      } else {
        FrameStep(s, State(), id);
      }
      SameStamps(s, State(), fetchedAt, clock);
    }

    /** A client writes through the pointer to a page that it holds pinned. */
    method Write(id: int, data: Bytes)
      requires Coherent() && PinOf(State(), id) > 0
      modifies this`pages
      ensures Coherent() && Content(State(), id) == data && SameElsewhere(old(State()), State(), id)
      ensures PinStep(old(State()), State(), id, 0) && Stays(old(State()), State()) && |pages| == old(|pages|)
      ensures id in table && table[id] < |pages|
        && pages == old(pages)[table[id] := old(pages)[table[id]].(data := data)]
      ensures old(Valid()) && id != 0 && id !in chain ==> Valid()
    {
      hide Ok, Content, Stamped, DirtyPages;
      ghost var s := State();
      UsedFrame(s, -1, id);
      IsDirtyPage(s, id);
      pages := pages[table[id] := pages[table[id]].(data := data)];
      FrameEffects(s, State(), id);
      FrameStep(s, State(), id);
      SameStamps(s, State(), fetchedAt, clock);
      if ChainOk(s, chain) && id != 0 && id !in chain { ChainIgnores(s, State(), chain, id); }
    }

    /** The branch of `AllocPage` that takes the first page off the chain, with the header pinned. */
    method TakeFreed(hdr: nat) returns (newId: int)
      requires Coherent() && ChainOk(State(), chain) && chain != []
      requires PinOf(State(), 0) > 0 && hdr == table[0] && |Pinned(State()) + {chain[0]}| <= |pages|
      modifies this
      ensures Coherent() && |pages| == old(|pages|) && SameElsewhere(old(State()), State(), 0)
      ensures chain == old(chain) && newId == chain[0]
        && Content(State(), 0) == PutI32(old(Content(State(), 0)), 8, old(NextFree(State(), chain[0])))
      ensures PinStep(old(State()), State(), 0, 0) && Stays(old(State()), State())
      ensures reported <= old(reported)
    {
      hide DirtyPages, EvictedFor, Ok, Content, Stamped, Fetched, NoFrameFor, ChainOk, PinStep, Stays, SameContent,
        SameElsewhere;
      ghost var s0 := State();
      HeadOfChain(s0, chain);
      ContentOfPinned(s0, 0);
      newId := GetI32(pages[hdr].data, 8);
      RoomToFetch(s0, newId);
      FetchClean(s0, newId);
      var freePage := FetchPage(newId);
      ghost var s1 := State();
      StillPinned(s0, s1, newId, 0);
      ContentOfPinned(s1, 0);
      var next := GetI32(pages[freePage.value].data, 0);
      SameAt(s0, s1, 0);
      Write(0, PutI32(pages[hdr].data, 8, next));
      ghost var s2 := State();
      StillClean(s0, s1, s2, newId);
      UnpinPage(newId, false);
      PinSandwich(s0, s1, s2, State(), newId);
      ContentSandwich(s0, s1, s2, State());
    }

    /** The branch of `AllocPage` that adds a page to the file, with the header pinned. */
    method TakeNew(hdr: nat) returns (newId: int)
      requires Coherent() && PinOf(State(), 0) > 0 && hdr == table[0] && Total(State()) < TWO_31
      modifies this
      ensures Coherent() && |pages| == old(|pages|) && SameElsewhere(old(State()), State(), 0)
      ensures newId == old(Total(State())) && Content(State(), 0) == PutU32(old(Content(State(), 0)), 4, newId + 1)
      ensures PinStep(old(State()), State(), 0, 0) && Stays(old(State()), State()) && chain == old(chain)
      ensures reported == old(reported)
    {
      hide DirtyPages, EvictedFor, Ok, Content, Stamped, PinStep, SameElsewhere;
      ContentOfPinned(State(), 0);
      newId := GetU32(pages[hdr].data, 4);
      Write(0, PutU32(pages[hdr].data, 4, newId + 1));
    }

    /** `AllocPage`: the page freed last, or else a page at the end of the file; never one that is still allocated. */
    method AllocPage() returns (newId: int)
      requires Valid() && (chain == [] ==> Total(State()) < TWO_31)
      requires |Pinned(State()) + {0} + {if chain == [] then 0 else chain[0]}| <= |pages|
      modifies this
      ensures Valid() && |pages| == old(|pages|) && SameElsewhere(old(State()), State(), 0)
      ensures newId == (if old(chain) == [] then old(Total(State())) else old(chain)[0])
      ensures chain == if old(chain) == [] then [] else old(chain)[1..]
      ensures newId !in old(Allocated(State(), chain))
        && Allocated(State(), chain) == old(Allocated(State(), chain)) + {newId}
      ensures PinStep(old(State()), State(), 0, 0) && Stays(old(State()), State())
      ensures reported <= old(reported) + {0}
    {
      hide DirtyPages, EvictedFor, Ok, Content, Stamped, Fetched, NoFrameFor, ChainOk, PinStep, Stays, SameContent,
        SameElsewhere,
        Allocated, Pinned, PinOf, NextFree;
      ghost var s0 := State();
      HeadOfChain(s0, chain);
      SmallerSet(Pinned(s0) + {0}, Pinned(s0) + {0} + {if chain == [] then 0 else chain[0]});
      RoomToFetch(s0, 0);
      var hdr := FetchPage(0);
      ghost var s1 := State();
      ChainSurvives(s0, s1, chain);
      SameAt(s0, s1, 0);
      PinHeld(s0, s1, s1, 0);
      ContentOfPinned(s1, 0);
      if GetI32(pages[hdr.value].data, 8) != -1 {
        FetchPinned(s0, 0);
        newId := TakeFreed(hdr.value);
        PopChain(s1, State(), chain);
        chain := chain[1..];
      } else {
        newId := TakeNew(hdr.value);
        GrowFile(s1, State(), chain);
      }
      ghost var s2 := State();
      UnpinPage(0, true);
      ChainSurvives(s2, State(), chain);
      PinSandwich(s0, s1, s2, State(), 0);
      ContentSandwich(s0, s1, s2, State());
    }


    /** The page becomes a zero page that links to the old head, and the head: with the header pinned. */
    method Thread(hdr: nat, id: int)
      requires Coherent() && 0 < id < TWO_31 && PinOf(State(), 0) > 0 && hdr == table[0]
        && |Pinned(State()) + {id}| <= |pages|
      modifies this
      ensures Coherent() && |pages| == old(|pages|) && chain == old(chain)
      ensures forall k {:trigger Content(State(), k)} :: k != 0 && k != id ==>
        Content(State(), k) == old(Content(State(), k))
      ensures Content(State(), id) == PutI32(ZeroPage(), 0, old(Head(State())))
      ensures Content(State(), 0) == PutI32(old(Content(State(), 0)), 8, id)
      ensures PinStep(old(State()), State(), 0, 0) && Stays(old(State()), State())
      ensures reported <= old(reported) + {id}
    {
      hide DirtyPages, EvictedFor, Ok, Content, Stamped, Fetched, NoFrameFor, PinStep, Stays, SameContent,
        SameElsewhere;
      ghost var s0 := State();
      ContentOfPinned(s0, 0);
      RoomToFetch(s0, id);
      var target := FetchPage(id);
      ghost var s1 := State();
      StillPinned(s0, s1, id, 0);
      ContentOfPinned(s1, 0);
      SameAt(s0, s1, 0);
      PinHeld(s0, s1, s1, id);
      Write(id, PutI32(ZeroPage(), 0, GetI32(pages[hdr].data, 8)));
      ghost var s2 := State();
      PinSame(s1, s2, id, 0);
      ContentOfPinned(s2, 0);
      ElsewhereAt(s1, s2, id, 0);
      Write(0, PutI32(pages[hdr].data, 8, id));
      ghost var s3 := State();
      PinTwice(s1, s2, s3, id, 0);
      ElsewhereAt(s2, s3, 0, id);
      UnpinPage(id, true);
      PinSandwich(s0, s1, s3, State(), id);
      SameTwice(s0, s1, s2, s3, State(), id);
    }

    /** `FreePage`: the page becomes the first of the chain; the header page cannot be freed. */
    method FreePage(id: int)
      requires Valid() && (id > 0 ==> id in Allocated(State(), chain) && |Pinned(State()) + {0, id}| <= |pages|)
      modifies this
      ensures Valid() && |pages| == old(|pages|) && PinStep(old(State()), State(), 0, 0) && Stays(old(State()), State())
      ensures chain == if id > 0 then [id] + old(chain) else old(chain)
      ensures Allocated(State(), chain) == old(Allocated(State(), chain)) - {id}
        && Total(State()) == old(Total(State()))
      ensures forall k {:trigger Content(State(), k)} :: id <= 0 || (k != 0 && k != id) ==>
        Content(State(), k) == old(Content(State(), k))
      ensures id > 0 ==> forall i :: 4 <= i < PAGE_SIZE ==> Content(State(), id)[i] == 0
      ensures reported <= old(reported) + {0, id}
    {
      hide DirtyPages, EvictedFor, Ok, Content, Stamped, Fetched, NoFrameFor, ChainOk, PinStep, Stays, SameContent,
        Total, Allocated,
        Pinned, Head, PutI32, GetI32, ZeroPage, Link, PinOf;
      ghost var s0 := State();
      if id <= 0 {
        NoPinStep(s0);
        IdsInFile(s0, chain, id);
        return;
      }
      IdsInFile(s0, chain, id);
      RoomForTwo(s0, id);
      var hdr := FetchPage(0);
      ghost var s1 := State();
      ChainSurvives(s0, s1, chain);
      PinHeld(s0, s1, s1, 0);
      FetchPinned(s0, 0);
      Thread(hdr.value, id);
      ghost var s2 := State();
      PushChain(s1, s2, chain, id);
      chain := [id] + chain;
      UnpinPage(0, true);
      ChainSurvives(s2, State(), chain);
      PinSandwich(s0, s1, s2, State(), 0);
      SameOutside(s0, s1, s2, State(), id);
      FreedBytes(s1, s2, State(), id);
    }

    /** `FlushAllPages`, which the destructor runs: the file then holds the content of every page that nobody has
        pinned, at the price of one write per dirty page. */
    method FlushAllPages()
      requires Coherent()
      modifies this
      ensures Coherent() && SameContent(old(State()), State()) && chain == old(chain)
      ensures forall id {:trigger OnDisk(disk, id)} :: PinOf(State(), id) == 0 ==>
        OnDisk(disk, id) == Content(State(), id)
      ensures PinStep(old(State()), State(), 0, 0) && Stays(old(State()), State())
      ensures pwrites == old(pwrites) + |old(reported)| && reported == {}
      ensures old(Valid()) && (forall q :: PinOf(State(), q) == 0) ==> FileOk(disk, chain)
    {
      hide DirtyPages, EvictedFor, Ok, Stamped, Content, SameContent, PinStep, Stays;
      ghost var s0 := State();
      var todo := table.Keys;
      NoPinStep(s0);
      DirtyAreCached(s0);
      while exists q :: q in todo
        invariant Coherent() && SameContent(s0, State()) && chain == old(chain)
        invariant PinStep(s0, State(), 0, 0) && Stays(s0, State())
        invariant DirtyPages(State()) <= todo && pwrites + |DirtyPages(State())| == old(pwrites) + |DirtyPages(s0)|
        decreases |todo|
      {
        var id := SomePage(todo);
        ghost var s1 := State();
        FlushPage(id);
        FlushStep(s1, State(), id);
        PinAndContentTrans(s0, s1, State());
        todo := todo - {id};
      }
      assert DirtyPages(State()) == {};
      AllOnDisk(State());
      if ChainOk(s0, chain) && forall q :: PinOf(State(), q) == 0 {
        FileKeepsChain(s0, State(), chain);
      }
    }

    /** Reading pages without changing them: each page that was reported dirty before is written at most once, when it
        is evicted, and no page that was read is ever written. */
    method ReadAll(ids: seq<int>)
      requires Coherent() && |pages| >= 1 && (forall q :: PinOf(State(), q) == 0)
        && forall i :: 0 <= i < |ids| ==> ids[i] >= 0
      modifies this
      ensures Coherent() && SameContent(old(State()), State()) && forall q :: PinOf(State(), q) == 0
      ensures reported <= old(reported) && pwrites + |reported| == old(pwrites) + |old(reported)|
    {
      hide Ok, Stamped, Content, SameContent, Fetched, NoFrameFor, DirtyPages, EvictedFor, PinOf;
      ghost var s0 := State();
      NoPinStep(s0);
      for i := 0 to |ids|
        invariant Coherent() && |pages| >= 1 && SameContent(s0, State()) && forall q :: PinOf(State(), q) == 0
        invariant reported <= old(reported) && pwrites + |reported| == old(pwrites) + |old(reported)|
      {
        ghost var s1, before := State(), reported;
        NothingPinned(s1, ids[i]);
        FetchClean(s1, ids[i]);
        var page := FetchPage(ids[i]);
        ghost var s2 := State();
        MayUnpinFetched(s1, s2, ids[i]);
        UnpinPage(ids[i], false);
        PinsBack(s1, s2, State(), ids[i]);
        SameThrice(s0, s1, s2, State());
        Shares(before, EvictedFor(s1, ids[i]));
      }
    }

    /** A page that is freed is the next one handed out. */
    method ReuseTest(id: int) returns (again: int)
      requires Valid() && id in Allocated(State(), chain) && |Pinned(State()) + {0, id}| <= |pages|
      modifies this
      ensures Valid() && again == id && chain == old(chain)
        && Allocated(State(), chain) == old(Allocated(State(), chain))
    {
      hide DirtyPages, EvictedFor, Ok, Stamped, Content, SameContent, SameElsewhere, PinStep, Stays, ChainOk, Total,
        Allocated, Pinned;
      ghost var s0 := State();
      IdsInFile(s0, chain, id);
      FreePage(id);
      SamePinned(s0, State());
      assert Pinned(s0) + {0} + {id} == Pinned(s0) + {0, id};
      assert chain[1..] == old(chain);
      again := AllocPage();
    }
  }

  /** A pool with no page cached represents the file. */
  lemma EmptyPool(s: Pool)
    requires s.table == map[] && s.lru == [] && s.freeFrames == seq(|s.pages|, i => i)
    ensures Ok(s, -1) && Pinned(s) == {} && forall id :: Content(s, id) == OnDisk(s.disk, id)
  {
    forall f: nat ensures InFree(s, f) <==> f < |s.pages| {
      if f < |s.pages| { assert s.freeFrames[f] == f; }
    }
  }

  lemma NothingCached(s: Pool)
    requires s.table == map[] && s.disk == map[]
    ensures Pinned(s) == {} && Pinned(s) + {0} == {0} && Content(s, 0) == ZeroPage()
  {
  }

  /** What the header's first fetch, write, unpin and flush amount to. */
  lemma HeaderWritten(s0: Pool, s1: Pool, s2: Pool, s3: Pool, s4: Pool)
    requires s0.table == map[] && s0.disk == map[]
    requires SameContent(s0, s1) && SameElsewhere(s1, s2, 0) && SameContent(s2, s3) && SameContent(s3, s4)
    requires PinStep(s0, s1, 0, 1) && PinStep(s1, s2, 0, 0) && PinStep(s2, s3, 0, if PinOf(s2, 0) > 0 then -1 else 0)
    requires s4 == if 0 in s3.table && s3.table[0] < |s3.pages| then Flushed(s3, s3.table[0]) else s3
    ensures Content(s4, 0) == Content(s2, 0) && Pinned(s4) == {}
      && forall id :: id != 0 ==> Content(s4, id) == ZeroPage()
  {
    FlushPins(s3, s4, 0);
    forall q ensures PinOf(s4, q) == 0 {
      assert PinOf(s0, q) == 0 && PinOf(s1, 0) == 1 && PinOf(s2, 0) == 1;
      assert PinOf(s1, q) == PinOf(s2, q) == if q == 0 then 1 else 0;
      assert PinOf(s4, q) == PinOf(s3, q);
    }
    forall q ensures q !in Pinned(s4) { assert PinOf(s4, q) == 0; }
    forall q ensures Content(s4, q) == if q == 0 then Content(s2, 0) else ZeroPage() {
      assert Content(s4, q) == Content(s3, q) == Content(s2, q) && Content(s1, q) == Content(s0, q);
    }
  }

  /** A change of one frame, in terms of the page. */
  lemma FrameEffects(s: Pool, s': Pool, id: int)
    requires Ok(s, -1) && id in s.table && Cached(s, id) && Used(s, s.table[id])
    requires |s'.pages| == |s.pages| && s' == WithFrame(s, s.table[id], s'.pages[s.table[id]])
      && s'.pages[s.table[id]].pageId == id
    ensures Content(s', id) == s'.pages[s.table[id]].data && SameElsewhere(s, s', id)
    ensures s'.pages[s.table[id]].data == s.pages[s.table[id]].data ==> SameContent(s, s')
    ensures PinStep(s, s', id, s'.pages[s.table[id]].pin - s.pages[s.table[id]].pin)
    ensures DirtyPages(s') == if s'.pages[s.table[id]].dirty then DirtyPages(s) + {id} else DirtyPages(s) - {id}
  {
    forall q | q != id ensures PinOf(s', q) == PinOf(s, q) && Content(s', q) == Content(s, q) {
      if q in s.table { UsedFrame(s, -1, q); }
    }
    FrameDirty(s, s', id);
  }

  lemma FrameDirty(s: Pool, s': Pool, id: int)
    requires Ok(s, -1) && id in s.table && Cached(s, id) && Used(s, s.table[id])
    requires |s'.pages| == |s.pages| && s' == WithFrame(s, s.table[id], s'.pages[s.table[id]])
    ensures DirtyPages(s') == if s'.pages[s.table[id]].dirty then DirtyPages(s) + {id} else DirtyPages(s) - {id}
  {
    forall q | q != id ensures q in DirtyPages(s') <==> q in DirtyPages(s) {
      if q in s.table { UsedFrame(s, -1, q); }
    }
    IsDirtyPage(s', id);
  }

  lemma NothingPinned(s: Pool, id: int)
    requires Ok(s, -1) && 0 <= id && |s.pages| >= 1 && forall q :: PinOf(s, q) == 0
    ensures !NoFrameFor(s, id)
  {
    forall q ensures q !in Pinned(s) { if q in s.table { assert PinOf(s, q) == 0; } }
    assert Pinned(s) + {id} == {id};
    RoomToFetch(s, id);
  }

  lemma MayUnpinFetched(s: Pool, s': Pool, id: int)
    requires PinOf(s, id) > 0
      || (Cached(s', id) && (s'.pages[s'.table[id]].dirty || s'.pages[s'.table[id]].data == OnDisk(s'.disk, id)))
    requires PinOf(s, id) == 0
    ensures id in s'.table && s'.table[id] < |s'.pages| ==>
      s'.pages[s'.table[id]].dirty || s'.pages[s'.table[id]].data == OnDisk(s'.disk, id)
  {
  }

  lemma PinsBack(s: Pool, s': Pool, s'': Pool, id: int)
    requires PinStep(s, s', id, 1) && PinStep(s', s'', id, if PinOf(s', id) > 0 then -1 else 0)
    requires forall q :: PinOf(s, q) == 0
    ensures forall q :: PinOf(s'', q) == 0
  {
    assert PinOf(s', id) == PinOf(s, id) + 1;
    forall q ensures PinOf(s'', q) == 0 { assert PinOf(s', q) == if q == id then 1 else 0; }
  }

  lemma SameThrice(s0: Pool, s1: Pool, s2: Pool, s3: Pool)
    requires SameContent(s0, s1) && SameContent(s1, s2) && SameContent(s2, s3)
    ensures SameContent(s0, s3)
  {
    forall k ensures Content(s3, k) == Content(s0, k) {
      assert Content(s2, k) == Content(s1, k) && Content(s1, k) == Content(s0, k);
    }
  }

  lemma Shares(a: set<int>, b: set<int>)
    ensures |a| == |a - b| + |b * a|
  {
    assert a == (a - b) + (b * a);
  }

  lemma RoomForTwo(s: Pool, id: int)
    requires Ok(s, -1) && |Pinned(s) + {0, id}| <= |s.pages|
    ensures !NoFrameFor(s, 0) && |Pinned(s) + {0} + {id}| <= |s.pages|
  {
    assert Pinned(s) + {0} + {id} == Pinned(s) + {0, id};
    SmallerSet(Pinned(s) + {0}, Pinned(s) + {0, id});
    RoomToFetch(s, 0);
  }

  /** A freed page is zero but for its link. */
  lemma FreedBytes(s0: Pool, s: Pool, s': Pool, id: int)
    requires SameContent(s, s') && Content(s, id) == PutI32(ZeroPage(), 0, Head(s0))
    ensures forall i :: 4 <= i < PAGE_SIZE ==> Content(s', id)[i] == 0
  {
    assert Content(s', id) == Content(s, id);
  }

  lemma IsDirtyPage(s: Pool, id: int)
    ensures id in DirtyPages(s) <==> id in s.table && s.table[id] < |s.pages| && s.pages[s.table[id]].dirty
    ensures id in DirtyPages(s) ==> DirtyPages(s) + {id} == DirtyPages(s)
    ensures id !in DirtyPages(s) ==> DirtyPages(s) - {id} == DirtyPages(s)
  {
  }

  lemma DirtyAreCached(s: Pool)
    ensures DirtyPages(s) <= s.table.Keys
  {
  }

  lemma OnlyCachedDirty(s: Pool, id: int)
    requires id !in s.table
    ensures DirtyPages(s) - {id} == DirtyPages(s)
  {
  }

  /** Whether the eviction of the victim writes. */
  lemma DirtyVictim(s: Pool, id: int, i: int, reported: set<int>)
    requires Ok(s, -1) && id !in s.table && s.freeFrames == [] && i == VictimOf(s) >= 0 && reported == DirtyPages(s)
    ensures EvictedFor(s, id) == {s.pages[s.lru[i]].pageId}
    ensures |EvictedFor(s, id) * reported| == if s.pages[s.lru[i]].dirty then 1 else 0
  {
    VictimFacts(s);
    var page := s.pages[s.lru[i]].pageId;
    UsedFrame(s, -1, page);
    assert EvictedFor(s, id) * reported == if s.pages[s.lru[i]].dirty then {page} else {};
  }

  /** A fetch that fails evicts nothing. */
  lemma NoEviction(s: Pool, id: int)
    requires Ok(s, -1)
    ensures NoFrameFor(s, id) ==> EvictedFor(s, id) == {}
  {
    hide Ok;
    VictimFacts(s);
  }

  ghost function Flushing(s: Pool, id: int): Pool {
    if id in s.table && s.table[id] < |s.pages| then Flushed(s, s.table[id]) else s
  }

  lemma FrameStep(s: Pool, s': Pool, id: int)
    requires Ok(s, -1) && id in s.table && Cached(s, id) && Used(s, s.table[id])
    requires |s'.pages| == |s.pages| && s' == WithFrame(s, s.table[id], s'.pages[s.table[id]])
    requires var p := s'.pages[s.table[id]]; p.pageId == id && (p.pin == 0 && !p.dirty ==> p.data == OnDisk(s.disk, id))
    ensures Ok(s', -1)
  {
    assert s' == WithFrame(s, s.table[id], s'.pages[s.table[id]]).(disk := s.disk);
    ChangeFrame(s, -1, s.table[id], s'.pages[s.table[id]], s.disk);
  }

  /** An unpinned clean page that differs from the file: its content would be lost. */
  lemma FrameLost(s: Pool, s': Pool, id: int)
    requires id in s.table && s.table[id] < |s.pages| == |s'.pages|
      && s' == WithFrame(s, s.table[id], s'.pages[s.table[id]])
    requires var p := s'.pages[s.table[id]]; p.pageId == id && p.pin == 0 && !p.dirty && p.data != OnDisk(s.disk, id)
    ensures !Ok(s', -1)
  {
    assert Used(s', s.table[id]);
    assert !Written(s', s.table[id]);
  }

  lemma HeadOfChain(s: Pool, chain: seq<int>)
    requires ChainOk(s, chain)
    ensures Head(s) == Link(chain, 0) && (chain != [] ==> 1 <= chain[0] < Total(s)) && Total(s) >= 1
  {
    if chain != [] { assert LinkOk(s, chain, 0); }
  }

  lemma ContentOfPinned(s: Pool, id: int)
    requires Ok(s, -1) && PinOf(s, id) > 0
    ensures Cached(s, id) && Used(s, s.table[id]) && Content(s, id) == s.pages[s.table[id]].data
  {
    UsedFrame(s, -1, id);
  }

  lemma SameAt(s: Pool, s': Pool, id: int)
    requires SameContent(s, s')
    ensures Content(s', id) == Content(s, id) && (id == 0 ==> Total(s') == Total(s) && Head(s') == Head(s))
  {
    assert Content(s', 0) == Content(s, 0);
  }

  lemma StillPinned(s: Pool, s': Pool, id: int, q: int)
    requires PinStep(s, s', id, 1) && Stays(s, s') && PinOf(s, q) > 0
    ensures PinOf(s', q) > 0 && q in s.table && q in s'.table && s'.table[q] == s.table[q]
  {
  }

  lemma PinHeld(s0: Pool, s1: Pool, s2: Pool, id: int)
    requires PinStep(s0, s1, id, 1) && (s2 == s1 || PinStep(s1, s2, 0, 0))
    ensures PinOf(s2, id) > 0
  {
    assert PinOf(s1, id) > 0;
  }

  /** A pin, something that keeps the pins, and an unpin of the same page. */
  lemma PinSandwich(s0: Pool, s1: Pool, s2: Pool, s3: Pool, id: int)
    requires PinStep(s0, s1, id, 1) && PinStep(s1, s2, 0, 0) && PinStep(s2, s3, id, if PinOf(s2, id) > 0 then -1 else 0)
    requires Stays(s0, s1) && Stays(s1, s2) && Stays(s2, s3)
    ensures PinStep(s0, s3, 0, 0) && Stays(s0, s3)
  {
    forall q ensures PinOf(s3, q) == PinOf(s0, q) && PinOf(s2, q) >= PinOf(s1, q) >= PinOf(s0, q) {
      assert PinOf(s1, id) > 0 && PinOf(s2, id) == PinOf(s1, id);
      assert PinOf(s2, q) == PinOf(s1, q);
    }
    forall q | PinOf(s0, q) > 0 ensures q in s0.table && q in s3.table && s3.table[q] == s0.table[q] {
      assert PinOf(s1, q) > 0 && PinOf(s2, q) > 0;
    }
  }

  lemma ContentSandwich(s0: Pool, s1: Pool, s2: Pool, s3: Pool)
    requires SameContent(s0, s1) && SameElsewhere(s1, s2, 0) && SameContent(s2, s3)
    ensures SameElsewhere(s0, s3, 0) && Content(s3, 0) == Content(s2, 0)
  {
    forall q | q != 0 ensures Content(s3, q) == Content(s0, q) {
      assert Content(s2, q) == Content(s1, q) && Content(s1, q) == Content(s0, q);
    }
  }

  /** A page that was fetched to be read only can be unpinned as clean after the header was written. */
  lemma StillClean(s0: Pool, s1: Pool, s2: Pool, id: int)
    requires Ok(s0, -1) && 0 < id && !NoFrameFor(s0, id) && s1 == Fetched(s0, id) && PinStep(s0, s1, id, 1)
    requires Ok(s1, -1) && 0 in s1.table && Cached(s1, 0) && id in s1.table && |s2.pages| == |s1.pages|
      && s2 == WithFrame(s1, s1.table[0], s2.pages[s1.table[0]])
    ensures id in s2.table && s2.table[id] < |s2.pages| ==>
      var p := s2.pages[s2.table[id]]; p.dirty || p.pin > 1 || p.data == OnDisk(s2.disk, id)
  {
    hide Fetched, NoFrameFor, Ok, Content, PinStep;
    FetchClean(s0, id);
    UsedFrame(s1, -1, id);
    assert s1.table[id] != s1.table[0];
    PinAt(s0, s1, id);
  }

  lemma PinAt(s: Pool, s': Pool, id: int)
    requires PinStep(s, s', id, 1)
    ensures PinOf(s', id) == PinOf(s, id) + 1
  {
  }

  lemma PinSame(s: Pool, s': Pool, id: int, q: int)
    requires PinStep(s, s', id, 0)
    ensures PinOf(s', q) == PinOf(s, q)
  {
  }

  lemma ElsewhereAt(s: Pool, s': Pool, id: int, q: int)
    requires SameElsewhere(s, s', id) && q != id
    ensures Content(s', q) == Content(s, q)
  {
  }

  lemma PinTwice(s0: Pool, s1: Pool, s2: Pool, a: int, b: int)
    requires PinStep(s0, s1, a, 0) && PinStep(s1, s2, b, 0) && Stays(s0, s1) && Stays(s1, s2)
    ensures PinStep(s0, s2, 0, 0) && Stays(s0, s2)
  {
    forall q ensures PinOf(s2, q) == PinOf(s0, q) && PinOf(s1, q) == PinOf(s0, q) {
      PinSame(s1, s2, b, q);
      PinSame(s0, s1, a, q);
    }
  }

  lemma NoPinStep(s: Pool)
    ensures PinStep(s, s, 0, 0) && Stays(s, s) && SameContent(s, s)
  {
  }

  lemma IdsInFile(s: Pool, chain: seq<int>, id: int)
    requires ChainOk(s, chain)
    ensures if id in Allocated(s, chain) then 1 <= id < Total(s) <= TWO_31
      else Allocated(s, chain) - {id} == Allocated(s, chain)
    ensures id in Allocated(s, chain) ==> Allocated(s, chain) - {id} + {id} == Allocated(s, chain)
  {
  }

  lemma SameTwice(s0: Pool, s1: Pool, s2: Pool, s3: Pool, s4: Pool, id: int)
    requires SameContent(s0, s1) && SameElsewhere(s1, s2, id) && SameElsewhere(s2, s3, 0) && SameContent(s3, s4)
    ensures forall k {:trigger Content(s4, k)} :: k != 0 && k != id ==> Content(s4, k) == Content(s0, k)
    ensures forall k {:trigger Content(s4, k)} :: Content(s4, k) == Content(s3, k)
  {
    forall k | k != 0 && k != id ensures Content(s4, k) == Content(s0, k) {
      assert Content(s3, k) == Content(s2, k) && Content(s2, k) == Content(s1, k) && Content(s1, k) == Content(s0, k);
    }
  }

  lemma SameOutside(s0: Pool, s1: Pool, s2: Pool, s3: Pool, id: int)
    requires SameContent(s0, s1) && SameContent(s2, s3)
    requires forall k {:trigger Content(s2, k)} :: k != 0 && k != id ==> Content(s2, k) == Content(s1, k)
    ensures forall k {:trigger Content(s3, k)} :: k != 0 && k != id ==> Content(s3, k) == Content(s0, k)
  {
    forall k | k != 0 && k != id ensures Content(s3, k) == Content(s0, k) {
      assert Content(s2, k) == Content(s1, k) && Content(s1, k) == Content(s0, k);
    }
  }

  lemma SamePinned(s: Pool, s': Pool)
    requires PinStep(s, s', 0, 0) && Ok(s, -1) && Ok(s', -1)
    ensures Pinned(s') == Pinned(s)
  {
    forall q ensures q in Pinned(s') <==> q in Pinned(s) {
      assert PinOf(s', q) == PinOf(s, q);
      if q in s.table { UsedFrame(s, -1, q); }
      if q in s'.table { UsedFrame(s', -1, q); }
    }
  }

  // ---- flushing everything

  /** The order in which the table's pages come up is not fixed. */
  method SomePage(pages: set<int>) returns (id: int)
    requires exists q :: q in pages
    ensures id in pages
  {
    id :| id in pages;
  }

  lemma FlushStep(s: Pool, s': Pool, id: int)
    requires Ok(s, -1) && s' == if id in s.table && s.table[id] < |s.pages| then Flushed(s, s.table[id]) else s
    ensures DirtyPages(s') == DirtyPages(s) - {id} && PinStep(s, s', 0, 0) && Stays(s, s')
    ensures |DirtyPages(s)| == |DirtyPages(s')| + if id in s.table && s.table[id] < |s.pages|
      && s.pages[s.table[id]].dirty then 1 else 0
  {
    forall q ensures q in DirtyPages(s') <==> q in DirtyPages(s) - {id} {
      if id in s.table { UsedFrame(s, -1, id); }
      if q in s.table { UsedFrame(s, -1, q); }
    }
    FlushPins(s, s', id);
    assert id !in DirtyPages(s) ==> DirtyPages(s) - {id} == DirtyPages(s);
  }

  lemma FlushPins(s: Pool, s': Pool, id: int)
    requires s' == if id in s.table && s.table[id] < |s.pages| then Flushed(s, s.table[id]) else s
    ensures PinStep(s, s', 0, 0) && Stays(s, s')
  {
    forall q ensures PinOf(s', q) == PinOf(s, q) {}
  }

  lemma PinAndContentTrans(s0: Pool, s1: Pool, s2: Pool)
    requires PinStep(s0, s1, 0, 0) && PinStep(s1, s2, 0, 0) && Stays(s0, s1) && Stays(s1, s2)
    requires SameContent(s0, s1) && SameContent(s1, s2)
    ensures PinStep(s0, s2, 0, 0) && Stays(s0, s2) && SameContent(s0, s2)
  {
    PinTwice(s0, s1, s2, 0, 0);
    forall k ensures Content(s2, k) == Content(s0, k) { assert Content(s1, k) == Content(s0, k); }
  }

  /** With no dirty page left, the file holds the content of every unpinned page. */
  lemma AllOnDisk(s: Pool)
    requires Ok(s, -1) && DirtyPages(s) == {}
    ensures forall id {:trigger OnDisk(s.disk, id)} :: PinOf(s, id) == 0 ==> OnDisk(s.disk, id) == Content(s, id)
  {
    forall id | PinOf(s, id) == 0 ensures OnDisk(s.disk, id) == Content(s, id) {
      if id in s.table {
        UsedFrame(s, -1, id);
        UsedIsWritten(s, s.table[id]);
        assert id !in DirtyPages(s);
      }
    }
  }

  /** A file that agrees with the contents can be opened again. */
  lemma FileKeepsChain(s: Pool, s': Pool, chain: seq<int>)
    requires ChainOk(s, chain) && SameContent(s, s')
    requires forall id {:trigger OnDisk(s'.disk, id)} :: OnDisk(s'.disk, id) == Content(s', id)
    ensures FileOk(s'.disk, chain)
  {
    ChainSurvives(s, s', chain);
    ChainSurvives(s', Pool([], [], map[], [], s'.disk), chain);
  }
}
