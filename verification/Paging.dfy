/** The page cache as a value: what its frames, page table, recency list and file represent together. */
module Paging {
  import opened Sums
  import opened Lists

  const PAGE_SIZE: nat := 4096

  type Byte = x: nat | x < 256
  type Bytes = d: seq<Byte> | |d| == PAGE_SIZE witness Zeros(PAGE_SIZE)

  function Zeros(n: nat): (z: seq<Byte>)
    ensures |z| == n && forall i :: 0 <= i < n ==> z[i] == 0
  {
    if n == 0 then [] else Zeros(n - 1) + [0]
  }

  function ZeroPage(): Bytes { Zeros(PAGE_SIZE) }

  datatype Frame = Frame(pageId: int, data: Bytes, pin: nat, dirty: bool)

  /** `lru` lists the used frames, the most recently fetched first; the file is a map from page id to bytes. */
  datatype Pool = Pool(pages: seq<Frame>, freeFrames: seq<nat>, table: map<int, nat>, lru: seq<nat>, disk: map<int,
      Bytes>)

  /** Reading a page that was never written gives zeros. */
  function OnDisk(disk: map<int, Bytes>, id: int): Bytes {
    if id in disk then disk[id] else ZeroPage()
  }

  /** The page's current content: its cached copy if there is one. */
  ghost function Content(s: Pool, id: int): Bytes {
    if id in s.table && s.table[id] < |s.pages| then s.pages[s.table[id]].data else OnDisk(s.disk, id)
  }

  ghost predicate SameContent(s: Pool, s': Pool) {
    forall id {:trigger Content(s', id)} :: Content(s', id) == Content(s, id)
  }

  ghost predicate SameElsewhere(s: Pool, s': Pool, page: int) {
    forall id {:trigger Content(s', id)} :: id != page ==> Content(s', id) == Content(s, id)
  }

  // ---- the invariant

  /** The frame holds the page that the table locates there. */
  ghost predicate Used(s: Pool, f: nat) {
    f < |s.pages| && s.pages[f].pageId in s.table && s.table[s.pages[f].pageId] == f
  }

  ghost predicate Cached(s: Pool, id: int) {
    0 <= id && id in s.table && s.table[id] < |s.pages| && s.pages[s.table[id]].pageId == id
  }

  /** Only a pinned or dirty page may differ from the file. */
  ghost predicate Written(s: Pool, f: nat)
    requires f < |s.pages|
  {
    s.pages[f].pin == 0 && !s.pages[f].dirty ==> s.pages[f].data == OnDisk(s.disk, s.pages[f].pageId)
  }

  ghost predicate InFree(s: Pool, f: nat) { f in s.freeFrames }

  ghost predicate InLru(s: Pool, f: nat) { f in s.lru }

  /** Every frame but `taken` is either used, once in the recency list, or once in the free list. */
  ghost predicate Ok(s: Pool, taken: int) {
    && Distinct(s.lru) && Distinct(s.freeFrames)
    && (forall id {:trigger Cached(s, id)} :: id in s.table ==> Cached(s, id))
    && (forall f: nat {:trigger InLru(s, f)} :: InLru(s, f) <==> Used(s, f))
    && (forall f: nat {:trigger InFree(s, f)} :: InFree(s, f) <==> f < |s.pages| && f != taken && !Used(s, f))
    && (forall f: nat {:trigger Written(s, f)} :: f < |s.pages| && Used(s, f) ==> Written(s, f))
  }

  ghost function Pinned(s: Pool): set<int> {
    set id | id in s.table && Cached(s, id) && s.pages[s.table[id]].pin > 0
  }

  // ---- what the operations do to the pool

  function WithFrame(s: Pool, f: nat, frame: Frame): Pool
    requires f < |s.pages|
  {
    s.(pages := s.pages[f := frame])
  }

  /** `FlushPage` of a cached page: a dirty page is written to the file. */
  function Flushed(s: Pool, f: nat): Pool
    requires f < |s.pages|
  {
    if s.pages[f].dirty then
      WithFrame(s, f, s.pages[f].(dirty := false)).(disk := s.disk[s.pages[f].pageId := s.pages[f].data])
    else s
  }

  /** The frame's page is written back if dirty and leaves the table and the list. */
  function Evicted(s: Pool, i: nat): Pool
    requires i < |s.lru| && s.lru[i] < |s.pages|
  {
    var f := s.lru[i];
    Flushed(s, f).(table := s.table - {s.pages[f].pageId}, lru := RemoveAt(s.lru, i))
  }

  /** The page is read from the file into frame f, pinned once. */
  function Loaded(s: Pool, f: nat, id: int): Pool
    requires f < |s.pages|
  {
    WithFrame(s, f, Frame(id, OnDisk(s.disk, id), 1, false)).(table := s.table[id := f], lru := [f] + s.lru)
  }

  /** A cached page is pinned once more and moves to the front. */
  function Hit(s: Pool, f: nat, i: nat): Pool
    requires f < |s.pages| && i < |s.lru|
  {
    WithFrame(s, f, s.pages[f].(pin := s.pages[f].pin + 1)).(lru := [f] + RemoveAt(s.lru, i))
  }

  /** The last entry of the list whose frame is not pinned. */
  function Victim(pages: seq<Frame>, lru: seq<nat>): (i: int)
    requires forall j :: 0 <= j < |lru| ==> lru[j] < |pages|
    ensures -1 <= i < |lru| && (i >= 0 ==> pages[lru[i]].pin == 0)
    ensures forall j :: i < j < |lru| ==> pages[lru[j]].pin > 0
  {
    if lru == [] then -1
    else if pages[lru[|lru| - 1]].pin == 0 then |lru| - 1
    else Victim(pages, lru[..|lru| - 1])
  }

  lemma UsedFrame(s: Pool, taken: int, id: int)
    requires Ok(s, taken) && id in s.table
    ensures Cached(s, id) && Used(s, s.table[id]) && s.table[id] in s.lru && s.table[id] !in s.freeFrames
  {
    var f := s.table[id];
    assert Cached(s, id);
    assert Used(s, f);
    assert InLru(s, f) && !InFree(s, f);
  }

  lemma ListedFrame(s: Pool, taken: int, i: nat)
    requires Ok(s, taken) && i < |s.lru|
    ensures Used(s, s.lru[i])
  {
    assert InLru(s, s.lru[i]);
  }

  lemma FreeFrame(s: Pool, taken: int, f: nat)
    requires Ok(s, taken) && f in s.freeFrames
    ensures f < |s.pages| && !Used(s, f) && f !in s.lru && f != taken
  {
    assert InFree(s, f);
    assert !InLru(s, f);
  }

  /** Changing a frame without changing the page it holds. */
  lemma ChangeFrame(s: Pool, taken: int, f: nat, frame: Frame, disk: map<int, Bytes>)
    requires Ok(s, taken) && Used(s, f) && frame.pageId == s.pages[f].pageId
    requires disk == s.disk || disk == s.disk[frame.pageId := frame.data]
    requires frame.pin == 0 && !frame.dirty ==> frame.data == OnDisk(disk, frame.pageId)
    ensures var s' := WithFrame(s, f, frame).(disk := disk);
      Ok(s', taken) && Content(s', frame.pageId) == frame.data && SameElsewhere(s, s', frame.pageId)
  {
    var s' := WithFrame(s, f, frame).(disk := disk);
    forall id | id in s'.table ensures Cached(s', id) { assert Cached(s, id); }
    forall g: nat ensures Used(s', g) == Used(s, g) {}
    forall g: nat ensures InLru(s', g) <==> Used(s', g) { assert InLru(s, g) == InLru(s', g); }
    forall g: nat ensures InFree(s', g) <==> g < |s'.pages| && g != taken && !Used(s', g) {
      assert InFree(s, g) == InFree(s', g);
    }
    forall g: nat | g < |s'.pages| && Used(s', g) ensures Written(s', g) { assert Written(s, g); }
    forall id | id != frame.pageId ensures Content(s', id) == Content(s, id) {
      if id in s.table { assert Cached(s, id); }
    }
  }

  /** Flushing changes no content, and leaves the page clean and equal to the file. */
  lemma FlushKeeps(s: Pool, taken: int, f: nat)
    requires Ok(s, taken) && Used(s, f)
    ensures var s' := Flushed(s, f);
      && Ok(s', taken) && SameContent(s, s') && s'.pages[f] == s.pages[f].(dirty := false)
      && (s.pages[f].pin == 0 || s.pages[f].dirty ==> OnDisk(s'.disk, s.pages[f].pageId) == s.pages[f].data)
  {
    if s.pages[f].dirty {
      ChangeFrame(s, taken, f, s.pages[f].(dirty := false), s.disk[s.pages[f].pageId := s.pages[f].data]);
    } else {
      assert Written(s, f);
    }
  }

  lemma EvictKeeps(s: Pool, i: nat)
    requires Ok(s, -1) && i < |s.lru| && Used(s, s.lru[i]) && s.pages[s.lru[i]].pin == 0
    ensures Ok(Evicted(s, i), s.lru[i]) && SameContent(s, Evicted(s, i))
    ensures !Used(Evicted(s, i), s.lru[i])
  {
    var f := s.lru[i];
    var t := Flushed(s, f);
    var s' := Evicted(s, i);
    FlushKeeps(s, -1, f);
    RemovedOne(s.lru, i);
    forall id | id in s'.table ensures Cached(s', id) { assert Cached(t, id); }
    forall g: nat ensures Used(s', g) <==> Used(t, g) && g != f {}
    forall g: nat ensures InLru(s', g) <==> Used(s', g) { assert InLru(t, g) == Used(t, g); }
    forall g: nat ensures InFree(s', g) <==> g < |s'.pages| && g != f && !Used(s', g) {
      assert InFree(t, g) == InFree(s', g);
    }
    forall g: nat | g < |s'.pages| && Used(s', g) ensures Written(s', g) { assert Written(t, g); }
    forall id ensures Content(s', id) == Content(s, id) {
      assert Content(t, id) == Content(s, id);
      if id in s.table { assert Cached(s, id); }
    }
  }

  /** Which pages may be evicted without loss: the dirty ones and those that agree with the file. */
  lemma EvictKeepsIff(s: Pool, i: nat)
    requires i < |s.lru| && Used(s, s.lru[i]) && forall id {:trigger Cached(s, id)} :: id in s.table ==> Cached(s, id)
    ensures SameContent(s, Evicted(s, i)) <==>
      s.pages[s.lru[i]].dirty || s.pages[s.lru[i]].data == OnDisk(s.disk, s.pages[s.lru[i]].pageId)
  {
    var f := s.lru[i];
    var page := s.pages[f].pageId;
    var s' := Evicted(s, i);
    assert Content(s', page) == OnDisk(s'.disk, page);
    forall id | id != page ensures Content(s', id) == Content(s, id) {
      if id in s.table { assert Cached(s, id); }
    }
  }

  lemma LoadKeeps(s: Pool, f: nat, id: int)
    requires Ok(s, f) && f < |s.pages| && !Used(s, f) && id !in s.table && 0 <= id
    ensures Ok(Loaded(s, f, id), -1) && SameContent(s, Loaded(s, f, id))
  {
    var s' := Loaded(s, f, id);
    assert !InLru(s, f);
    forall k | k in s'.table ensures Cached(s', k) { if k != id { UsedFrame(s, f, k); } }
    forall g: nat ensures Used(s', g) <==> Used(s, g) || g == f {
      if g < |s.pages| && g != f && s.pages[g].pageId == id { assert !Used(s, g) && !Used(s', g); }
    }
    forall g: nat ensures InLru(s', g) <==> Used(s', g) { assert InLru(s, g) == Used(s, g); }
    forall g: nat ensures InFree(s', g) <==> g < |s'.pages| && g != -1 && !Used(s', g) {
      assert InFree(s, g) == InFree(s', g);
    }
    forall g: nat | g < |s'.pages| && Used(s', g) ensures Written(s', g) { if g != f { assert Written(s, g); } }
    forall k ensures Content(s', k) == Content(s, k) {
      if k in s.table { UsedFrame(s, f, k); }
    }
  }

  /** Taking the first free frame. */
  lemma TakeFree(s: Pool)
    requires Ok(s, -1) && s.freeFrames != []
    ensures var s' := s.(freeFrames := s.freeFrames[1..]);
      Ok(s', s.freeFrames[0]) && !Used(s', s.freeFrames[0]) && s.freeFrames[0] < |s.pages| && SameContent(s, s')
  {
    var f := s.freeFrames[0];
    var s' := s.(freeFrames := s.freeFrames[1..]);
    RemovedOne(s.freeFrames, 0);
    assert RemoveAt(s.freeFrames, 0) == s'.freeFrames;
    assert InFree(s, f);
    forall id | id in s'.table ensures Cached(s', id) { assert Cached(s, id); }
    forall g: nat ensures Used(s', g) == Used(s, g) {}
    forall g: nat ensures InLru(s', g) <==> Used(s', g) { assert InLru(s, g) == InLru(s', g); }
    forall g: nat ensures InFree(s', g) <==> g < |s'.pages| && g != f && !Used(s', g) {
      assert InFree(s, g) == (InFree(s', g) || g == f);
    }
    forall g: nat | g < |s'.pages| && Used(s', g) ensures Written(s', g) { assert Written(s, g); }
  }

  lemma HitKeeps(s: Pool, id: int)
    requires Ok(s, -1) && id in s.table && Cached(s, id) && s.table[id] in s.lru
    ensures var s' := Hit(s, s.table[id], Position(s.lru, s.table[id])); Ok(s', -1) && SameContent(s, s')
  {
    var f := s.table[id];
    var i := Position(s.lru, f);
    UsedFrame(s, -1, id);
    var t := WithFrame(s, f, s.pages[f].(pin := s.pages[f].pin + 1));
    assert t == WithFrame(s, f, s.pages[f].(pin := s.pages[f].pin + 1)).(disk := s.disk);
    ChangeFrame(s, -1, f, s.pages[f].(pin := s.pages[f].pin + 1), s.disk);
    var s' := Hit(s, f, i);
    RemovedOne(s.lru, i);
    forall k | k in s'.table ensures Cached(s', k) { assert Cached(t, k); }
    forall g: nat ensures Used(s', g) == Used(t, g) {}
    forall g: nat ensures InLru(s', g) <==> Used(s', g) { assert InLru(t, g) == InLru(s', g); }
    forall g: nat ensures InFree(s', g) <==> g < |s'.pages| && g != -1 && !Used(s', g) {
      assert InFree(t, g) == InFree(s', g);
    }
    forall g: nat | g < |s'.pages| && Used(s', g) ensures Written(s', g) { assert Written(t, g); }
    forall k ensures Content(s', k) == Content(s, k) { assert Content(t, k) == Content(s', k); }
  }

  // ---- fetching

  /** The page is not cached, and there is no frame for it. */
  ghost predicate NoFrameFor(s: Pool, id: int) {
    id !in s.table && s.freeFrames == [] && forall f: nat {:trigger Used(s, f)} :: Used(s, f) ==> s.pages[f].pin > 0
  }

  lemma Listed(s: Pool, taken: int)
    requires Ok(s, taken)
    ensures forall j :: 0 <= j < |s.lru| ==> s.lru[j] < |s.pages|
  {
    forall j | 0 <= j < |s.lru| ensures s.lru[j] < |s.pages| { ListedFrame(s, taken, j); }
  }

  ghost function VictimOf(s: Pool): (i: int)
    requires Ok(s, -1)
    ensures -1 <= i < |s.lru| && (i >= 0 ==> s.lru[i] < |s.pages|)
  {
    Listed(s, -1);
    Victim(s.pages, s.lru)
  }

  /** The state after `FetchPage(id)`. */
  ghost function Fetched(s: Pool, id: int): Pool
    requires Ok(s, -1)
  {
    if id in s.table then
      UsedFrame(s, -1, id);
      Hit(s, s.table[id], Position(s.lru, s.table[id]))
    else if s.freeFrames != [] then
      FreeFrame(s, -1, s.freeFrames[0]);
      Loaded(s.(freeFrames := s.freeFrames[1..]), s.freeFrames[0], id)
    else if VictimOf(s) < 0 then s
    else Loaded(Evicted(s, VictimOf(s)), s.lru[VictimOf(s)], id)
  }

  lemma VictimFacts(s: Pool)
    requires Ok(s, -1)
    ensures var i := VictimOf(s);
      if i < 0 then forall f: nat {:trigger Used(s, f)} :: Used(s, f) ==> s.pages[f].pin > 0
      else Used(s, s.lru[i]) && s.pages[s.lru[i]].pin == 0 && Cached(s, s.pages[s.lru[i]].pageId)
  {
    Listed(s, -1);
    var i := VictimOf(s);
    if i >= 0 {
      ListedFrame(s, -1, i);
      UsedFrame(s, -1, s.pages[s.lru[i]].pageId);
    } else {
      forall f: nat | Used(s, f) ensures s.pages[f].pin > 0 { assert InLru(s, f); }
    }
  }

  /** The page table after a fetch, case by case. */
  lemma FetchTable(s: Pool, id: int)
    requires Ok(s, -1) && 0 <= id
    ensures var s' := Fetched(s, id);
      if id in s.table then s'.table == s.table && s'.disk == s.disk
      else if s.freeFrames != [] then s'.table == s.table[id := s.freeFrames[0]] && s'.disk == s.disk
      else if VictimOf(s) < 0 then s' == s
      else s'.table == (s.table - {s.pages[s.lru[VictimOf(s)]].pageId})[id := s.lru[VictimOf(s)]]
  {
  }

  /** Whatever a fetch does to the cache, no page changes its content. */
  lemma FetchKeeps(s: Pool, id: int)
    requires Ok(s, -1) && 0 <= id
    ensures Ok(Fetched(s, id), -1) && SameContent(s, Fetched(s, id)) && |Fetched(s, id).pages| == |s.pages|
    ensures NoFrameFor(s, id) <==> id !in Fetched(s, id).table
    ensures NoFrameFor(s, id) ==> Fetched(s, id) == s
  {
    hide Ok, Content;
    var s' := Fetched(s, id);
    if id in s.table {
      UsedFrame(s, -1, id);
      HitKeeps(s, id);
    } else if s.freeFrames != [] {
      TakeFree(s);
      LoadKeeps(s.(freeFrames := s.freeFrames[1..]), s.freeFrames[0], id);
    } else {
      VictimFacts(s);
      var i := VictimOf(s);
      if i >= 0 {
        EvictKeeps(s, i);
        LoadKeeps(Evicted(s, i), s.lru[i], id);
      }
    }
  }

  /** The page is in the same frame, with the same bytes, pins and dirty bit. */
  ghost predicate Kept(s: Pool, s': Pool, q: int) {
    && q in s.table && q in s'.table && s'.table[q] == s.table[q] < |s.pages| == |s'.pages|
    && s'.pages[s.table[q]] == s.pages[s.table[q]]
  }

  /** The page was evicted to make room: it was the victim, and not pinned. */
  ghost predicate Thrown(s: Pool, s': Pool, id: int, q: int)
    requires Ok(s, -1)
  {
    && id !in s.table && s.freeFrames == [] && VictimOf(s) >= 0 && q == s.pages[s.lru[VictimOf(s)]].pageId
    && q in s.table && s.table[q] < |s.pages| && s.pages[s.table[q]].pin == 0 && q !in s'.table
  }

  /** A fetched page is pinned once more, and clean unless it was cached and dirty; every other page stays as it is,
      save the one evicted, which was not pinned. */
  lemma FetchPins(s: Pool, id: int)
    requires Ok(s, -1) && 0 <= id && !NoFrameFor(s, id)
    ensures var s' := Fetched(s, id);
      && Cached(s', id) && s'.pages[s'.table[id]].data == Content(s, id)
      && s'.pages[s'.table[id]].pin
        == (if id in s.table && s.table[id] < |s.pages| then s.pages[s.table[id]].pin + 1 else 1)
    ensures var s' := Fetched(s, id);
      s'.pages[s'.table[id]].dirty == (id in s.table && s.table[id] < |s.pages| && s.pages[s.table[id]].dirty)
    ensures forall q :: q in s.table && q != id ==>
      || Kept(s, Fetched(s, id), q)
      || Thrown(s, Fetched(s, id), id, q)
    ensures forall q :: q in Fetched(s, id).table ==> q == id || q in s.table
  {
    hide Ok, Content;
    var s' := Fetched(s, id);
    FetchKeeps(s, id);
    UsedFrame(s', -1, id);
    assert Content(s', id) == s'.pages[s'.table[id]].data by { ContentOfCached(s', id); }
    if id in s.table { UsedFrame(s, -1, id); }
    else if s.freeFrames != [] { FreeFrame(s, -1, s.freeFrames[0]); }
    else { VictimFacts(s); }
    forall q | q in s.table && q != id ensures
      || Kept(s, s', q)
      || Thrown(s, s', id, q)
    {
      UsedFrame(s, -1, q);
    }
  }

  lemma ContentOfCached(s: Pool, id: int)
    requires Cached(s, id)
    ensures Content(s, id) == s.pages[s.table[id]].data
  {
  }

  ghost function DirtyPages(s: Pool): set<int> {
    set id | id in s.table && s.table[id] < |s.pages| && s.pages[s.table[id]].dirty
  }

  /** The page that a fetch evicts, if any. */
  ghost function EvictedFor(s: Pool, id: int): set<int>
    requires Ok(s, -1)
  {
    if id !in s.table && s.freeFrames == [] && VictimOf(s) >= 0 then {s.pages[s.lru[VictimOf(s)]].pageId} else {}
  }

  /** A fetch makes no page dirty, and one clean: the one it evicts. */
  lemma FetchDirty(s: Pool, id: int)
    requires Ok(s, -1) && 0 <= id && !NoFrameFor(s, id)
    ensures DirtyPages(Fetched(s, id)) == DirtyPages(s) - EvictedFor(s, id)
    ensures EvictedFor(s, id) !! DirtyPages(s) ==> Fetched(s, id).disk == s.disk
  {
    hide Ok, Content, Fetched, NoFrameFor;
    var s' := Fetched(s, id);
    FetchPins(s, id);
    FetchKeeps(s, id);
    FetchTable(s, id);
    VictimFacts(s);
    forall q ensures q in DirtyPages(s') <==> q in DirtyPages(s) - EvictedFor(s, id) {
      if q in s.table { UsedFrame(s, -1, q); }
      if q in s'.table { UsedFrame(s', -1, q); }
    }
    FetchDisk(s, id);
  }

  lemma FetchDisk(s: Pool, id: int)
    requires Ok(s, -1) && 0 <= id
    ensures EvictedFor(s, id) !! DirtyPages(s) ==> Fetched(s, id).disk == s.disk
  {
    hide Ok, Content;
    if id !in s.table && s.freeFrames == [] && VictimOf(s) >= 0 {
      VictimFacts(s);
      assert s.pages[s.lru[VictimOf(s)]].pageId in EvictedFor(s, id);
    }
  }

  lemma FetchPinned(s: Pool, id: int)
    requires Ok(s, -1) && 0 <= id && !NoFrameFor(s, id)
    ensures Pinned(Fetched(s, id)) == Pinned(s) + {id}
  {
    hide Ok, Content, Fetched, NoFrameFor;
    var s' := Fetched(s, id);
    FetchPins(s, id);
    FetchKeeps(s, id);
    forall q ensures q in Pinned(s') <==> q in Pinned(s) + {id} {
      if q in s.table { UsedFrame(s, -1, q); }
      if q in s'.table { UsedFrame(s', -1, q); }
    }
  }

  // ---- room

  ghost function PagesOf(s: Pool, n: nat): set<int>
    requires n <= |s.pages|
  {
    set f | 0 <= f < n :: s.pages[f].pageId
  }

  lemma {:induction false} AllDifferent(s: Pool, n: nat)
    requires n <= |s.pages| && forall f: nat {:trigger Used(s, f)} :: f < |s.pages| ==> Used(s, f)
    ensures |PagesOf(s, n)| == n
  {
    if n > 0 {
      AllDifferent(s, n - 1);
      assert Used(s, n - 1);
      forall f | 0 <= f < n - 1 ensures s.pages[f].pageId != s.pages[n - 1].pageId { assert Used(s, f); }
      assert PagesOf(s, n) == PagesOf(s, n - 1) + {s.pages[n - 1].pageId};
    }
  }

  lemma AllPinned(s: Pool, id: int)
    requires Ok(s, -1) && NoFrameFor(s, id)
    ensures |Pinned(s) + {id}| > |s.pages|
  {
    forall f: nat | f < |s.pages| ensures Used(s, f) { assert !InFree(s, f); }
    AllDifferent(s, |s.pages|);
    forall q | q in PagesOf(s, |s.pages|) ensures q in Pinned(s) && q != id {
      var f: nat :| f < |s.pages| && s.pages[f].pageId == q;
      assert Used(s, f);
      UsedFrame(s, -1, q);
    }
    SmallerSet(PagesOf(s, |s.pages|) + {id}, Pinned(s) + {id});
  }

  /** A fetch succeeds when the pinned pages and the page itself fit in the cache together. */
  lemma RoomToFetch(s: Pool, id: int)
    requires Ok(s, -1) && 0 <= id && |Pinned(s) + {id}| <= |s.pages|
    ensures !NoFrameFor(s, id)
  {
    if NoFrameFor(s, id) { AllPinned(s, id); }
  }

  // ---- recency

  ghost function Stamp(s: Pool, at: map<int, nat>, i: nat): int
    requires i < |s.lru|
  {
    var f := s.lru[i];
    if f < |s.pages| && s.pages[f].pageId in at then at[s.pages[f].pageId] else -1
  }

  /** `at` gives the time each cached page was last fetched; the list is in that order. */
  ghost predicate Stamped(s: Pool, at: map<int, nat>, clock: nat) {
    && (forall i :: 0 <= i < |s.lru| ==> 0 <= Stamp(s, at, i) < clock)
    && (forall i, j :: 0 <= i < j < |s.lru| ==> Stamp(s, at, i) > Stamp(s, at, j))
  }

  /** Where the entry at k >= 1 of the new list was in the old one. */
  function Origin(i: int, k: nat): nat
    requires k >= 1
  {
    if i < 0 || k - 1 < i then k - 1 else k
  }

  lemma StampsFollow(s: Pool, s': Pool, at: map<int, nat>, clock: nat, id: int, f: nat, i: int)
    requires Stamped(s, at, clock) && -1 <= i < |s.lru| && Distinct(s.lru)
    requires s'.lru == [f] + (if i < 0 then s.lru else RemoveAt(s.lru, i))
    requires f < |s'.pages| && s'.pages[f].pageId == id && |s'.pages| == |s.pages|
    requires forall j :: 0 <= j < |s.lru| && j != i ==>
      s.lru[j] < |s.pages| && s.lru[j] != f && s.pages[s.lru[j]].pageId != id && s'.pages[s.lru[j]] == s.pages[s.lru[j]]
    ensures Stamped(s', at[id := clock], clock + 1)
  {
    var at' := at[id := clock];
    assert Stamp(s', at', 0) == clock;
    forall k: nat | 1 <= k < |s'.lru| ensures Origin(i, k) < |s.lru| && Origin(i, k) != i
      && Stamp(s', at', k) == Stamp(s, at, Origin(i, k)) {
      assert s'.lru[k] == s.lru[Origin(i, k)];
    }
    StampsShift(s, s', at, at', clock, i);
  }

  lemma StampsShift(s: Pool, s': Pool, at: map<int, nat>, at': map<int, nat>, clock: nat, i: int)
    requires Stamped(s, at, clock) && |s'.lru| > 0 && Stamp(s', at', 0) == clock
    requires forall k: nat {:trigger Stamp(s', at', k)} :: 1 <= k < |s'.lru| ==>
      Origin(i, k) < |s.lru| && Stamp(s', at', k) == Stamp(s, at, Origin(i, k))
    ensures Stamped(s', at', clock + 1)
  {
    hide Stamp;
  }

  lemma OtherPage(s: Pool, j: nat, id: int)
    requires Ok(s, -1) && j < |s.lru| && (id !in s.table || s.lru[j] != s.table[id])
    ensures s.lru[j] < |s.pages| && s.pages[s.lru[j]].pageId != id
  {
    ListedFrame(s, -1, j);
  }

  /** A fetch moves frame f to the front of the list, from position i unless it comes from the free list. */
  lemma FetchMoves(s: Pool, id: int) returns (f: nat, i: int)
    requires Ok(s, -1) && 0 <= id && !NoFrameFor(s, id)
    ensures var s' := Fetched(s, id);
      && -1 <= i < |s.lru| && s'.lru == [f] + (if i < 0 then s.lru else RemoveAt(s.lru, i))
      && f < |s'.pages| == |s.pages| && s'.pages[f].pageId == id && (i < 0 ==> f !in s.lru)
        && (i >= 0 ==> f == s.lru[i])
      && (id in s.table ==> i >= 0 && s.lru[i] == s.table[id])
      && forall g: nat :: g < |s.pages| && g != f ==> s'.pages[g] == s.pages[g]
  {
    hide Ok, Content;
    if id in s.table {
      UsedFrame(s, -1, id);
      f, i := s.table[id], Position(s.lru, s.table[id]);
    } else if s.freeFrames != [] {
      f, i := s.freeFrames[0], -1;
      FreeFrame(s, -1, f);
    } else {
      VictimFacts(s);
      i := VictimOf(s);
      f := s.lru[i];
    }
  }

  lemma FetchStamps(s: Pool, id: int, at: map<int, nat>, clock: nat)
    requires Ok(s, -1) && 0 <= id && Stamped(s, at, clock) && !NoFrameFor(s, id)
    ensures Stamped(Fetched(s, id), at[id := clock], clock + 1)
  {
    hide Ok, Content, Stamped, Fetched, NoFrameFor;
    var f, i := FetchMoves(s, id);
    LruDistinct(s);
    forall j | 0 <= j < |s.lru| && j != i ensures s.lru[j] < |s.pages| && s.lru[j] != f
      && s.pages[s.lru[j]].pageId != id {
      OtherPage(s, j, id);
    }
    StampsFollow(s, Fetched(s, id), at, clock, id, f, i);
  }

  lemma LruDistinct(s: Pool)
    requires Ok(s, -1)
    ensures Distinct(s.lru)
  {
  }

  /** The evicted page is the unpinned one whose last fetch is furthest back. */
  lemma VictimIsOldest(s: Pool, at: map<int, nat>, clock: nat, q: int)
    requires Ok(s, -1) && Stamped(s, at, clock) && Cached(s, q) && s.pages[s.table[q]].pin == 0
    ensures var i := VictimOf(s);
      && i >= 0 && s.pages[s.lru[i]].pageId in at && q in at
      && at[s.pages[s.lru[i]].pageId] <= at[q]
        && (at[s.pages[s.lru[i]].pageId] == at[q] ==> s.pages[s.lru[i]].pageId == q)
  {
    UsedFrame(s, -1, q);
    Listed(s, -1);
    var k := Position(s.lru, s.table[q]);
    var i := VictimOf(s);
    assert 0 <= Stamp(s, at, k);
    assert k <= i;
    assert 0 <= Stamp(s, at, i);
  }

  lemma SameStamps(s: Pool, s': Pool, at: map<int, nat>, clock: nat)
    requires Stamped(s, at, clock) && s'.lru == s.lru && |s'.pages| == |s.pages|
    requires forall f :: 0 <= f < |s.pages| ==> s'.pages[f].pageId == s.pages[f].pageId
    ensures Stamped(s', at, clock)
  {
    forall i | 0 <= i < |s.lru| ensures Stamp(s', at, i) == Stamp(s, at, i) {}
  }

  // ---- pins

  ghost function PinOf(s: Pool, id: int): nat {
    if id in s.table && s.table[id] < |s.pages| then s.pages[s.table[id]].pin else 0
  }

  /** Only the page's pin count changes, by d. */
  ghost predicate PinStep(s: Pool, s': Pool, id: int, d: int) {
    forall q {:trigger PinOf(s', q)} :: PinOf(s', q) == PinOf(s, q) + if q == id then d else 0
  }

  /** Pinned pages stay in their frames. */
  ghost predicate Stays(s: Pool, s': Pool) {
    |s'.pages| == |s.pages|
      && forall q {:trigger PinOf(s, q)} :: PinOf(s, q) > 0 ==>
      q in s.table && q in s'.table && s'.table[q] == s.table[q]
  }

  lemma FetchPinStep(s: Pool, id: int)
    requires Ok(s, -1) && 0 <= id && !NoFrameFor(s, id)
    ensures PinStep(s, Fetched(s, id), id, 1) && Stays(s, Fetched(s, id))
  {
    hide Ok, Content, Fetched, NoFrameFor;
    var s' := Fetched(s, id);
    FetchPins(s, id);
    FetchKeeps(s, id);
    forall q | q != id ensures PinOf(s', q) == PinOf(s, q) {}
    if id in s.table { UsedFrame(s, -1, id); }
    forall q | PinOf(s, q) > 0 ensures q in s'.table && s'.table[q] == s.table[q] {
      if q == id { FetchTable(s, id); }
    }
  }

  /** A page that was just fetched and has no other holder agrees with the file unless it is dirty. */
  lemma FetchClean(s: Pool, id: int)
    requires Ok(s, -1) && 0 <= id && !NoFrameFor(s, id)
    ensures var s' := Fetched(s, id);
      || PinOf(s, id) > 0
      || (Cached(s', id) && (s'.pages[s'.table[id]].dirty || s'.pages[s'.table[id]].data == OnDisk(s'.disk, id)))
  {
    hide Ok, Content;
    FetchKeeps(s, id);
    UsedFrame(Fetched(s, id), -1, id);
    if id in s.table {
      UsedFrame(s, -1, id);
      UsedIsWritten(s, s.table[id]);
    } else if s.freeFrames != [] {
      FreeFrame(s, -1, s.freeFrames[0]);
    } else {
      VictimFacts(s);
    }
  }

  lemma UsedIsWritten(s: Pool, f: nat)
    requires Ok(s, -1) && Used(s, f)
    ensures Written(s, f)
  {
  }
}
