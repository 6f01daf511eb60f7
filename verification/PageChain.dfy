/** The database header and the list of freed pages threaded through the pages' first four bytes. */
module PageChain {
  import opened Paging

  const TWO_31: int := 0x8000_0000
  const TWO_32: int := 0x1_0000_0000

  // ---- 32-bit words in a page, the lowest byte first

  function GetU32(d: Bytes, off: nat): (v: nat)
    requires off + 4 <= PAGE_SIZE
    ensures v < TWO_32
  {
    d[off] as int + 0x100 * d[off + 1] as int + 0x1_0000 * d[off + 2] as int + 0x100_0000 * d[off + 3] as int
  }

  function PutU32(d: Bytes, off: nat, v: nat): Bytes
    requires off + 4 <= PAGE_SIZE && v < TWO_32
  {
    d[off := v % 0x100][off + 1 := v / 0x100 % 0x100][off + 2 := v / 0x1_0000 % 0x100][off + 3 := v / 0x100_0000]
  }

  function GetI32(d: Bytes, off: nat): (v: int)
    requires off + 4 <= PAGE_SIZE
    ensures -TWO_31 <= v < TWO_31
  {
    var u := GetU32(d, off);
    if u < TWO_31 then u else u - TWO_32
  }

  function PutI32(d: Bytes, off: nat, v: int): Bytes
    requires off + 4 <= PAGE_SIZE && -TWO_31 <= v < TWO_31
  {
    PutU32(d, off, if v >= 0 then v else v + TWO_32)
  }

  lemma BytesOfWord(v: nat)
    requires v < TWO_32
    ensures v % 0x100 + 0x100 * (v / 0x100 % 0x100) + 0x1_0000 * (v / 0x1_0000 % 0x100)
      + 0x100_0000 * (v / 0x100_0000) == v
  {
  }

  lemma PutGetU32(d: Bytes, off: nat, v: nat)
    requires off + 4 <= PAGE_SIZE && v < TWO_32
    ensures GetU32(PutU32(d, off, v), off) == v
    ensures forall o: nat :: o + 4 <= off || off + 4 <= o <= PAGE_SIZE - 4 ==>
      GetU32(PutU32(d, off, v), o) == GetU32(d, o)
  {
    BytesOfWord(v);
  }

  lemma PutGetI32(d: Bytes, off: nat, v: int)
    requires off + 4 <= PAGE_SIZE && -TWO_31 <= v < TWO_31
    ensures GetI32(PutI32(d, off, v), off) == v
    ensures forall o: nat :: o + 4 <= off || off + 4 <= o <= PAGE_SIZE - 4 ==>
      GetU32(PutI32(d, off, v), o) == GetU32(d, o)
  {
    PutGetU32(d, off, if v >= 0 then v else v + TWO_32);
  }

  // ---- the header and the chain

  ghost function Total(s: Pool): nat { GetU32(Content(s, 0), 4) }

  ghost function Head(s: Pool): int { GetI32(Content(s, 0), 8) }

  ghost function NextFree(s: Pool, id: int): int { GetI32(Content(s, id), 0) }

  function Link(chain: seq<int>, i: nat): int { if i < |chain| then chain[i] else -1 }

  ghost predicate LinkOk(s: Pool, chain: seq<int>, i: nat)
    requires i < |chain|
  {
    1 <= chain[i] < Total(s) && NextFree(s, chain[i]) == Link(chain, i + 1)
  }

  /** From the header, the links run through the pages of `chain`, each once, and end in -1. */
  ghost predicate ChainOk(s: Pool, chain: seq<int>) {
    && 1 <= Total(s) <= TWO_31
    && Head(s) == Link(chain, 0)
    && (forall i: nat {:trigger LinkOk(s, chain, i)} :: i < |chain| ==> LinkOk(s, chain, i))
    && (forall i, j :: 0 <= i < j < |chain| ==> chain[i] != chain[j])
  }

  /** The pages that were handed out and not given back. */
  ghost function Allocated(s: Pool, chain: seq<int>): set<int> {
    set id | 1 <= id < Total(s) && id !in chain
  }

  /** The chain of a file that no cache holds pages of. */
  ghost predicate FileOk(disk: map<int, Bytes>, chain: seq<int>) {
    ChainOk(Pool([], [], map[], [], disk), chain)
  }

  /** The chain is a matter of contents, so nothing that keeps them, such as eviction and reading back, breaks it. */
  lemma ChainSurvives(s: Pool, s': Pool, chain: seq<int>)
    requires ChainOk(s, chain) && SameContent(s, s')
    ensures ChainOk(s', chain) && Allocated(s', chain) == Allocated(s, chain) && Total(s') == Total(s)
  {
    assert Content(s', 0) == Content(s, 0);
    forall i: nat | i < |chain| ensures LinkOk(s', chain, i) {
      assert LinkOk(s, chain, i) && Content(s', chain[i]) == Content(s, chain[i]);
    }
  }

  /** Clients may write any page that is neither the header nor free. */
  lemma ChainIgnores(s: Pool, s': Pool, chain: seq<int>, id: int)
    requires ChainOk(s, chain) && SameElsewhere(s, s', id) && id != 0 && id !in chain
    ensures ChainOk(s', chain) && Allocated(s', chain) == Allocated(s, chain)
  {
    assert Content(s', 0) == Content(s, 0);
    forall i: nat | i < |chain| ensures LinkOk(s', chain, i) {
      assert LinkOk(s, chain, i) && Content(s', chain[i]) == Content(s, chain[i]);
    }
  }

  /** Moving the head to the next free page takes exactly the first page off the chain. */
  lemma PopChain(s: Pool, s': Pool, chain: seq<int>)
    requires ChainOk(s, chain) && chain != [] && SameElsewhere(s, s', 0)
    requires Content(s', 0) == PutI32(Content(s, 0), 8, NextFree(s, chain[0]))
    ensures ChainOk(s', chain[1..]) && Allocated(s', chain[1..]) == Allocated(s, chain) + {chain[0]}
    ensures chain[0] !in Allocated(s, chain) && Total(s') == Total(s)
  {
    var rest := chain[1..];
    PutGetI32(Content(s, 0), 8, NextFree(s, chain[0]));
    assert LinkOk(s, chain, 0);
    forall i: nat | i < |rest| ensures LinkOk(s', rest, i) {
      assert LinkOk(s, chain, i + 1) && Content(s', rest[i]) == Content(s, chain[i + 1]);
    }
    forall id ensures id in chain <==> id in rest || id == chain[0] {}
    assert chain[0] !in rest;
  }

  /** With no free page, the file grows by one. */
  lemma GrowFile(s: Pool, s': Pool, chain: seq<int>)
    requires ChainOk(s, chain) && chain == [] && SameElsewhere(s, s', 0) && Total(s) < TWO_31
    requires Content(s', 0) == PutU32(Content(s, 0), 4, Total(s) + 1)
    ensures ChainOk(s', chain) && Allocated(s', chain) == Allocated(s, chain) + {Total(s)}
    ensures Total(s) !in Allocated(s, chain) && Total(s') == Total(s) + 1
  {
    PutGetU32(Content(s, 0), 4, Total(s) + 1);
  }

  /** A freed page that links to the old head and becomes the head is the new first page of the chain. */
  lemma PushChain(s: Pool, s': Pool, chain: seq<int>, id: int)
    requires ChainOk(s, chain) && id in Allocated(s, chain)
    requires forall k {:trigger Content(s', k)} :: k != 0 && k != id ==> Content(s', k) == Content(s, k)
    requires Content(s', id) == PutI32(ZeroPage(), 0, Head(s)) && Content(s', 0) == PutI32(Content(s, 0), 8, id)
    ensures ChainOk(s', [id] + chain) && Allocated(s', [id] + chain) == Allocated(s, chain) - {id}
      && Total(s') == Total(s)
  {
    var longer := [id] + chain;
    PutGetI32(Content(s, 0), 8, id);
    PutGetI32(ZeroPage(), 0, Head(s));
    forall i: nat | i < |longer| ensures LinkOk(s', longer, i) {
      if i > 0 { assert LinkOk(s, chain, i - 1) && Content(s', longer[i]) == Content(s, chain[i - 1]); }
    }
    forall k ensures k in longer <==> k in chain || k == id {
      if k in chain {
        var i :| 0 <= i < |chain| && chain[i] == k;
        assert longer[i + 1] == k;
      }
    }
  }

  /** The header of a new file, byte by byte: page size 4096, one page, no freed page. */
  function HeaderByte(i: nat): Byte { if i == 1 then 0x10 else if i == 4 then 1 else if 8 <= i < 12 then 0xff else 0 }

  lemma HeaderBytes()
    ensures forall i :: 0 <= i < PAGE_SIZE ==>
      PutI32(PutU32(PutU32(ZeroPage(), 0, PAGE_SIZE), 4, 1), 8, -1)[i] == HeaderByte(i)
  {
  }

  /** A fresh header describes a file with no other page. */
  lemma FreshHeader(s: Pool)
    requires Content(s, 0) == PutI32(PutU32(PutU32(ZeroPage(), 0, PAGE_SIZE), 4, 1), 8, -1)
    ensures ChainOk(s, []) && Allocated(s, []) == {}
  {
    PutGetU32(ZeroPage(), 0, PAGE_SIZE);
    PutGetU32(PutU32(ZeroPage(), 0, PAGE_SIZE), 4, 1);
    PutGetI32(PutU32(PutU32(ZeroPage(), 0, PAGE_SIZE), 4, 1), 8, -1);
  }
}
