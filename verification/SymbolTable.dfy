/** The open-addressing hash table with linear probing, tombstones and doubling, for any hash function. */
module SymbolTable {
  import opened Bits
  import opened Sums
  import opened Wrappers

  /** A slot and its state; an empty slot's default key and value are never read. */
  datatype Slot<K, V> = Empty | Deleted(key: K, value: V) | Occupied(key: K, value: V)

  function IsOccupied<K, V>(s: Slot<K, V>): nat { if s.Occupied? then 1 else 0 }

  function IsDeleted<K, V>(s: Slot<K, V>): nat { if s.Deleted? then 1 else 0 }

  // ---- probe sequences

  /** The slot probed after i steps from `start`, going round once. */
  function Probe(start: nat, i: nat, capacity: nat): nat
    requires start < capacity && i < capacity
  {
    if start + i < capacity then start + i else start + i - capacity
  }

  /** After how many steps a slot is probed. */
  function Distance(start: nat, index: nat, capacity: nat): (i: nat)
    requires start < capacity && index < capacity
    ensures i < capacity && Probe(start, i, capacity) == index
  {
    if start <= index then index - start else index + capacity - start
  }

  /** `(index + 1) & mask` is the next slot of the probe sequence. */
  lemma NextProbe(start: nat, i: nat, e: nat)
    requires start < Pow2(e) && i < Pow2(e)
    ensures And(Probe(start, i, Pow2(e)) + 1, Pow2(e) - 1) == if i + 1 < Pow2(e) then Probe(start, i + 1, Pow2(e))
      else start
  {
    var index := Probe(start, i, Pow2(e));
    AndMask(index + 1, e);
    if index + 1 < Pow2(e) {
      QuotientUnique(index + 1, Pow2(e), 0, index + 1);
    } else {
      QuotientUnique(index + 1, Pow2(e), 1, 0);
    }
  }

  function Start<K>(hash: K -> nat, key: K, capacity: nat): nat
    requires capacity > 0
  {
    And(hash(key), capacity - 1)
  }

  lemma StartInRange<K>(hash: K -> nat, key: K, e: nat)
    ensures Start(hash, key, Pow2(e)) < Pow2(e)
  {
    AndMask(hash(key), e);
  }

  // ---- what the slots represent

  /** No slot before step d of the key's probe sequence is empty. */
  ghost predicate PathFull<K, V>(slots: seq<Slot<K, V>>, start: nat, d: nat)
    requires start < |slots| && d <= |slots|
  {
    forall i :: 0 <= i < d ==> !slots[Probe(start, i, |slots|)].Empty?
  }

  /** The slot at j holds the key that `at` locates there, and probing for that key reaches j. */
  ghost predicate SlotOk<K, V>(slots: seq<Slot<K, V>>, hash: K -> nat, at: map<K, nat>, j: nat)
    requires j < |slots|
  {
    slots[j].Occupied? ==>
      && slots[j].key in at && at[slots[j].key] == j
      && Start(hash, slots[j].key, |slots|) < |slots|
      && PathFull(slots, Start(hash, slots[j].key, |slots|), Distance(Start(hash, slots[j].key, |slots|), j, |slots|))
  }

  /** `at` says where each key of the table is: every key is in exactly one occupied slot. */
  ghost predicate Represents<K(!new), V>(slots: seq<Slot<K, V>>, hash: K -> nat, at: map<K, nat>) {
    && (forall j {:trigger SlotOk(slots, hash, at, j)} :: 0 <= j < |slots| ==> SlotOk(slots, hash, at, j))
    && (forall k :: k in at ==> at[k] < |slots| && slots[at[k]].Occupied? && slots[at[k]].key == k)
  }

  ghost function Contents<K(!new), V>(slots: seq<Slot<K, V>>, hash: K -> nat, at: map<K, nat>): map<K, V>
    requires Represents(slots, hash, at)
  {
    map k | k in at :: slots[at[k]].value
  }

  /** A probe that meets an empty slot has met the key, if the key is in the table. */
  lemma AbsentAtEmpty<K(!new), V>(slots: seq<Slot<K, V>>, hash: K -> nat, at: map<K, nat>, key: K, i: nat)
    requires Represents(slots, hash, at) && i <= |slots| && slots != [] && Start(hash, key, |slots|) < |slots|
    requires var start := Start(hash, key, |slots|);
      && (i == |slots| || slots[Probe(start, i, |slots|)].Empty?)
      && forall j :: 0 <= j < i ==> var s := slots[Probe(start, j, |slots|)]; !(s.Occupied? && s.key == key)
    ensures key !in at
  {
    assert key in at ==> SlotOk(slots, hash, at, at[key]);
  }

  lemma {:induction false} SumsToLength<K, V>(slots: seq<Slot<K, V>>)
    requires forall j :: 0 <= j < |slots| ==> !slots[j].Empty?
    ensures Sum(slots, IsOccupied) + Sum(slots, IsDeleted) == |slots|
    decreases |slots|
  {
    if slots != [] { SumsToLength(slots[..|slots| - 1]); }
  }

  /** A full circle that meets no empty slot means there is none, which the counters exclude. */
  lemma EmptyOnCircle<K, V>(slots: seq<Slot<K, V>>, start: nat)
    requires start < |slots| && PathFull(slots, start, |slots|)
    ensures Sum(slots, IsOccupied) + Sum(slots, IsDeleted) == |slots|
  {
    forall j | 0 <= j < |slots| ensures !slots[j].Empty? {
      assert Probe(start, Distance(start, j, |slots|), |slots|) == j;
    }
    SumsToLength(slots);
  }

  /** All slots before step d of a probe sequence are occupied. */
  ghost predicate AllOccupied<K, V>(slots: seq<Slot<K, V>>, start: nat, d: nat)
    requires start < |slots| && d <= |slots|
  {
    forall j :: 0 <= j < d ==> slots[Probe(start, j, |slots|)].Occupied?
  }

  /** p is the first slot of the probe sequence that holds no key: an empty slot or a tombstone. */
  ghost predicate FirstFree<K, V>(slots: seq<Slot<K, V>>, start: nat, p: nat) {
    start < |slots| && p < |slots| && !slots[p].Occupied? && AllOccupied(slots, start, Distance(start, p, |slots|))
  }

  lemma DistanceOfProbe(start: nat, d: nat, capacity: nat)
    requires start < capacity && d < capacity
    ensures Distance(start, Probe(start, d, capacity), capacity) == d
  {
  }

  /** One more slot probed: the first free one is still the first tombstone, if there was one. */
  lemma StillFirst<K, V>(slots: seq<Slot<K, V>>, start: nat, i: nat)
    requires start < |slots| && i < |slots| && AllOccupied(slots, start, i) && slots[Probe(start, i, |slots|)].Occupied?
    ensures AllOccupied(slots, start, i + 1)
  {
  }

  lemma NoneProbed<K, V>(slots: seq<Slot<K, V>>)
    ensures forall start :: 0 <= start < |slots| ==> AllOccupied(slots, start, 0)
  {
  }

  lemma KeyHere<K(!new), V>(slots: seq<Slot<K, V>>, hash: K -> nat, at: map<K, nat>, j: nat)
    requires Represents(slots, hash, at) && j < |slots| && slots[j].Occupied?
    ensures slots[j].key in at && at[slots[j].key] == j
  {
    assert SlotOk(slots, hash, at, j);
  }

  // ---- the effects of the three operations on the slots

  /** Filling a free slot that ends a full path with a new key. */
  lemma FillSlot<K(!new), V>(slots: seq<Slot<K, V>>, hash: K -> nat, at: map<K, nat>, key: K, value: V, d: nat)
    requires Represents(slots, hash, at) && key !in at && d < |slots| && Start(hash, key, |slots|) < |slots|
    requires var start := Start(hash, key, |slots|);
      PathFull(slots, start, d) && !slots[Probe(start, d, |slots|)].Occupied?
    ensures var p := Probe(Start(hash, key, |slots|), d, |slots|);
      var slots' := slots[p := Occupied(key, value)];
      Represents(slots', hash, at[key := p])
        && Contents(slots', hash, at[key := p]) == Contents(slots, hash, at)[key := value]
  {
    var start := Start(hash, key, |slots|);
    var p := Probe(start, d, |slots|);
    var slots' := slots[p := Occupied(key, value)];
    var at' := at[key := p];
    assert Distance(start, p, |slots|) == d;
    forall j | 0 <= j < |slots'| ensures SlotOk(slots', hash, at', j) { assert SlotOk(slots, hash, at, j); }
  }

  lemma EmptyPath<K, V>(slots: seq<Slot<K, V>>, start: nat)
    requires start < |slots|
    ensures PathFull(slots, start, 0)
  {
  }

  lemma LongerPath<K, V>(slots: seq<Slot<K, V>>, start: nat, d: nat)
    requires start < |slots| && d < |slots| && PathFull(slots, start, d) && !slots[Probe(start, d, |slots|)].Empty?
    ensures PathFull(slots, start, d + 1)
  {
  }

  /** Filling a slot of a table without tombstones keeps its counters exact. */
  lemma FillFresh<K(!new), V>(slots: seq<Slot<K, V>>, at: map<K, nat>, key: K, value: V, p: nat)
    requires key !in at && p < |slots| && !slots[p].Occupied?
    requires Sum(slots, IsDeleted) == 0 && Sum(slots, IsOccupied) == |at|
    ensures var slots' := slots[p := Occupied(key, value)]; var at' := at[key := p];
      && Sum(slots', IsDeleted) == 0 && Sum(slots', IsOccupied) == |at'| && at'.Keys == at.Keys + {key}
  {
    SumUpdate(slots, p, Occupied(key, value), IsOccupied);
    SumUpdate(slots, p, Occupied(key, value), IsDeleted);
    SumBounds(slots, IsDeleted, p);
    assert at[key := p].Keys == at.Keys + {key};
  }

  /** Overwriting the value of a key in place. */
  lemma UpdateSlot<K(!new), V>(slots: seq<Slot<K, V>>, hash: K -> nat, at: map<K, nat>, p: nat, value: V)
    requires Represents(slots, hash, at) && p < |slots| && slots[p].Occupied?
    ensures var slots' := slots[p := Occupied(slots[p].key, value)];
      Represents(slots', hash, at) && Contents(slots', hash, at) == Contents(slots, hash, at)[slots[p].key := value]
  {
    var slots' := slots[p := Occupied(slots[p].key, value)];
    assert SlotOk(slots, hash, at, p);
    forall j | 0 <= j < |slots'| ensures SlotOk(slots', hash, at, j) { assert SlotOk(slots, hash, at, j); }
  }

  /** A tombstone in place of a key cuts no other key's probe path. */
  lemma DeleteSlot<K(!new), V>(slots: seq<Slot<K, V>>, hash: K -> nat, at: map<K, nat>, p: nat)
    requires Represents(slots, hash, at) && p < |slots| && slots[p].Occupied?
    ensures var slots' := slots[p := Deleted(slots[p].key, slots[p].value)]; var at' := at - {slots[p].key};
      Represents(slots', hash, at') && Contents(slots', hash, at') == Contents(slots, hash, at) - {slots[p].key}
  {
    var slots' := slots[p := Deleted(slots[p].key, slots[p].value)];
    assert SlotOk(slots, hash, at, p);
    var at' := at - {slots[p].key};
    forall j | 0 <= j < |slots'| ensures SlotOk(slots', hash, at', j) { assert SlotOk(slots, hash, at, j); }
  }

  /** The new slots hold exactly the keys of the first n old slots, with their values. */
  ghost predicate Moved<K(!new),
      V>(slots: seq<Slot<K, V>>, hash: K -> nat, at: map<K, nat>, n: nat, slots': seq<Slot<K, V>>, at': map<K, nat>) {
    && Represents(slots, hash, at) && Represents(slots', hash, at')
    && (forall k :: k in at' <==> k in at && at[k] < n)
    && (forall k :: k in at' ==> Contents(slots', hash, at')[k] == Contents(slots, hash, at)[k])
  }

  lemma NothingMoved<K(!new), V>(slots: seq<Slot<K, V>>, hash: K -> nat, at: map<K, nat>, slots': seq<Slot<K, V>>)
    requires Represents(slots, hash, at) && forall j :: 0 <= j < |slots'| ==> slots'[j].Empty?
    ensures Represents(slots', hash, map[]) && Moved(slots, hash, at, 0, slots', map[])
  {
    var none: map<K, nat> := map[];
    forall j | 0 <= j < |slots'| ensures SlotOk(slots', hash, none, j) {}
  }

  lemma KeyOfSlot<K(!new),
      V>(slots: seq<Slot<K, V>>, hash: K -> nat, at: map<K, nat>, i: nat, slots': seq<Slot<K, V>>, at': map<K, nat>)
    requires Moved(slots, hash, at, i, slots', at') && i < |slots| && slots[i].Occupied?
    ensures slots[i].key in at && at[slots[i].key] == i && slots[i].key !in at' && |at'| < |at|
  {
    assert SlotOk(slots, hash, at, i);
    SmallerMap(at', at, slots[i].key);
  }

  lemma SmallerMap<K, A>(m: map<K, A>, n: map<K, A>, k: K)
    requires (forall x :: x in m ==> x in n) && k in n && k !in m
    ensures |m| < |n|
  {
    SmallerSet(m.Keys, n.Keys - {k});
    assert |n.Keys - {k}| == |n.Keys| - 1;
  }

  lemma MoveStep<K(!new), V>(slots: seq<Slot<K, V>>, hash: K -> nat, at: map<K, nat>, i: nat,
                            slots': seq<Slot<K, V>>, at': map<K, nat>, slots'': seq<Slot<K, V>>, at'': map<K, nat>)
    requires Moved(slots, hash, at, i, slots', at') && i < |slots|
    requires slots[i].Occupied? ==>
      && Represents(slots'', hash, at'') && at''.Keys == at'.Keys + {slots[i].key}
      && Contents(slots'', hash, at'') == Contents(slots', hash, at')[slots[i].key := slots[i].value]
    requires !slots[i].Occupied? ==> slots'' == slots' && at'' == at'
    ensures Moved(slots, hash, at, i + 1, slots'', at'') && Represents(slots'', hash, at'')
  {
    assert SlotOk(slots, hash, at, i);
    forall k | k in at'' ensures k in at && at[k] < i + 1
      && Contents(slots'', hash, at'')[k] == Contents(slots, hash, at)[k] {
      assert k in at' || k == slots[i].key;
      assert Contents(slots'', hash, at'')[k] == if slots[i].Occupied? && k == slots[i].key then slots[i].value
        else Contents(slots', hash, at')[k];
    }
    forall k | k in at && at[k] < i + 1 ensures k in at'' {
      assert at[k] < i || k == slots[i].key;
    }
  }

  lemma MovedSize<K(!new),
      V>(slots: seq<Slot<K, V>>, hash: K -> nat, at: map<K, nat>, n: nat, slots': seq<Slot<K, V>>, at': map<K, nat>)
    requires Moved(slots, hash, at, n, slots', at')
    ensures |at'| <= |at|
  {
    SmallerSet(at'.Keys, at.Keys);
  }

  lemma AllMoved<K(!new),
      V>(slots: seq<Slot<K, V>>, hash: K -> nat, at: map<K, nat>, slots': seq<Slot<K, V>>, at': map<K, nat>)
    requires Moved(slots, hash, at, |slots|, slots', at')
    ensures |at'| == |at| && Contents(slots', hash, at') == Contents(slots, hash, at)
  {
    assert at'.Keys == at.Keys;
  }

  class SymbolTable<K(!new, ==), V> {
    const hash: K -> nat
    var slots: seq<Slot<K, V>>
    var capacity: nat
    var count: nat
    var tombstones: nat

    ghost var exponent: nat          // capacity == 2^exponent
    ghost var at: map<K, nat>        // where each key is

    ghost predicate Valid()
      reads this
    {
      && capacity == |slots| == Pow2(exponent)
      && Represents(slots, hash, at)
      && count == |at| == Sum(slots, IsOccupied) && tombstones == Sum(slots, IsDeleted)
      && count + tombstones < capacity
    }

    /** The map the table stands for. */
    ghost function Model(): map<K, V>
      reads this
      requires Valid()
    {
      Contents(slots, hash, at)
    }

    constructor (hash: K -> nat, ghost e: nat, initialCapacity: nat)
      requires initialCapacity == Pow2(e)
      ensures Valid() && Model() == map[] && this.hash == hash && capacity == initialCapacity
    {
      this.hash := hash;
      slots := seq(initialCapacity, _ => Empty);
      capacity, count, tombstones := initialCapacity, 0, 0;
      exponent, at := e, map[];
      new;
      SumConstant(slots, IsOccupied, 0);
      SumConstant(slots, IsDeleted, 0);
      forall j | 0 <= j < |slots| ensures SlotOk(slots, hash, at, j) {}
    }

    /** `insertRaw`: the first slot of the probe sequence that is not occupied takes the key. */
    method InsertRaw(s: seq<Slot<K, V>>, ghost at0: map<K, nat>, ghost e: nat, key: K, value: V)
        returns (s': seq<Slot<K, V>>, ghost at': map<K, nat>)
      requires |s| == Pow2(e) && Represents(s, hash, at0) && key !in at0
      requires Sum(s, IsDeleted) == 0 && Sum(s, IsOccupied) == |at0| < |s|
      ensures |s'| == |s| && Represents(s', hash, at') && at'.Keys == at0.Keys + {key}
      ensures Contents(s', hash, at') == Contents(s, hash, at0)[key := value]
      ensures Sum(s', IsDeleted) == 0 && Sum(s', IsOccupied) == |at'|
    {
      hide Represents, Contents, And, Pow2, Sum, PathFull;
      StartInRange(hash, key, e);
      var start := Start(hash, key, |s|);
      EmptyPath(s, start);
      var index := start;
      ghost var i := 0;
      while true
        invariant i < |s| && index == Probe(start, i, |s|) && PathFull(s, start, i)
        decreases |s| - i
      {
        if !s[index].Occupied? {
          s' := s[index := Occupied(key, value)];
          FillSlot(s, hash, at0, key, value, i);
          FillFresh(s, at0, key, value, index);
          at' := at0[key := index];
          return;
        }
        LongerPath(s, start, i);
        NextProbe(start, i, e);
        index := And(index + 1, |s| - 1);
        i := i + 1;
        if i == |s| { EmptyOnCircle(s, start); }
      }
    }

    /** One round of the loop of `resize`: slot i is reinserted if it is occupied. */
    method MoveOne(s: seq<Slot<K, V>>, ghost at0: map<K, nat>, i: nat, t: seq<Slot<K, V>>, ghost at1: map<K, nat>,
        ghost e: nat)
      returns (t': seq<Slot<K, V>>, ghost at': map<K, nat>)
      requires i < |s| && |at0| < |t| == Pow2(e) && Moved(s, hash, at0, i, t, at1) && Represents(t, hash, at1)
      requires Sum(t, IsDeleted) == 0 && Sum(t, IsOccupied) == |at1| <= |at0|
      ensures |t'| == |t| && Moved(s, hash, at0, i + 1, t', at') && Represents(t', hash, at')
      ensures Sum(t', IsDeleted) == 0 && Sum(t', IsOccupied) == |at'| <= |at0|
    {
      hide Represents, Contents, Sum, Moved, Pow2;
      t', at' := t, at1;
      if s[i].Occupied? {
        KeyOfSlot(s, hash, at0, i, t, at1);
        t', at' := InsertRaw(t, at1, e, s[i].key, s[i].value);
      }
      MoveStep(s, hash, at0, i, t, at1, t', at');
      MovedSize(s, hash, at0, i + 1, t', at');
    }

    /** The loop of `resize`: reinsert everything that is occupied. */
    method Rehash(s: seq<Slot<K, V>>, ghost at0: map<K, nat>, ghost e: nat, newCapacity: nat)
      returns (newSlots: seq<Slot<K, V>>, ghost at': map<K, nat>)
      requires Represents(s, hash, at0) && |at0| < |s| <= newCapacity == Pow2(e)
      ensures |newSlots| == newCapacity && Represents(newSlots, hash, at') && |at'| == |at0|
      ensures Contents(newSlots, hash, at') == Contents(s, hash, at0)
      ensures Sum(newSlots, IsDeleted) == 0 && Sum(newSlots, IsOccupied) == |at'|
    {
      hide Represents, Contents, Sum, Moved, Pow2;
      newSlots := seq(newCapacity, _ => Empty);
      at' := map[];
      SumConstant(newSlots, IsOccupied, 0);
      SumConstant(newSlots, IsDeleted, 0);
      NothingMoved(s, hash, at0, newSlots);
      for i := 0 to |s|
        invariant |newSlots| == newCapacity && Represents(newSlots, hash, at') && Moved(s, hash, at0, i, newSlots, at')
        invariant Sum(newSlots, IsDeleted) == 0 && Sum(newSlots, IsOccupied) == |at'| <= |at0|
      {
        newSlots, at' := MoveOne(s, at0, i, newSlots, at', e);
      }
      AllMoved(s, hash, at0, newSlots, at');
    }

    /** `resize`: the same map in a table of the new size; the tombstones disappear. */
    method Resize(newCapacity: nat)
      requires Valid() && newCapacity == 2 * capacity
      modifies this
      ensures Valid() && Model() == old(Model()) && capacity == newCapacity && tombstones == 0 && count == old(count)
    {
      hide Represents, Contents, Sum;
      ghost var at';
      slots, at' := Rehash(slots, at, exponent + 1, newCapacity);
      capacity := newCapacity;
      tombstones := 0;
      at := at';
      exponent := exponent + 1;
    }

    /** The assignments that end a successful probe for a new key. */
    method Occupy(dest: nat, key: K, value: V, ghost d: nat)
      requires Valid() && count + 1 + tombstones < capacity && key !in at && d < capacity
        && Start(hash, key, capacity) < capacity
      requires PathFull(slots, Start(hash, key, capacity), d) && dest == Probe(Start(hash, key, capacity), d, capacity)
      requires !slots[dest].Occupied?
      modifies this
      ensures Valid() && Model() == old(Model())[key := value] && capacity == old(capacity)
        && at == old(at)[key := dest]
    {
      hide Represents, Contents, Sum, Start, PathFull;
      var wasTombstone := slots[dest].Deleted?;
      FillSlot(slots, hash, at, key, value, d);
      SumUpdate(slots, dest, Occupied(key, value), IsOccupied);
      SumUpdate(slots, dest, Occupied(key, value), IsDeleted);
      SumBounds(slots, IsDeleted, dest);
      slots := slots[dest := Occupied(key, value)];
      at := at[key := dest];
      count := count + 1;
      if wasTombstone { tombstones := tombstones - 1; }
    }

    /** The assignment that ends a probe for a key that is there. */
    method Overwrite(index: nat, key: K, value: V)
      requires Valid() && index < capacity && slots[index].Occupied? && slots[index].key == key
      modifies this
      ensures Valid() && Model() == old(Model())[key := value] && capacity == old(capacity) && at == old(at)
    {
      hide Represents, Contents, Sum;
      UpdateSlot(slots, hash, at, index, value);
      SumUpdate(slots, index, Occupied(key, value), IsOccupied);
      SumUpdate(slots, index, Occupied(key, value), IsDeleted);
      slots := slots[index := Occupied(key, value)];
    }

    /** The probe loop of `insert`: a new key takes the first slot on its way that holds no key. */
    method InsertProbe(key: K, value: V) returns (ok: bool)
      requires Valid() && count + 1 + tombstones < capacity
      modifies this
      ensures Valid() && ok && Model() == old(Model())[key := value] && capacity == old(capacity)
      ensures if key in old(at) then at == old(at)
        else key in at && at == old(at)[key := at[key]] && FirstFree(old(slots), Start(hash, key, capacity), at[key])
    {
      hide Represents, Contents, Sum, And, AllOccupied;
      NoneProbed(slots);
      StartInRange(hash, key, exponent);
      var start := Start(hash, key, capacity);
      var index := start;
      var firstTombstone: int := -1;
      ghost var i, t := 0, 0;
      while true
        invariant unchanged(this)
        invariant i < capacity && index == Probe(start, i, capacity) && PathFull(slots, start, i)
        invariant forall j :: 0 <= j < i ==> var s := slots[Probe(start, j, capacity)]; !(s.Occupied? && s.key == key)
        invariant firstTombstone != -1 ==>
          t < i && firstTombstone == Probe(start, t, capacity) && slots[firstTombstone].Deleted?
        invariant AllOccupied(slots, start, if firstTombstone != -1 then t else i)
        decreases capacity - i
      {
        var s := slots[index];
        if s.Empty? {
          AbsentAtEmpty(slots, hash, at, key, i);
          DistanceOfProbe(start, if firstTombstone != -1 then t else i, capacity);
          Occupy(if firstTombstone != -1 then firstTombstone else index, key, value, if firstTombstone != -1 then t
            else i);
          return true;
        }
        if s.Deleted? {
          if firstTombstone == -1 { firstTombstone, t := index, i; }
        } else if s.key == key {
          KeyHere(slots, hash, at, index);
          Overwrite(index, key, value);
          return true;
        }
        if firstTombstone == -1 { StillFirst(slots, start, i); }
        NextProbe(start, i, exponent);
        index := And(index + 1, capacity - 1);
        i := i + 1;
        if i == capacity { EmptyOnCircle(slots, start); }
        if index == start { return false; }
      }
    }

    /** `insert`: the key is mapped to the value; it never fails, and the table doubles exactly when the load
        would exceed 0.7. Without doubling no key moves, and a new one reuses the first tombstone on its way. */
    method Insert(key: K, value: V) returns (ok: bool)
      requires Valid()
      modifies this
      ensures Valid() && ok && Model() == old(Model())[key := value]
      ensures capacity == if 10 * old(count + tombstones + 1) > 7 * old(capacity) then 2 * old(capacity)
        else old(capacity)
      ensures capacity == old(capacity) ==>
        if key in old(at) then at == old(at)
        else key in at && at == old(at)[key := at[key]] && FirstFree(old(slots), Start(hash, key, capacity), at[key])
    {
      hide Represents, Contents, Sum;
      if 10 * (count + tombstones + 1) > 7 * capacity { Resize(capacity * 2); }
      ok := InsertProbe(key, value);
    }

    /** `lookup` */
    method Lookup(key: K) returns (r: Option<V>)
      requires Valid()
      ensures r == if key in Model() then Some(Model()[key]) else None
    {
      hide And, Pow2, Sum;
      StartInRange(hash, key, exponent);
      var start := Start(hash, key, capacity);
      var index := start;
      ghost var i := 0;
      while true
        invariant i < capacity && index == Probe(start, i, capacity)
        invariant forall j :: 0 <= j < i ==> var s := slots[Probe(start, j, capacity)]; !(s.Occupied? && s.key == key)
        decreases capacity - i
      {
        var s := slots[index];
        if s.Empty? {
          AbsentAtEmpty(slots, hash, at, key, i);
          return None;
        }
        if s.Occupied? && s.key == key {
          assert SlotOk(slots, hash, at, index);
          return Some(s.value);
        }
        NextProbe(start, i, exponent);
        index := And(index + 1, capacity - 1);
        i := i + 1;
        if index == start {
          if i == capacity { AbsentAtEmpty(slots, hash, at, key, i); }
          return None;
        }
      }
    }

    /** `size`: the exact number of keys. */
    method Size() returns (n: nat)
      requires Valid()
      ensures n == |Model()|
    {
      assert Model().Keys == at.Keys;
      n := count;
    }

    /** The assignments that end a successful probe of `remove`. */
    method Bury(index: nat, key: K)
      requires Valid() && index < capacity && slots[index].Occupied? && slots[index].key == key && key in at
      modifies this
      ensures Valid() && Model() == old(Model()) - {key} && capacity == old(capacity)
    {
      hide Represents, Contents, Sum;
      var tomb := Deleted(slots[index].key, slots[index].value);
      DeleteSlot(slots, hash, at, index);
      SumUpdate(slots, index, tomb, IsOccupied);
      SumUpdate(slots, index, tomb, IsDeleted);
      SumBounds(slots, IsOccupied, index);
      RemovedFromMap(at, key);
      slots := slots[index := tomb];
      at := at - {key};
      count := count - 1;
      tombstones := tombstones + 1;
    }

    /** `remove`: whether the key was there; it no longer is. */
    method Remove(key: K) returns (found: bool)
      requires Valid()
      modifies this
      ensures Valid() && found == (key in old(Model())) && Model() == old(Model()) - {key}
      ensures capacity == old(capacity)
    {
      hide Sum, And, Pow2;
      StartInRange(hash, key, exponent);
      var start := Start(hash, key, capacity);
      var index := start;
      ghost var i := 0;
      while true
        invariant unchanged(this)
        invariant i < capacity && index == Probe(start, i, capacity)
        invariant forall j :: 0 <= j < i ==> var s := slots[Probe(start, j, capacity)]; !(s.Occupied? && s.key == key)
        decreases capacity - i
      {
        var s := slots[index];
        if s.Empty? {
          AbsentAtEmpty(slots, hash, at, key, i);
          return false;
        }
        if s.Occupied? && s.key == key {
          assert SlotOk(slots, hash, at, index);
          Bury(index, key);
          return true;
        }
        NextProbe(start, i, exponent);
        index := And(index + 1, capacity - 1);
        i := i + 1;
        if index == start {
          if i == capacity { AbsentAtEmpty(slots, hash, at, key, i); }
          return false;
        }
      }
    }
  }

  lemma RemovedFromMap<K, A>(m: map<K, A>, k: K)
    requires k in m
    ensures |m - {k}| == |m| - 1
  {
    assert (m - {k}).Keys == m.Keys - {k};
  }
}
