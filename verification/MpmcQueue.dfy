/** The bounded multi-producer multi-consumer queue with per-slot sequence numbers, under its stress test:
    any producers and consumers, one step per atomic access, in any interleaving. */
module MpmcQueue {
  import opened Bits
  import opened Lists
  import opened Sums

  type Value = int

  /** The ring size, the values each producer pushes in order, and how many values each consumer pops. */
  datatype Config = Config(capacity: nat, items: seq<seq<Value>>, quotas: seq<nat>)

  datatype Slot = Slot(data: Value, sequence: nat)

  /** The next access of a producer in queue_push: load tail, load the slot's sequence, compare-and-swap tail, load tail
      again, write the data, publish the sequence. */
  datatype PPc = PLoad | PSequence | PCas | PReload | PWrite | PPublish | PDone
  datatype Producer = Producer(pc: PPc, i: nat, pos: nat)

  /** The same for a consumer in queue_pop, and then the entry in `received`. */
  datatype CPc = CLoad | CSequence | CCas | CReload | CRead | CPublish | CReceive | CDone
  datatype Consumer = Consumer(pc: CPc, count: nat, pos: nat, val: Value)

  /** The last three fields are history: which item was claimed at each position, which consumer claimed each
      position, and the positions whose value is entered in `received`. No step reads them. */
  datatype State = State(
    slots: seq<Slot>, head: nat, tail: nat,
    prods: seq<Producer>, cons: seq<Consumer>, received: multiset<Value>,
    who: seq<(nat, nat)>, taker: seq<nat>, done: set<nat>)

  // ---- the program

  function NextItem(c: Config, t: nat, i: nat): PPc
    requires t < |c.items|
  {
    if i < |c.items[t]| then PLoad else PDone
  }

  function NextCount(c: Config, t: nat, n: nat): CPc
    requires t < |c.quotas|
  {
    if n < c.quotas[t] then CLoad else CDone
  }

  function Initial(c: Config): State
    requires c.capacity > 0
  {
    State(seq(c.capacity, i requires 0 <= i => Slot(0, i)), 0, 0,
          seq(|c.items|, t requires 0 <= t < |c.items| => Producer(NextItem(c, t, 0), 0, 0)),
          seq(|c.quotas|, t requires 0 <= t < |c.quotas| => Consumer(NextCount(c, t, 0), 0, 0, 0)),
          multiset{}, [], [], {})
  }

  ghost predicate Shape(c: Config, s: State) {
    && c.capacity >= 2 && |s.slots| == c.capacity
    && |s.prods| == |c.items| && |s.cons| == |c.quotas|
    && |s.who| == s.tail && |s.taker| == s.head && s.head <= s.tail <= s.head + c.capacity
  }

  function SlotOf(c: Config, p: nat): nat
    requires c.capacity > 0
  {
    p % c.capacity
  }

  /** One access of producer t. `spurious` lets the weak compare-and-swap fail without reason. */
  ghost function ProducerStep(c: Config, s: State, t: nat, spurious: bool): State
    requires Shape(c, s) && t < |s.prods| && s.prods[t].i < |c.items[t]|
  {
    var p := s.prods[t];
    var k := SlotOf(c, p.pos);
    match p.pc
    case PLoad => s.(prods := s.prods[t := p.(pc := PSequence, pos := s.tail)])
    case PSequence =>
      var diff := s.slots[k].sequence - p.pos;
      s.(prods := s.prods[t := p.(pc := if diff == 0 then PCas else if diff < 0 then PLoad else PReload)])
    case PReload => s.(prods := s.prods[t := p.(pc := PSequence, pos := s.tail)])
    case PCas =>
      if s.tail == p.pos && !spurious then
        s.(prods := s.prods[t := p.(pc := PWrite)], tail := s.tail + 1, who := s.who + [(t, p.i)])
      else
        s.(prods := s.prods[t := p.(pc := PSequence, pos := s.tail)])
    case PWrite =>
      s.(prods := s.prods[t := p.(pc := PPublish)], slots := s.slots[k := s.slots[k].(data := c.items[t][p.i])])
    case PPublish =>
      s.(prods := s.prods[t := p.(pc := NextItem(c, t, p.i + 1), i := p.i + 1)],
         slots := s.slots[k := s.slots[k].(sequence := p.pos + 1)])
    case PDone => s
  }

  ghost function ConsumerStep(c: Config, s: State, t: nat, spurious: bool): State
    requires Shape(c, s) && t < |s.cons|
  {
    var q := s.cons[t];
    var k := SlotOf(c, q.pos);
    match q.pc
    case CLoad => s.(cons := s.cons[t := q.(pc := CSequence, pos := s.head)])
    case CSequence =>
      var diff := s.slots[k].sequence - (q.pos + 1);
      s.(cons := s.cons[t := q.(pc := if diff == 0 then CCas else if diff < 0 then CLoad else CReload)])
    case CReload => s.(cons := s.cons[t := q.(pc := CSequence, pos := s.head)])
    case CCas =>
      if s.head == q.pos && !spurious then
        s.(cons := s.cons[t := q.(pc := CRead)], head := s.head + 1, taker := s.taker + [t])
      else
        s.(cons := s.cons[t := q.(pc := CSequence, pos := s.head)])
    case CRead => s.(cons := s.cons[t := q.(pc := CPublish, val := s.slots[k].data)])
    case CPublish =>
      s.(cons := s.cons[t := q.(pc := CReceive)], slots := s.slots[k := s.slots[k].(sequence := q.pos + c.capacity)])
    case CReceive =>
      s.(cons := s.cons[t := q.(pc := NextCount(c, t, q.count + 1), count := q.count + 1)],
         received := s.received + multiset{q.val}, done := s.done + {q.pos})
    case CDone => s
  }

  // ---- the invariant

  function SequenceAt(c: Config, s: State, p: nat): nat
    requires c.capacity == |s.slots| > 0
  {
    s.slots[SlotOf(c, p)].sequence
  }

  function DataAt(c: Config, s: State, p: nat): Value
    requires c.capacity == |s.slots| > 0
  {
    s.slots[SlotOf(c, p)].data
  }

  ghost predicate IsItem(c: Config, w: (nat, nat)) {
    w.0 < |c.items| && w.1 < |c.items[w.0]|
  }

  /** The value claimed at position p. */
  ghost function ValueAt(c: Config, s: State, p: nat): Value {
    if p < |s.who| && IsItem(c, s.who[p]) then c.items[s.who[p].0][s.who[p].1] else 0
  }

  ghost function Is(c: Config, w: (nat, nat), v: Value): nat { if IsItem(c, w) && c.items[w.0][w.1] == v then 1 else 0 }

  /** At how many of the received positions below n the value is v. */
  ghost function DoneCount(c: Config, who: seq<(nat, nat)>, done: set<nat>, n: nat, v: Value): nat
    requires n <= |who|
  {
    if n == 0 then 0
    else DoneCount(c, who, done, n - 1, v) + if n - 1 in done then Is(c, who[n - 1], v) else 0
  }

  /** The producer has claimed a position and not yet published it. */
  predicate Pushing(p: Producer) { p.pc == PWrite || p.pc == PPublish }

  /** The consumer has claimed a position and not yet given its slot back. */
  predicate Popping(q: Consumer) { q.pc == CRead || q.pc == CPublish }

  predicate Holding(q: Consumer) { Popping(q) || q.pc == CReceive }

  /** Producer t has claimed position p and not published it. */
  ghost predicate InPush(s: State, t: nat, p: nat) {
    t < |s.prods| && Pushing(s.prods[t]) && s.prods[t].pos == p
  }

  /** Consumer t has claimed position p and not given its slot back. */
  ghost predicate InPop(s: State, t: nat, p: nat) {
    t < |s.cons| && Popping(s.cons[t]) && s.cons[t].pos == p
  }

  /** The slot of position p. Below the tail: in the hands of the producer that claimed it, or published; otherwise:
      free, or still in the hands of the consumer of the position a lap earlier. */
  ghost predicate SlotOk(c: Config, s: State, p: nat)
    requires c.capacity == |s.slots| > 0
  {
    if p < s.tail then
      || (SequenceAt(c, s, p) == p && p < |s.who| && InPush(s, s.who[p].0, p))
      || (SequenceAt(c, s, p) == p + 1 && DataAt(c, s, p) == ValueAt(c, s, p))
    else
      || SequenceAt(c, s, p) == p
      || (SequenceAt(c, s, p) + c.capacity == p + 1 && 0 <= p - c.capacity < |s.taker|
        && InPop(s, s.taker[p - c.capacity], p - c.capacity))
  }

  ghost predicate Window(c: Config, s: State)
    requires c.capacity == |s.slots| > 0
  {
    forall p {:trigger SlotOk(c, s, p)} :: s.head <= p < s.head + c.capacity ==> SlotOk(c, s, p)
  }

  ghost predicate ProducerOk(c: Config, s: State, t: nat, p: Producer)
    requires c.capacity == |s.slots| > 0 && t < |c.items|
  {
    && (p.pc == PDone <==> p.i == |c.items[t]|) && p.i <= |c.items[t]|
    && p.pos <= s.tail
    && (p.pc == PCas && p.pos == s.tail ==> SequenceAt(c, s, p.pos) == p.pos)
    && (Pushing(p) ==>
      s.head <= p.pos < s.tail <= |s.who| && s.who[p.pos] == (t, p.i) && SequenceAt(c, s, p.pos) == p.pos)
    && (p.pc == PPublish ==> DataAt(c, s, p.pos) == c.items[t][p.i])
  }

  ghost predicate ConsumerOk(c: Config, s: State, t: nat, q: Consumer)
    requires c.capacity == |s.slots| > 0 && t < |c.quotas|
  {
    && (q.pc == CDone <==> q.count == c.quotas[t]) && q.count <= c.quotas[t]
    && q.pos <= s.head
    && (q.pc == CCas && q.pos == s.head ==> SequenceAt(c, s, q.pos) == q.pos + 1)
    && (Holding(q) ==> q.pos < s.head <= |s.taker| && s.taker[q.pos] == t && q.pos !in s.done)
    && (Popping(q) ==>
      && s.tail <= q.pos + c.capacity && SequenceAt(c, s, q.pos) == q.pos + 1
      && DataAt(c, s, q.pos) == ValueAt(c, s, q.pos))
    && (q.pc == CPublish || q.pc == CReceive ==> q.val == ValueAt(c, s, q.pos))
  }

  function Claimed(p: Producer): nat { if Pushing(p) then p.i + 1 else p.i }

  function Taken(q: Consumer): nat { if Holding(q) then q.count + 1 else q.count }

  /** Every position was claimed for a different item, and the claimed items of a producer are its first ones. */
  ghost predicate Items(c: Config, s: State)
    requires |s.prods| == |c.items|
  {
    && (forall p :: 0 <= p < |s.who| ==> IsItem(c, s.who[p]) && s.who[p].1 < Claimed(s.prods[s.who[p].0]))
    && (forall p, r :: 0 <= p < r < |s.who| ==> s.who[p] != s.who[r])
    && (forall t, i :: 0 <= t < |s.prods| && 0 <= i < Claimed(s.prods[t]) ==> (t, i) in s.who)
    && Sum(s.prods, Claimed) == |s.who|
  }

  ghost predicate TakenOk(s: State, p: nat)
    requires p < |s.taker|
  {
    s.taker[p] < |s.cons| && (p in s.done || (Holding(s.cons[s.taker[p]]) && s.cons[s.taker[p]].pos == p))
  }

  /** Every position below the head is received or in the hands of the consumer that took it. */
  ghost predicate Takers(s: State) {
    && (forall p {:trigger TakenOk(s, p)} :: 0 <= p < |s.taker| ==> TakenOk(s, p))
    && (forall p :: p in s.done ==> p < |s.taker|)
    && Sum(s.cons, Taken) == |s.taker|
  }

  /** What was received is what was claimed at the received positions. */
  ghost predicate Received(c: Config, s: State) {
    s.head <= |s.who| && forall v :: s.received[v] == DoneCount(c, s.who, s.done, s.head, v)
  }

  ghost predicate Producers(c: Config, s: State)
    requires Shape(c, s)
  {
    forall t {:trigger ProducerOk(c, s, t, s.prods[t])} :: 0 <= t < |s.prods| ==> ProducerOk(c, s, t, s.prods[t])
  }

  ghost predicate Consumers(c: Config, s: State)
    requires Shape(c, s)
  {
    forall t {:trigger ConsumerOk(c, s, t, s.cons[t])} :: 0 <= t < |s.cons| ==> ConsumerOk(c, s, t, s.cons[t])
  }

  ghost predicate Inv(c: Config, s: State) {
    && Shape(c, s) && Window(c, s) && Producers(c, s) && Consumers(c, s)
    && Items(c, s) && Takers(s) && Received(c, s)
  }

  // ---- slots of nearby positions

  lemma SlotShift(c: Config, p: nat)
    requires c.capacity >= 2
    ensures SlotOf(c, p + c.capacity) == SlotOf(c, p) < c.capacity
  {
    ModShift(p, c.capacity);
  }

  /** Positions less than a lap away from pos have other slots. */
  lemma NearSlots(c: Config, pos: nat)
    requires c.capacity >= 2
    ensures SlotOf(c, pos + c.capacity) == SlotOf(c, pos)
    ensures forall p: nat {:trigger SlotOf(c, p)} :: SlotOf(c, p) < c.capacity
    ensures forall p: nat {:trigger SlotOf(c, p)} ::
      p != pos && p < pos + c.capacity && pos < p + c.capacity ==> SlotOf(c, p) != SlotOf(c, pos)
  {
    SlotShift(c, pos);
    forall p: nat | p != pos && p < pos + c.capacity && pos < p + c.capacity ensures SlotOf(c, p) != SlotOf(c, pos) {
      if p < pos { ModDistinct(p, pos, c.capacity); } else { ModDistinct(pos, p, c.capacity); }
    }
  }

  // ---- steps that change one thread only

  lemma ProducerLocal(c: Config, s: State, t: nat, p: Producer)
    requires Inv(c, s) && t < |s.prods| && ProducerOk(c, s, t, p) && !Pushing(p) && Claimed(p) == Claimed(s.prods[t])
      && !Pushing(s.prods[t])
    ensures Inv(c, s.(prods := s.prods[t := p]))
  {
    hide SlotOf;
    var s' := s.(prods := s.prods[t := p]);
    SumUpdate(s.prods, t, p, Claimed);
    forall k | s'.head <= k < s'.head + c.capacity ensures SlotOk(c, s', k) { assert SlotOk(c, s, k); }
    forall k | 0 <= k < |s'.prods| ensures ProducerOk(c, s', k, s'.prods[k]) {
      assert k != t ==> ProducerOk(c, s, k, s.prods[k]);
    }
    forall k | 0 <= k < |s'.cons| ensures ConsumerOk(c, s', k, s'.cons[k]) { assert ConsumerOk(c, s, k, s.cons[k]); }
    forall k | 0 <= k < |s'.taker| ensures TakenOk(s', k) { assert TakenOk(s, k); }
  }

  lemma ConsumerLocal(c: Config, s: State, t: nat, q: Consumer)
    requires Inv(c, s) && t < |s.cons| && ConsumerOk(c, s, t, q) && Holding(q) == Holding(s.cons[t])
    requires q.count == s.cons[t].count && (Holding(q) ==> q.pos == s.cons[t].pos) && Popping(q) == Popping(s.cons[t])
    ensures Inv(c, s.(cons := s.cons[t := q]))
  {
    hide SlotOf;
    var s' := s.(cons := s.cons[t := q]);
    SumUpdate(s.cons, t, q, Taken);
    forall k | s'.head <= k < s'.head + c.capacity ensures SlotOk(c, s', k) { assert SlotOk(c, s, k); }
    forall k | 0 <= k < |s'.prods| ensures ProducerOk(c, s', k, s'.prods[k]) { assert ProducerOk(c, s, k, s.prods[k]); }
    forall k | 0 <= k < |s'.cons| ensures ConsumerOk(c, s', k, s'.cons[k]) {
      assert k != t ==> ConsumerOk(c, s, k, s.cons[k]);
    }
    forall k | 0 <= k < |s'.taker| ensures TakenOk(s', k) { assert TakenOk(s, k); }
  }

  // ---- the successful compare-and-swap of a producer

  /** A producer that found its slot ready finds it ready for its claim: the ring is not full. */
  lemma RoomAtTail(c: Config, s: State)
    requires Shape(c, s) && Window(c, s) && SequenceAt(c, s, s.tail) == s.tail
    ensures s.tail < s.head + c.capacity
  {
    SlotShift(c, s.head);
    assert SlotOk(c, s, s.head);
  }

  lemma ClaimItems(c: Config, s: State, s': State, t: nat)
    requires |s.prods| == |c.items| && Items(c, s) && t < |s.prods| && !Pushing(s.prods[t])
      && IsItem(c, (t, s.prods[t].i))
    requires s'.who == s.who + [(t, s.prods[t].i)] && s'.prods == s.prods[t := s.prods[t].(pc := PWrite)]
    ensures Items(c, s')
  {
    SumUpdate(s.prods, t, s'.prods[t], Claimed);
    forall u, i | 0 <= u < |s'.prods| && 0 <= i < Claimed(s'.prods[u]) ensures (u, i) in s'.who {
      if (u, i) == (t, s.prods[t].i) { assert s'.who[|s.who|] == (u, i); } else { assert (u, i) in s.who; }
    }
  }

  lemma ClaimLeavesConsumer(c: Config, s: State, s': State, k: nat)
    requires Shape(c, s) && k < |s.cons| && ConsumerOk(c, s, k, s.cons[k]) && SequenceAt(c, s, s.tail) == s.tail
    requires s'.slots == s.slots && s'.head == s.head && s'.tail == s.tail + 1 && s'.taker == s.taker
      && s'.done == s.done
    requires s.who <= s'.who
    ensures ConsumerOk(c, s', k, s.cons[k])
  {
    hide SlotOf;
    SlotShift(c, s.cons[k].pos);
  }

  lemma ProducerClaims(c: Config, s: State, t: nat, s': State)
    requires Inv(c, s) && t < |s.prods| && s.prods[t].pc == PCas && s.prods[t].pos == s.tail
    requires s' == s.(prods := s.prods[t := s.prods[t].(pc := PWrite)], tail := s.tail + 1, who :=
      s.who + [(t, s.prods[t].i)])
    ensures Inv(c, s')
  {
    hide SlotOf;
    assert ProducerOk(c, s, t, s.prods[t]);
    RoomAtTail(c, s);
    ClaimItems(c, s, s', t);
    forall k | s'.head <= k < s'.head + c.capacity ensures SlotOk(c, s', k) { assert SlotOk(c, s, k); }
    forall k | 0 <= k < |s'.prods| ensures ProducerOk(c, s', k, s'.prods[k]) { assert ProducerOk(c, s, k, s.prods[k]); }
    forall k | 0 <= k < |s'.cons| ensures ConsumerOk(c, s', k, s'.cons[k]) { ClaimLeavesConsumer(c, s, s', k); }
    forall k | 0 <= k < |s'.taker| ensures TakenOk(s', k) { assert TakenOk(s, k); }
    forall v ensures s'.received[v] == DoneCount(c, s'.who, s'.done, s'.head, v) {
      DonePrefix(c, s.who, s'.who, s.done, s.head, v);
    }
  }

  /** Values claimed later do not concern what was received. */
  lemma {:induction false} DonePrefix(c: Config, who: seq<(nat, nat)>, who': seq<(nat, nat)>, done: set<nat>,
      n: nat, v: Value)
    requires n <= |who| && who <= who'
    ensures DoneCount(c, who', done, n, v) == DoneCount(c, who, done, n, v)
    decreases n
  {
    if n > 0 { DonePrefix(c, who, who', done, n - 1, v); }
  }

  // ---- a producer's write and publication

  ghost predicate WrittenBy(c: Config, s: State, t: nat, s': State)
    requires Shape(c, s) && t < |s.prods|
  {
    var p := s.prods[t];
    p.pc == PWrite && p.i < |c.items[t]| &&
    s' == s.(prods := s.prods[t := p.(pc := PPublish)],
             slots := s.slots[SlotOf(c, p.pos) := s.slots[SlotOf(c, p.pos)].(data := c.items[t][p.i])])
  }

  lemma WriteWindow(c: Config, s: State, t: nat, s': State)
    requires Inv(c, s) && t < |s.prods| && WrittenBy(c, s, t, s')
    ensures Window(c, s')
  {
    hide SlotOf, Items, Takers, Received;
    assert ProducerOk(c, s, t, s.prods[t]);
    NearSlots(c, s.prods[t].pos);
    forall k | s'.head <= k < s'.head + c.capacity ensures SlotOk(c, s', k) { assert SlotOk(c, s, k); }
  }

  lemma WriteThreads(c: Config, s: State, t: nat, s': State)
    requires Inv(c, s) && t < |s.prods| && WrittenBy(c, s, t, s')
    ensures Producers(c, s') && Consumers(c, s')
  {
    hide SlotOf, Items, Takers, Received;
    assert ProducerOk(c, s, t, s.prods[t]);
    NearSlots(c, s.prods[t].pos);
    forall k | 0 <= k < |s'.prods| ensures ProducerOk(c, s', k, s'.prods[k]) { assert ProducerOk(c, s, k, s.prods[k]); }
    forall k | 0 <= k < |s'.cons| ensures ConsumerOk(c, s', k, s'.cons[k]) { assert ConsumerOk(c, s, k, s.cons[k]); }
  }

  lemma ProducerWrites(c: Config, s: State, t: nat, s': State)
    requires Inv(c, s) && t < |s.prods| && WrittenBy(c, s, t, s')
    ensures Inv(c, s')
  {
    hide SlotOf, Window, Producers, Consumers;
    SlotShift(c, s.prods[t].pos);
    WriteWindow(c, s, t, s');
    WriteThreads(c, s, t, s');
    SumUpdate(s.prods, t, s'.prods[t], Claimed);
    forall k | 0 <= k < |s'.taker| ensures TakenOk(s', k) { assert TakenOk(s, k); }
  }

  ghost predicate PublishedBy(c: Config, s: State, t: nat, s': State)
    requires Shape(c, s) && t < |s.prods|
  {
    var p := s.prods[t];
    p.pc == PPublish && p.i < |c.items[t]| &&
    s' == s.(prods := s.prods[t := p.(pc := NextItem(c, t, p.i + 1), i := p.i + 1)],
             slots := s.slots[SlotOf(c, p.pos) := s.slots[SlotOf(c, p.pos)].(sequence := p.pos + 1)])
  }

  lemma PublishWindow(c: Config, s: State, t: nat, s': State)
    requires Inv(c, s) && t < |s.prods| && PublishedBy(c, s, t, s')
    ensures Window(c, s')
  {
    hide SlotOf, Items, Takers, Received;
    assert ProducerOk(c, s, t, s.prods[t]);
    NearSlots(c, s.prods[t].pos);
    forall k | s'.head <= k < s'.head + c.capacity ensures SlotOk(c, s', k) { assert SlotOk(c, s, k); }
  }

  lemma PublishThreads(c: Config, s: State, t: nat, s': State)
    requires Inv(c, s) && t < |s.prods| && PublishedBy(c, s, t, s')
    ensures Producers(c, s') && Consumers(c, s')
  {
    hide SlotOf, Items, Takers, Received;
    assert ProducerOk(c, s, t, s.prods[t]);
    NearSlots(c, s.prods[t].pos);
    forall k | 0 <= k < |s'.prods| ensures ProducerOk(c, s', k, s'.prods[k]) { assert ProducerOk(c, s, k, s.prods[k]); }
    forall k | 0 <= k < |s'.cons| ensures ConsumerOk(c, s', k, s'.cons[k]) { assert ConsumerOk(c, s, k, s.cons[k]); }
  }

  lemma ProducerPublishes(c: Config, s: State, t: nat, s': State)
    requires Inv(c, s) && t < |s.prods| && PublishedBy(c, s, t, s')
    ensures Inv(c, s')
  {
    hide SlotOf, Window, Producers, Consumers;
    SlotShift(c, s.prods[t].pos);
    PublishWindow(c, s, t, s');
    PublishThreads(c, s, t, s');
    SumUpdate(s.prods, t, s'.prods[t], Claimed);
    forall k | 0 <= k < |s'.taker| ensures TakenOk(s', k) { assert TakenOk(s, k); }
  }

  // ---- a consumer's claim, release of the slot, and receipt

  /** A consumer that found its slot published finds a value at the head. */
  lemma ValueAtHead(c: Config, s: State)
    requires Shape(c, s) && Window(c, s) && SequenceAt(c, s, s.head) == s.head + 1
    ensures s.head < s.tail && DataAt(c, s, s.head) == ValueAt(c, s, s.head)
  {
    assert SlotOk(c, s, s.head);
  }

  lemma ClaimTakers(s: State, s': State, t: nat)
    requires Takers(s) && |s.taker| == s.head && t < |s.cons| && !Holding(s.cons[t]) && s.cons[t].pos == s.head
    requires s'.done == s.done && s'.cons == s.cons[t := s.cons[t].(pc := CRead)] && s'.taker == s.taker + [t]
    ensures Takers(s')
  {
    SumUpdate(s.cons, t, s'.cons[t], Taken);
    forall k | 0 <= k < |s'.taker| ensures TakenOk(s', k) { assert k < |s.taker| ==> TakenOk(s, k); }
  }

  lemma ConsumerClaims(c: Config, s: State, t: nat, s': State)
    requires Inv(c, s) && t < |s.cons| && s.cons[t].pc == CCas && s.cons[t].pos == s.head
    requires s' == s.(cons := s.cons[t := s.cons[t].(pc := CRead)], head := s.head + 1, taker := s.taker + [t])
    ensures Inv(c, s')
  {
    hide SlotOf;
    assert ConsumerOk(c, s, t, s.cons[t]);
    NearSlots(c, s.head);
    ValueAtHead(c, s);
    ClaimTakers(s, s', t);
    forall k | s'.head <= k < s'.head + c.capacity ensures SlotOk(c, s', k) {
      if k < s.head + c.capacity {
        assert SlotOk(c, s, k);
      } else {
        assert k == s.head + c.capacity;
      }
    }
    forall k | 0 <= k < |s'.prods| ensures ProducerOk(c, s', k, s'.prods[k]) { assert ProducerOk(c, s, k, s.prods[k]); }
    forall k | 0 <= k < |s'.cons| ensures ConsumerOk(c, s', k, s'.cons[k]) { assert ConsumerOk(c, s, k, s.cons[k]); }
  }

  ghost predicate ReleasedBy(c: Config, s: State, t: nat, s': State)
    requires Shape(c, s) && t < |s.cons|
  {
    var q := s.cons[t];
    q.pc == CPublish &&
    s' == s.(cons := s.cons[t := q.(pc := CReceive)],
             slots := s.slots[SlotOf(c, q.pos) := s.slots[SlotOf(c, q.pos)].(sequence := q.pos + c.capacity)])
  }

  lemma ReleaseWindow(c: Config, s: State, t: nat, s': State)
    requires Inv(c, s) && t < |s.cons| && ReleasedBy(c, s, t, s')
    ensures Window(c, s')
  {
    hide SlotOf, Items, Takers, Received;
    assert ConsumerOk(c, s, t, s.cons[t]);
    NearSlots(c, s.cons[t].pos);
    forall k | s'.head <= k < s'.head + c.capacity ensures SlotOk(c, s', k) { assert SlotOk(c, s, k); }
  }

  lemma ReleaseThreads(c: Config, s: State, t: nat, s': State)
    requires Inv(c, s) && t < |s.cons| && ReleasedBy(c, s, t, s')
    ensures Producers(c, s') && Consumers(c, s')
  {
    hide SlotOf, Items, Takers, Received;
    assert ConsumerOk(c, s, t, s.cons[t]);
    NearSlots(c, s.cons[t].pos);
    forall k | 0 <= k < |s'.prods| ensures ProducerOk(c, s', k, s'.prods[k]) { assert ProducerOk(c, s, k, s.prods[k]); }
    forall k | 0 <= k < |s'.cons| ensures ConsumerOk(c, s', k, s'.cons[k]) { assert ConsumerOk(c, s, k, s.cons[k]); }
  }

  lemma ConsumerReleases(c: Config, s: State, t: nat, s': State)
    requires Inv(c, s) && t < |s.cons| && ReleasedBy(c, s, t, s')
    ensures Inv(c, s')
  {
    hide SlotOf, Window, Producers, Consumers;
    SlotShift(c, s.cons[t].pos);
    ReleaseWindow(c, s, t, s');
    ReleaseThreads(c, s, t, s');
    SumUpdate(s.cons, t, s'.cons[t], Taken);
    forall k | 0 <= k < |s'.taker| ensures TakenOk(s', k) { assert TakenOk(s, k); }
  }

  /** A receipt adds the value of its position. */
  lemma {:induction false} DoneAdds(c: Config, who: seq<(nat, nat)>, done: set<nat>, p: nat, n: nat, v: Value)
    requires n <= |who| && p !in done && p < |who|
    ensures DoneCount(c, who, done + {p}, n, v) == DoneCount(c, who, done, n, v) + if p < n then Is(c, who[p], v) else 0
    decreases n
  {
    if n > 0 { DoneAdds(c, who, done, p, n - 1, v); }
  }

  lemma ReceiptCounted(c: Config, s: State, s': State, t: nat)
    requires Shape(c, s) && Items(c, s) && Received(c, s) && t < |s.cons| && ConsumerOk(c, s, t, s.cons[t])
      && s.cons[t].pc == CReceive
    requires s'.who == s.who && s'.head == s.head && s'.done == s.done + {s.cons[t].pos}
      && s'.received == s.received + multiset{s.cons[t].val}
    ensures Received(c, s')
  {
    hide SlotOf;
    var p := s.cons[t].pos;
    assert IsItem(c, s.who[p]);
    forall v ensures s'.received[v] == DoneCount(c, s'.who, s'.done, s'.head, v) {
      DoneAdds(c, s.who, s.done, p, s.head, v);
    }
  }

  lemma ConsumerReceives(c: Config, s: State, t: nat, s': State)
    requires Inv(c, s) && t < |s.cons| && s.cons[t].pc == CReceive
    requires var q := s.cons[t];
      s' == s.(cons := s.cons[t := q.(pc := NextCount(c, t, q.count + 1), count := q.count + 1)],
               received := s.received + multiset{q.val}, done := s.done + {q.pos})
    ensures Inv(c, s')
  {
    hide SlotOf;
    assert ConsumerOk(c, s, t, s.cons[t]);
    SumUpdate(s.cons, t, s'.cons[t], Taken);
    ReceiptCounted(c, s, s', t);
    forall k | s'.head <= k < s'.head + c.capacity ensures SlotOk(c, s', k) { assert SlotOk(c, s, k); }
    forall k | 0 <= k < |s'.prods| ensures ProducerOk(c, s', k, s'.prods[k]) { assert ProducerOk(c, s, k, s.prods[k]); }
    forall k | 0 <= k < |s'.cons| ensures ConsumerOk(c, s', k, s'.cons[k]) { assert ConsumerOk(c, s, k, s.cons[k]); }
    forall k | 0 <= k < |s'.taker| ensures TakenOk(s', k) { assert TakenOk(s, k); }
  }

  // ---- every run

  /** One access of some thread. */
  datatype Move = ProducerMove(t: nat, spurious: bool) | ConsumerMove(t: nat, spurious: bool)

  ghost function Step(c: Config, s: State, m: Move): State
    requires Shape(c, s)
  {
    match m
    case ProducerMove(t, spurious) =>
      if t < |s.prods| && s.prods[t].i < |c.items[t]| then ProducerStep(c, s, t, spurious) else s
    case ConsumerMove(t, spurious) =>
      if t < |s.cons| then ConsumerStep(c, s, t, spurious) else s
  }

  lemma StepInv(c: Config, s: State, m: Move)
    requires Inv(c, s)
    ensures Inv(c, Step(c, s, m))
  {
    hide Window, Items, Takers, Received, SlotOf;
    var s' := Step(c, s, m);
    if m.ProducerMove? && m.t < |s.prods| && s.prods[m.t].i < |c.items[m.t]| {
      assert ProducerOk(c, s, m.t, s.prods[m.t]);
      match s.prods[m.t].pc
      case PCas =>
        if s.tail == s.prods[m.t].pos && !m.spurious {
          ProducerClaims(c, s, m.t, s');
        } else {
          ProducerLocal(c, s, m.t, s'.prods[m.t]);
        }
      case PWrite => ProducerWrites(c, s, m.t, s');
      case PPublish => ProducerPublishes(c, s, m.t, s');
      case PLoad => ProducerLocal(c, s, m.t, s'.prods[m.t]);
      case PSequence => ProducerLocal(c, s, m.t, s'.prods[m.t]);
      case PReload => ProducerLocal(c, s, m.t, s'.prods[m.t]);
    } else if m.ConsumerMove? && m.t < |s.cons| {
      assert ConsumerOk(c, s, m.t, s.cons[m.t]);
      match s.cons[m.t].pc
      case CCas =>
        if s.head == s.cons[m.t].pos && !m.spurious {
          ConsumerClaims(c, s, m.t, s');
        } else {
          ConsumerLocal(c, s, m.t, s'.cons[m.t]);
        }
      case CPublish => ConsumerReleases(c, s, m.t, s');
      case CReceive => ConsumerReceives(c, s, m.t, s');
      case CDone =>
      case _ => ConsumerLocal(c, s, m.t, s'.cons[m.t]);
    }
  }

  lemma InitialInv(c: Config)
    requires c.capacity >= 2
    ensures Inv(c, Initial(c))
  {
    var s := Initial(c);
    SumConstant(s.prods, Claimed, 0);
    SumConstant(s.cons, Taken, 0);
    forall p | 0 <= p < c.capacity ensures SlotOk(c, s, p) { QuotientUnique(p, c.capacity, 0, p); }
    forall t | 0 <= t < |s.prods| ensures ProducerOk(c, s, t, s.prods[t]) {}
    forall t | 0 <= t < |s.cons| ensures ConsumerOk(c, s, t, s.cons[t]) {}
  }

  ghost predicate Reaches(c: Config, moves: seq<Move>, s: State)
    requires c.capacity >= 2
  {
    if moves == [] then s == Initial(c)
    else
      var n := |moves| - 1;
      exists s0 :: Reaches(c, moves[..n], s0) && Shape(c, s0) && s == Step(c, s0, moves[n])
  }

  /** The invariant holds after any moves of any threads. */
  lemma {:induction false} ReachableInv(c: Config, moves: seq<Move>, s: State)
    requires c.capacity >= 2 && Reaches(c, moves, s)
    ensures Inv(c, s)
    decreases |moves|
  {
    if moves == [] {
      InitialInv(c);
    } else {
      var n := |moves| - 1;
      var s0 :| Reaches(c, moves[..n], s0) && Shape(c, s0) && s == Step(c, s0, moves[n]);
      ReachableInv(c, moves[..n], s0);
      StepInv(c, s0, moves[n]);
    }
  }

  // ---- main results

  /** Between claim and publication a slot has one owner: two threads that may touch the data of one slot are
      the same thread. */
  lemma SingleOwner(c: Config, s: State, t: nat, u: nat)
    requires Inv(c, s)
    ensures t < |s.prods| && u < |s.prods| && t != u && Pushing(s.prods[t]) && Pushing(s.prods[u]) ==>
      SlotOf(c, s.prods[t].pos) != SlotOf(c, s.prods[u].pos)
    ensures t < |s.cons| && u < |s.cons| && t != u && Popping(s.cons[t]) && Popping(s.cons[u]) ==>
      SlotOf(c, s.cons[t].pos) != SlotOf(c, s.cons[u].pos)
    ensures t < |s.prods| && u < |s.cons| && Pushing(s.prods[t]) && Popping(s.cons[u]) ==>
      SlotOf(c, s.prods[t].pos) != SlotOf(c, s.cons[u].pos)
  {
    hide SlotOf, Window, Items, Takers, Received;
    if t < |s.prods| { assert ProducerOk(c, s, t, s.prods[t]); NearSlots(c, s.prods[t].pos); }
    if u < |s.prods| { assert ProducerOk(c, s, u, s.prods[u]); }
    if t < |s.cons| { assert ConsumerOk(c, s, t, s.cons[t]); }
    if u < |s.cons| { assert ConsumerOk(c, s, u, s.cons[u]); }
  }

  /** After any moves the ring holds between none and its capacity of values. */
  lemma NeverOverfull(c: Config, moves: seq<Move>, s: State)
    requires c.capacity >= 2 && Reaches(c, moves, s)
    ensures s.head <= s.tail <= s.head + c.capacity
  {
    ReachableInv(c, moves, s);
  }

  /** The consumer that claimed position p brings back the value that was pushed at position p. */
  lemma PopReturnsPushed(c: Config, s: State, t: nat)
    requires Inv(c, s) && t < |s.cons| && s.cons[t].pc == CReceive
    ensures var p := s.cons[t].pos;
      && p < s.head <= |s.taker| && p < |s.who| && s.taker[p] == t && IsItem(c, s.who[p])
      && s.cons[t].val == c.items[s.who[p].0][s.who[p].1]
  {
    assert ConsumerOk(c, s, t, s.cons[t]);
  }

  /** The slot of a position below the head has moved on to a later lap. */
  lemma {:induction false} LaterLap(c: Config, s: State, p: nat)
    requires Shape(c, s) && Window(c, s) && p < s.head
    ensures SequenceAt(c, s, p) > p
    decreases s.head - p
  {
    SlotShift(c, p);
    if p + c.capacity < s.head {
      LaterLap(c, s, p + c.capacity);
    } else {
      assert SlotOk(c, s, p + c.capacity);
    }
  }

  /** queue_push gives up only when its position is the tail and the ring is full, or the consumer of the position
      a lap earlier is still reading the slot. */
  lemma PushGivesUp(c: Config, s: State, t: nat)
    requires Inv(c, s) && t < |s.prods| && s.prods[t].pc == PSequence
    requires SequenceAt(c, s, s.prods[t].pos) < s.prods[t].pos
    ensures s.prods[t].pos == s.tail
    ensures s.tail == s.head + c.capacity || exists u: nat, p: nat :: InPop(s, u, p) && s.tail == p + c.capacity
  {
    assert ProducerOk(c, s, t, s.prods[t]);
    if s.prods[t].pos < s.head { LaterLap(c, s, s.prods[t].pos); }
    if s.prods[t].pos < s.head + c.capacity { assert SlotOk(c, s, s.prods[t].pos); }
  }

  /** queue_pop gives up only when its position is the head and the ring is empty, or the producer that claimed the head
      has not published it yet. */
  lemma PopGivesUp(c: Config, s: State, t: nat)
    requires Inv(c, s) && t < |s.cons| && s.cons[t].pc == CSequence
    requires SequenceAt(c, s, s.cons[t].pos) < s.cons[t].pos + 1
    ensures s.cons[t].pos == s.head
    ensures s.head == s.tail || exists u: nat :: InPush(s, u, s.head)
  {
    assert ConsumerOk(c, s, t, s.cons[t]);
    if s.cons[t].pos < s.head { LaterLap(c, s, s.cons[t].pos); }
    assert SlotOk(c, s, s.head);
  }

  // ---- the whole run of the stress test

  function Length(xs: seq<Value>): nat { |xs| }

  function Quota(n: nat): nat { n }

  ghost predicate Finished(s: State) {
    (forall t :: 0 <= t < |s.prods| ==> s.prods[t].pc == PDone)
      && (forall t :: 0 <= t < |s.cons| ==> s.cons[t].pc == CDone)
  }

  /** All values that the producers push, each as often as it is pushed. */
  ghost function AllItems(items: seq<seq<Value>>): multiset<Value> {
    if items == [] then multiset{} else AllItems(items[..|items| - 1]) + multiset(items[|items| - 1])
  }

  /** How many items of a sequence have the value v. */
  ghost function Count(c: Config, l: seq<(nat, nat)>, v: Value): nat {
    if l == [] then 0 else Count(c, l[..|l| - 1], v) + Is(c, l[|l| - 1], v)
  }

  lemma {:induction false} CountRemove(c: Config, l: seq<(nat, nat)>, j: nat, v: Value)
    requires j < |l|
    ensures Count(c, l, v) == Count(c, RemoveAt(l, j), v) + Is(c, l[j], v)
    decreases |l|
  {
    var n := |l| - 1;
    if j < n {
      CountRemove(c, l[..n], j, v);
      assert RemoveAt(l, j)[..n - 1] == RemoveAt(l[..n], j);
    } else {
      assert RemoveAt(l, j) == l[..n];
    }
  }

  /** The order in which different items are listed does not matter. */
  lemma {:induction false} CountOfPermutation(c: Config, l: seq<(nat, nat)>, r: seq<(nat, nat)>, v: Value)
    requires Distinct(l) && Distinct(r) && |l| == |r| && forall w: (nat, nat) :: w in l ==> w in r
    ensures Count(c, l, v) == Count(c, r, v)
    decreases |l|
  {
    if l != [] {
      var n := |l| - 1;
      assert l[n] in l;
      var j := Position(r, l[n]);
      RemovedOne(r, j);
      forall w: (nat, nat) | w in l[..n] ensures w in RemoveAt(r, j) { assert w in l && w != l[n]; }
      CountOfPermutation(c, l[..n], RemoveAt(r, j), v);
      CountRemove(c, r, j, v);
    }
  }

  /** The first m items of producer t. */
  ghost function Row(t: nat, m: nat): (r: seq<(nat, nat)>)
    ensures |r| == m && forall i :: 0 <= i < m ==> r[i] == (t, i)
  {
    if m == 0 then [] else Row(t, m - 1) + [(t, m - 1)]
  }

  /** All items of the first n producers. */
  ghost function Rows(c: Config, n: nat): (r: seq<(nat, nat)>)
    requires n <= |c.items|
    ensures |r| == Sum(c.items[..n], Length)
  {
    if n == 0 then []
    else
      assert c.items[..n][..n - 1] == c.items[..n - 1];
      Rows(c, n - 1) + Row(n - 1, |c.items[n - 1]|)
  }

  lemma OneMoreValue(l: seq<Value>, m: nat, v: Value)
    requires 0 < m <= |l|
    ensures multiset(l[..m])[v] == multiset(l[..m - 1])[v] + if l[m - 1] == v then 1 else 0
  {
    assert l[..m] == l[..m - 1] + [l[m - 1]];
  }

  lemma CountNone(c: Config, v: Value)
    ensures Count(c, [], v) == 0
  {
  }

  lemma CountLast(c: Config, l: seq<(nat, nat)>, w: (nat, nat), v: Value)
    ensures Count(c, l + [w], v) == Count(c, l, v) + Is(c, w, v)
  {
    assert (l + [w])[..|l + [w]| - 1] == l;
  }

  lemma {:induction false} RowCount(c: Config, t: nat, m: nat, v: Value)
    requires t < |c.items| && m <= |c.items[t]|
    ensures Count(c, Row(t, m), v) == multiset(c.items[t][..m])[v]
    decreases m
  {
    hide Count;
    if m == 0 {
      CountNone(c, v);
    } else {
      CountLast(c, Row(t, m - 1), (t, m - 1), v);
      RowCount(c, t, m - 1, v);
      OneMoreValue(c.items[t], m, v);
    }
  }

  lemma {:induction false} CountAppend(c: Config, l: seq<(nat, nat)>, r: seq<(nat, nat)>, v: Value)
    ensures Count(c, l + r, v) == Count(c, l, v) + Count(c, r, v)
    decreases |r|
  {
    if r == [] {
      assert l + r == l;
    } else {
      CountAppend(c, l, r[..|r| - 1], v);
      assert (l + r)[..|l + r| - 1] == l + r[..|r| - 1];
    }
  }

  lemma {:induction false} RowsCount(c: Config, n: nat, v: Value)
    requires n <= |c.items|
    ensures Count(c, Rows(c, n), v) == AllItems(c.items[..n])[v]
    decreases n
  {
    if n > 0 {
      RowsCount(c, n - 1, v);
      RowCount(c, n - 1, |c.items[n - 1]|, v);
      CountAppend(c, Rows(c, n - 1), Row(n - 1, |c.items[n - 1]|), v);
      assert c.items[n - 1][..|c.items[n - 1]|] == c.items[n - 1];
      assert c.items[..n][..n - 1] == c.items[..n - 1];
    }
  }

  lemma {:induction false} RowsFacts(c: Config, n: nat)
    requires n <= |c.items|
    ensures Distinct(Rows(c, n)) && forall w: (nat, nat) :: w in Rows(c, n) <==> w.0 < n && IsItem(c, w)
    decreases n
  {
    if n > 0 {
      RowsFacts(c, n - 1);
      var l, r := Rows(c, n - 1), Row(n - 1, |c.items[n - 1]|);
      forall i | 0 <= i < |l| ensures l[i].0 < n - 1 { assert l[i] in l; }
      forall w: (nat, nat) | w.0 == n - 1 && IsItem(c, w) ensures w in r { assert r[w.1] == w; }
      assert Rows(c, n) == l + r;
    }
  }

  lemma {:induction false} DoneAll(c: Config, who: seq<(nat, nat)>, done: set<nat>, n: nat, v: Value)
    requires n <= |who| && forall p: nat :: p < n ==> p in done
    ensures DoneCount(c, who, done, n, v) == Count(c, who[..n], v)
    decreases n
  {
    if n > 0 {
      DoneAll(c, who, done, n - 1, v);
      assert who[..n][..n - 1] == who[..n - 1];
    }
  }

  /** When all is done, the positions claimed are as many as the items pushed, and all of them received. */
  lemma AllDone(c: Config, s: State)
    requires Inv(c, s) && Finished(s) && Sum(c.quotas, Quota) == Sum(c.items, Length)
    ensures s.head == s.tail == |s.who| == Sum(c.items, Length)
    ensures Distinct(s.who) && (forall w :: w in s.who ==> IsItem(c, w)) && forall p: nat :: p < s.head ==> p in s.done
  {
    hide Window, Received;
    forall t | 0 <= t < |s.prods| ensures Claimed(s.prods[t]) == |c.items[t]| {
      assert ProducerOk(c, s, t, s.prods[t]);
    }
    forall t | 0 <= t < |s.cons| ensures Taken(s.cons[t]) == c.quotas[t] { assert ConsumerOk(c, s, t, s.cons[t]); }
    SumSame(s.prods, Claimed, c.items, Length);
    SumSame(s.cons, Taken, c.quotas, Quota);
    forall p: nat | p < s.head ensures p in s.done { assert TakenOk(s, p); }
  }

  /** When every thread has finished and the consumers were to pop as many values as the producers push, what was
      received is exactly what was pushed, each value as many times as it was pushed. */
  lemma ReceivedIsPushed(c: Config, s: State)
    requires Inv(c, s) && Finished(s) && Sum(c.quotas, Quota) == Sum(c.items, Length)
    ensures s.head == s.tail == Sum(c.items, Length)
    ensures s.received == AllItems(c.items)
  {
    hide Window, Producers, Consumers, Items, Takers, Finished, Distinct;
    AllDone(c, s);
    var n := |c.items|;
    assert s.who[..s.head] == s.who && c.items[..n] == c.items;
    RowsFacts(c, n);
    forall v ensures s.received[v] == AllItems(c.items)[v] {
      DoneAll(c, s.who, s.done, s.head, v);
      CountOfPermutation(c, s.who, Rows(c, n), v);
      RowsCount(c, n, v);
    }
  }

  // ---- values that are all different

  /** No value is pushed twice. */
  ghost predicate DistinctItems(c: Config) {
    forall w: (nat, nat), x: (nat, nat) :: IsItem(c, w) && IsItem(c, x) && w != x ==>
      c.items[w.0][w.1] != c.items[x.0][x.1]
  }

  /** v is one of the values the producers push. */
  ghost predicate Pushed(c: Config, v: Value) {
    exists w: (nat, nat) :: IsItem(c, w) && c.items[w.0][w.1] == v
  }

  lemma {:induction false} CountOfDistinct(c: Config, l: seq<(nat, nat)>, v: Value)
    requires DistinctItems(c) && Distinct(l)
    ensures Count(c, l, v) == if exists w: (nat, nat) :: w in l && Is(c, w, v) == 1 then 1 else 0
    decreases |l|
  {
    if l != [] {
      var n := |l| - 1;
      CountOfDistinct(c, l[..n], v);
      assert l[n] in l;
      if w: (nat, nat) :| w in l[..n] && Is(c, w, v) == 1 { assert w in l && w != l[n]; }
    }
  }

  /** So when no value is pushed twice, each one pushed is received exactly once and nothing else is received. */
  lemma ExactlyOnce(c: Config, s: State, v: Value)
    requires Inv(c, s) && DistinctItems(c) && Finished(s) && Sum(c.quotas, Quota) == Sum(c.items, Length)
    ensures s.received[v] == if Pushed(c, v) then 1 else 0
  {
    hide Inv, Finished, Distinct, DistinctItems, Rows;
    ReceivedIsPushed(c, s);
    var n := |c.items|;
    assert c.items[..n] == c.items;
    RowsFacts(c, n);
    RowsCount(c, n, v);
    CountOfDistinct(c, Rows(c, n), v);
    if Pushed(c, v) {
      var w: (nat, nat) :| IsItem(c, w) && c.items[w.0][w.1] == v;
      assert w in Rows(c, n) && Is(c, w, v) == 1;
    }
  }

  /** The stress test: each producer pushes its own range of consecutive values. */
  function TestConfig(capacity: nat, threads: nat, perThread: nat): Config {
    Config(capacity,
           seq(threads, t requires 0 <= t < threads => seq(perThread, i requires 0 <= i < perThread => t * perThread
             + i + 1)),
           seq(threads, t requires 0 <= t < threads => perThread))
  }

  lemma TestItem(capacity: nat, threads: nat, perThread: nat, w: (nat, nat))
    requires IsItem(TestConfig(capacity, threads, perThread), w)
    ensures var v := TestConfig(capacity, threads, perThread).items[w.0][w.1];
      v == w.0 * perThread + w.1 + 1 && 1 <= v <= threads * perThread && (v - 1) / perThread == w.0
        && (v - 1) % perThread == w.1
  {
    QuotientUnique(w.0 * perThread + w.1, perThread, w.0, w.1);
    MulGap(w.0, threads, perThread);
  }

  lemma ItemInRange(capacity: nat, threads: nat, perThread: nat, w: (nat, nat))
    requires IsItem(TestConfig(capacity, threads, perThread), w)
    ensures 1 <= TestConfig(capacity, threads, perThread).items[w.0][w.1] <= threads * perThread
  {
    TestItem(capacity, threads, perThread, w);
  }

  lemma TestItemsDistinct(capacity: nat, threads: nat, perThread: nat)
    ensures DistinctItems(TestConfig(capacity, threads, perThread))
  {
    var c := TestConfig(capacity, threads, perThread);
    forall w: (nat, nat), x: (nat, nat) | IsItem(c, w) && IsItem(c, x) && w != x
      ensures c.items[w.0][w.1] != c.items[x.0][x.1]
    {
      TestItem(capacity, threads, perThread, w);
      TestItem(capacity, threads, perThread, x);
    }
  }

  lemma {:induction false} DoneLacks(c: Config, who: seq<(nat, nat)>, done: set<nat>, n: nat, v: Value)
    requires n <= |who| && forall r: nat :: r in done && r < n ==> Is(c, who[r], v) == 0
    ensures DoneCount(c, who, done, n, v) == 0
    decreases n
  {
    if n > 0 { DoneLacks(c, who, done, n - 1, v); }
  }

  /** A value about to be entered has not been received before. */
  lemma FirstReceipt(c: Config, s: State, t: nat)
    requires Inv(c, s) && DistinctItems(c) && t < |s.cons| && s.cons[t].pc == CReceive
    ensures s.received[s.cons[t].val] == 0
  {
    hide SlotOf, Window, Producers;
    var p := s.cons[t].pos;
    assert ConsumerOk(c, s, t, s.cons[t]);
    forall r: nat | r in s.done && r < s.head ensures Is(c, s.who[r], s.cons[t].val) == 0 {
      assert IsItem(c, s.who[r]) && s.who[r] != s.who[p];
    }
    DoneLacks(c, s.who, s.done, s.head, s.cons[t].val);
  }

  /** The assertions of the consumers hold in every interleaving: the value is in range and was not received before. */
  lemma NeverOutOfRangeOrDuplicate(capacity: nat, threads: nat, perThread: nat, moves: seq<Move>, s: State, t: nat)
    requires capacity >= 2 && Reaches(TestConfig(capacity, threads, perThread), moves, s)
    requires t < |s.cons| && s.cons[t].pc == CReceive
    ensures 1 <= s.cons[t].val <= threads * perThread && s.received[s.cons[t].val] == 0
  {
    hide Inv, IsItem, Reaches, DistinctItems;
    var c := TestConfig(capacity, threads, perThread);
    TestItemsDistinct(capacity, threads, perThread);
    ReachableInv(c, moves, s);
    PopReturnsPushed(c, s, t);
    FirstReceipt(c, s, t);
    ItemInRange(capacity, threads, perThread, s.who[s.cons[t].pos]);
  }

  /** The final check of the test: `received[v] == 1` for every v, whatever the interleaving was. */
  lemma StressTestPasses(capacity: nat, threads: nat, perThread: nat, moves: seq<Move>, s: State, v: Value)
    requires capacity >= 2 && Reaches(TestConfig(capacity, threads, perThread), moves, s) && Finished(s)
    ensures s.received[v] == if 1 <= v <= threads * perThread then 1 else 0
  {
    hide Inv, IsItem;
    var c := TestConfig(capacity, threads, perThread);
    TestItemsDistinct(capacity, threads, perThread);
    ReachableInv(c, moves, s);
    SumSame(c.items, Length, c.quotas, Quota);
    ExactlyOnce(c, s, v);
    TestPushed(capacity, threads, perThread, v);
  }

  lemma TestPushed(capacity: nat, threads: nat, perThread: nat, v: Value)
    ensures Pushed(TestConfig(capacity, threads, perThread), v) <==> 1 <= v <= threads * perThread
  {
    var c := TestConfig(capacity, threads, perThread);
    if Pushed(c, v) {
      var w: (nat, nat) :| IsItem(c, w) && c.items[w.0][w.1] == v;
      TestItem(capacity, threads, perThread, w);
    }
    if 1 <= v <= threads * perThread {
      ItemOf(threads, perThread, v);
      var w: (nat, nat) := ((v - 1) / perThread, (v - 1) % perThread);
      assert IsItem(c, w) && c.items[w.0][w.1] == v;
    }
  }

  lemma ItemOf(threads: nat, perThread: nat, v: nat)
    requires 1 <= v <= threads * perThread
    ensures perThread > 0 && (v - 1) / perThread < threads
    ensures (v - 1) / perThread * perThread + (v - 1) % perThread + 1 == v
  {
    if perThread > 0 && (v - 1) / perThread >= threads {
      MulLe(threads, (v - 1) / perThread, perThread);
    }
  }

  lemma MulLe(a: nat, b: nat, d: nat)
    requires a <= b
    ensures a * d <= b * d
  {
    if a < b { MulGap(a, b, d); }
  }
}
