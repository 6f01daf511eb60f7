/** The Treiber stack with a tagged head and hazard pointers under its producers and consumers, as a step system:
    one step per atomic access, any interleaving, freed addresses handed out again by malloc. */
module TreiberStack {
  import opened Lists
  import opened Sums

  type Addr = nat
  const NULL: Addr := 0
  const MAX_HAZARD_THREADS: nat := 32

  /** Whose a node is (history): its producer's, linked in the stack, popped by a consumer, or on the retire list. */
  datatype Phase = Owned(t: nat) | Linked | Popped(t: nat) | Retired

  datatype Cell = Cell(value: int, next: Addr, retireNext: Addr, phase: Phase)

  datatype Tagged = Tagged(ptr: Addr, tag: nat)

  datatype Lock = Unlocked | Held(t: nat)

  /** A producer in producer_fn and stack_push: `j` messages pushed, `node` being pushed, `seen` the head last seen. */
  datatype PPc = PAlloc | PLoad | PLink | PCas | PCount | PSignal | PDone
  datatype Producer = Producer(pc: PPc, j: nat, node: Addr, seen: Tagged)

  /** A consumer in consumer_fn, stack_pop, retire_node and retire_sweep. `raw` and `next` are the locals of the pop;
      `final` marks the second pop of the exit test and `last` the sweep after the loop; `i` is the hazard slot a scan
      reads next; `prev`, `cur` and `nxt` are the locals of the sweep, at position `k` of the list (history). */
  datatype CPc =
    | CSlot | CLoad | CClearEmpty | CHazard | CRecheck | CNext | CCas | CClear | CCheckActive | CCheckEmpty
    | CScan | CFree | CRetire | CSweepLock | CSweepLoop | CSweepScan | CSweepKeep | CSweepFree | CSweepUnlock
    | CFinish | CDone
  datatype Consumer = Consumer(pc: CPc, slot: int, raw: Tagged, next: Addr, final: bool, last: bool,
                               node: Addr, i: nat, count: nat, prev: Addr, cur: Addr, nxt: Addr, k: nat)

  /** `stack` and `retired` are history: the nodes linked from the head and from the retire list, in order.
      `fault` becomes true when a step reads, writes or frees memory that is not allocated, or frees a node that the
      thread has not popped or that is not on the retire list. */
  datatype State = State(
    heap: map<Addr, Cell>, head: Tagged, hazard: seq<Addr>, nextSlot: nat, lock: Lock, retireList: Addr,
    prods: seq<Producer>, cons: seq<Consumer>, active: nat, totalPushed: nat, totalConsumed: nat,
    stack: seq<Addr>, retired: seq<Addr>, fault: bool)

  datatype Config = Config(messages: nat, producers: nat, consumers: nat)

  /** One access of a thread. `address` is what malloc returns and `junk` what the memory holds then; `spurious` lets a
      weak compare-and-swap fail without reason. */
  datatype Move = Move(producer: bool, t: nat, address: Addr, junk: Cell, spurious: bool)

  // ---- the program

  function NextMessage(c: Config, j: nat): PPc {
    if j < c.messages then PAlloc else PSignal
  }

  function Initial(c: Config): State {
    State(map[], Tagged(NULL, 0), seq(MAX_HAZARD_THREADS, _ => NULL), 0, Unlocked, NULL,
          seq(c.producers, _ => Producer(NextMessage(c, 0), 0, NULL, Tagged(NULL, 0))),
          seq(c.consumers, _ => Consumer(CSlot, -1, Tagged(NULL, 0), NULL, false, false, NULL, 0, 0, NULL, NULL,
            NULL, 0)),
          c.producers, 0, 0, [], [], false)
  }

  ghost function ProducerStep(c: Config, s: State, t: nat, m: Move): State
    requires t < |s.prods|
  {
    var p := s.prods[t];
    match p.pc
    case PAlloc =>
      if m.address == NULL || m.address in s.heap then s else
      s.(heap := s.heap[m.address := Cell(p.j, m.junk.next, m.junk.retireNext, Owned(t))],
         prods := s.prods[t := p.(pc := PLoad, node := m.address)])
    case PLoad => s.(prods := s.prods[t := p.(pc := PLink, seen := s.head)])
    case PLink =>
      if p.node !in s.heap then s.(fault := true) else
      s.(heap := s.heap[p.node := s.heap[p.node].(next := p.seen.ptr)], prods := s.prods[t := p.(pc := PCas)])
    case PCas =>
      if s.head == p.seen && !m.spurious then
        if p.node !in s.heap then s.(fault := true) else
        s.(head := Tagged(p.node, p.seen.tag + 1), prods := s.prods[t := p.(pc := PCount)],
           heap := s.heap[p.node := s.heap[p.node].(phase := Linked)], stack := [p.node] + s.stack)
      else
        s.(prods := s.prods[t := p.(pc := PLink, seen := s.head)])
    case PCount =>
      s.(totalPushed := s.totalPushed + 1, prods := s.prods[t := p.(pc := NextMessage(c, p.j + 1), j := p.j + 1)])
    case PSignal => s.(active := if s.active > 0 then s.active - 1 else 0, prods := s.prods[t := p.(pc := PDone)])
    case PDone => s
  }

  /** stack_pop and the exit test of consumer_fn. */
  ghost function PopStep(c: Config, s: State, t: nat, m: Move): State
    requires t < |s.cons|
  {
    var q := s.cons[t];
    match q.pc
    case CSlot => s.(nextSlot := s.nextSlot + 1, cons := s.cons[t := q.(pc := CLoad, slot := s.nextSlot)])
    case CLoad => s.(cons := s.cons[t := q.(pc := if s.head.ptr == NULL then CClearEmpty else CHazard, raw := s.head)])
    case CClearEmpty =>
      if !(0 <= q.slot < |s.hazard|) then s.(fault := true) else
      s.(hazard := s.hazard[q.slot := NULL],
         cons := s.cons[t := if q.final then q.(pc := CSweepLock, last := true) else q.(pc := CCheckActive)])
    case CHazard =>
      if !(0 <= q.slot < |s.hazard|) then s.(fault := true) else
      s.(hazard := s.hazard[q.slot := q.raw.ptr], cons := s.cons[t := q.(pc := CRecheck)])
    case CRecheck => s.(cons := s.cons[t := q.(pc := if s.head == q.raw then CNext else CLoad)])
    case CNext =>
      if q.raw.ptr !in s.heap then s.(fault := true) else
      s.(cons := s.cons[t := q.(pc := CCas, next := s.heap[q.raw.ptr].next)])
    case CCas =>
      if s.head == q.raw && !m.spurious then
        if q.raw.ptr !in s.heap || s.stack == [] then s.(fault := true) else
        s.(head := Tagged(q.next, q.raw.tag + 1), cons := s.cons[t := q.(pc := CClear, node := q.raw.ptr)],
           heap := s.heap[q.raw.ptr := s.heap[q.raw.ptr].(phase := Popped(t))], stack := s.stack[1..])
      else
        s.(cons := s.cons[t := q.(pc := CLoad)])
    case CClear =>
      if !(0 <= q.slot < |s.hazard|) then s.(fault := true) else
      s.(hazard := s.hazard[q.slot := NULL], cons :=
        s.cons[t := q.(pc := CScan, i := 0, count := q.count + 1, final := false)])
    case CCheckActive => s.(cons := s.cons[t := q.(pc := if s.active == 0 then CCheckEmpty else CLoad)])
    case CCheckEmpty => s.(cons := s.cons[t := q.(pc := CLoad, final := s.head.ptr == NULL)])
    case _ => s
  }

  /** After a node is retired: a sweep every 256 nodes. */
  function AfterRetire(count: nat): CPc {
    if count % 256 == 0 then CSweepLock else CLoad
  }

  /** node_is_hazardous on the node at a, one slot at a time. */
  function ScanNext(s: State, q: Consumer, a: Addr, notFound: CPc, found: CPc): Consumer {
    if q.i >= |s.hazard| then q.(pc := notFound)
    else if s.hazard[q.i] == a then q.(pc := found)
    else q.(i := q.i + 1)
  }

  /** retire_node and retire_sweep. Memory guarded by the retire lock is handled in one step per round. */
  ghost function ReclaimStep(c: Config, s: State, t: nat): State
    requires t < |s.cons|
  {
    var q := s.cons[t];
    match q.pc
    case CScan => s.(cons := s.cons[t := ScanNext(s, q, q.node, CFree, CRetire)])
    case CFree =>
      if q.node !in s.heap || s.heap[q.node].phase != Popped(t) then s.(fault := true) else
      s.(heap := s.heap - {q.node}, cons := s.cons[t := q.(pc := AfterRetire(q.count))])
    case CRetire =>
      if s.lock != Unlocked then s else
      if q.node !in s.heap then s.(fault := true) else
      s.(heap := s.heap[q.node := s.heap[q.node].(retireNext := s.retireList, phase := Retired)], retireList := q.node,
         retired := [q.node] + s.retired, cons := s.cons[t := q.(pc := AfterRetire(q.count))])
    case CSweepLock =>
      if s.lock != Unlocked then s else
      s.(lock := Held(t), cons := s.cons[t := q.(pc := CSweepLoop, prev := NULL, cur := s.retireList, k := 0)])
    case CSweepLoop =>
      if q.cur == NULL then s.(cons := s.cons[t := q.(pc := CSweepUnlock)]) else
      if q.cur !in s.heap then s.(fault := true) else
      s.(cons := s.cons[t := q.(pc := CSweepScan, nxt := s.heap[q.cur].retireNext, i := 0)])
    case CSweepScan => s.(cons := s.cons[t := ScanNext(s, q, q.cur, CSweepFree, CSweepKeep)])
    case CSweepKeep => s.(cons := s.cons[t := q.(pc := CSweepLoop, prev := q.cur, cur := q.nxt, k := q.k + 1)])
    case CSweepFree =>
      if q.cur !in s.heap || s.heap[q.cur].phase != Retired || (q.prev != NULL && q.prev !in s.heap)
        || q.k >= |s.retired| then s.(fault := true) else
      s.(heap := (if q.prev == NULL then s.heap else s.heap[q.prev := s.heap[q.prev].(retireNext := q.nxt)]) - {q.cur},
         retireList := if q.prev == NULL then q.nxt else s.retireList,
         retired := s.retired[..q.k] + s.retired[q.k + 1..], cons := s.cons[t := q.(pc := CSweepLoop, cur := q.nxt)])
    case CSweepUnlock =>
      s.(lock := Unlocked, cons := s.cons[t := q.(pc := if q.last then CFinish else CLoad)])
    case CFinish => s.(totalConsumed := s.totalConsumed + q.count, cons := s.cons[t := q.(pc := CDone)])
    case _ => s
  }

  predicate Reclaiming(pc: CPc) {
    pc in {CScan, CFree, CRetire, CSweepLock, CSweepLoop, CSweepScan, CSweepKeep, CSweepFree, CSweepUnlock, CFinish}
  }

  ghost function Step(c: Config, s: State, m: Move): State {
    if m.producer then
      if m.t < |s.prods| then ProducerStep(c, s, m.t, m) else s
    else if m.t < |s.cons| then
      if Reclaiming(s.cons[m.t].pc) then ReclaimStep(c, s, m.t) else PopStep(c, s, m.t, m)
    else s
  }

  // ---- the invariant

  function At(l: seq<Addr>, k: int): Addr {
    ElementOr(l, k, NULL)
  }

  ghost predicate StackLink(s: State, k: nat)
    requires k < |s.stack|
  {
    s.stack[k] in s.heap && s.heap[s.stack[k]].phase == Linked && s.heap[s.stack[k]].next == At(s.stack, k + 1)
  }

  ghost predicate RetireLink(s: State, k: nat)
    requires k < |s.retired|
  {
    s.retired[k] in s.heap && s.heap[s.retired[k]].phase == Retired
      && s.heap[s.retired[k]].retireNext == At(s.retired, k + 1)
  }

  /** The head links exactly the nodes of the stack, and the retire list exactly the retired nodes. */
  ghost predicate Chains(s: State) {
    && NULL !in s.heap && Distinct(s.stack) && Distinct(s.retired)
    && s.head.ptr == At(s.stack, 0) && s.retireList == At(s.retired, 0)
    && (forall k {:trigger StackLink(s, k)} :: 0 <= k < |s.stack| ==> StackLink(s, k))
    && (forall k {:trigger RetireLink(s, k)} :: 0 <= k < |s.retired| ==> RetireLink(s, k))
  }

  /** A head seen earlier: a smaller tag, or the very same word. */
  ghost predicate Seen(s: State, r: Tagged) {
    r.tag <= s.head.tag && (r.tag == s.head.tag ==> r == s.head)
  }

  predicate Pushing(pc: PPc) { pc == PLoad || pc == PLink || pc == PCas }

  ghost predicate ProducerOk(c: Config, s: State, t: nat, p: Producer) {
    && (if p.pc == PSignal || p.pc == PDone then p.j == c.messages else p.j < c.messages)
    && (Pushing(p.pc) ==> p.node in s.heap && s.heap[p.node].phase == Owned(t))
    && (p.pc == PLink || p.pc == PCas ==> Seen(s, p.seen))
    && (p.pc == PCas ==> s.heap[p.node].next == p.seen.ptr)
  }

  /** The consumer has published a hazard and found the head unchanged since: it may dereference. */
  predicate Protected(q: Consumer) { q.pc == CNext || q.pc == CCas }

  predicate HoldsNode(q: Consumer) { q.pc == CClear || q.pc == CScan || q.pc == CFree || q.pc == CRetire }

  predicate Sweeping(q: Consumer) {
    q.pc == CSweepLoop || q.pc == CSweepScan || q.pc == CSweepKeep || q.pc == CSweepFree || q.pc == CSweepUnlock
  }

  /** At a node of the retire list, in a sweep. */
  predicate AtNode(q: Consumer) { q.pc == CSweepScan || q.pc == CSweepKeep || q.pc == CSweepFree }

  /** The consumer is deciding whether the node at a may be freed, or about to free it. */
  predicate Scans(q: Consumer, a: Addr) {
    ((q.pc == CScan || q.pc == CFree) && q.node == a) || ((q.pc == CSweepScan || q.pc == CSweepFree) && q.cur == a)
  }

  ghost predicate PopOk(s: State, q: Consumer) {
    && (q.pc == CHazard || q.pc == CRecheck || Protected(q) ==> q.raw.ptr != NULL && Seen(s, q.raw))
    && (q.pc == CRecheck || Protected(q) ==> 0 <= q.slot < |s.hazard| && s.hazard[q.slot] == q.raw.ptr)
    && (Protected(q) ==> q.raw.ptr in s.heap)
    && (q.pc == CCas && q.raw == s.head ==> q.next == s.heap[q.raw.ptr].next)
  }

  ghost predicate ReclaimOk(s: State, t: nat, q: Consumer) {
    && (HoldsNode(q) ==> q.node in s.heap && s.heap[q.node].phase == Popped(t))
    && (q.pc == CFree || q.pc == CSweepFree ==> q.i >= |s.hazard|)
    && (Sweeping(q) ==> s.lock == Held(t))
    && (Sweeping(q) && q.pc != CSweepUnlock ==>
      q.k <= |s.retired| && q.cur == At(s.retired, q.k) && q.prev == At(s.retired, q.k - 1))
    && (AtNode(q) ==> q.k < |s.retired| && q.nxt == At(s.retired, q.k + 1))
  }

  /** The exit test: once seen, the end of production and the empty stack are for good. */
  ghost predicate ExitOk(s: State, q: Consumer) {
    && (q.pc == CCheckEmpty || q.final ==> s.active == 0)
    && (q.last || (q.final && q.pc == CClearEmpty) ==> s.active == 0 && s.stack == [])
    && (q.last ==> Sweeping(q) || q.pc == CSweepLock || q.pc == CFinish || q.pc == CDone)
    && (q.pc == CFinish || q.pc == CDone ==> q.last)
  }

  ghost predicate ConsumerOk(s: State, t: nat, q: Consumer) {
    && (q.pc != CSlot ==> 0 <= q.slot < s.nextSlot)
    && PopOk(s, q) && ReclaimOk(s, t, q) && ExitOk(s, q)
  }

  /** Nobody scanning for hazards on a node has passed the slot of a thread that may dereference it. */
  ghost predicate HazardSeen(s: State, t: nat, u: nat)
    requires t < |s.cons| && u < |s.cons|
  {
    Protected(s.cons[t]) && Scans(s.cons[u], s.cons[t].raw.ptr) ==> s.cons[u].i <= s.cons[t].slot
  }

  ghost predicate Threads(c: Config, s: State) {
    && |s.hazard| == MAX_HAZARD_THREADS && |s.prods| == c.producers && |s.cons| == c.consumers <= MAX_HAZARD_THREADS
    && (forall t {:trigger ProducerOk(c, s, t, s.prods[t])} :: 0 <= t < |s.prods| ==> ProducerOk(c, s, t, s.prods[t]))
    && (forall t {:trigger ConsumerOk(s, t, s.cons[t])} :: 0 <= t < |s.cons| ==> ConsumerOk(s, t, s.cons[t]))
  }

  ghost predicate Hazards(s: State) {
    && (forall t, u {:trigger HazardSeen(s, t, u)} :: 0 <= t < |s.cons| && 0 <= u < |s.cons| ==> HazardSeen(s, t, u))
    && (forall t, u :: 0 <= t < u < |s.cons| && s.cons[t].pc != CSlot && s.cons[u].pc != CSlot ==>
      s.cons[t].slot != s.cons[u].slot)
    && (s.lock.Held? ==> s.lock.t < |s.cons| && Sweeping(s.cons[s.lock.t]))
  }

  function HasSlot(q: Consumer): nat { if q.pc == CSlot then 0 else 1 }
  function IsActive(p: Producer): nat { if p.pc == PDone then 0 else 1 }
  function Pushes(p: Producer): nat { if p.pc == PCount then p.j + 1 else p.j }
  function Counted(p: Producer): nat { p.j }
  function Pops(q: Consumer): nat { if q.pc == CClear then q.count + 1 else q.count }
  function Reported(q: Consumer): nat { if q.pc == CDone then q.count else 0 }

  ghost predicate Totals(s: State) {
    && s.nextSlot == Sum(s.cons, HasSlot) && s.active == Sum(s.prods, IsActive)
    && |s.stack| + Sum(s.cons, Pops) == Sum(s.prods, Pushes)
    && s.totalPushed == Sum(s.prods, Counted) && s.totalConsumed == Sum(s.cons, Reported)
  }

  ghost predicate Inv(c: Config, s: State) {
    !s.fault && Chains(s) && Threads(c, s) && Hazards(s) && Totals(s)
  }

  // ---- steps that change one thread only

  ghost predicate HazardsOf(s: State, t: nat)
    requires t < |s.cons|
  {
    forall u {:trigger HazardSeen(s, t, u)} {:trigger HazardSeen(s, u, t)} :: 0 <= u < |s.cons| ==>
      HazardSeen(s, t, u) && HazardSeen(s, u, t)
  }

  lemma ConsumerLocal(c: Config, s: State, t: nat, q: Consumer)
    requires Inv(c, s) && t < |s.cons| && ConsumerOk(s, t, q) && q.slot == s.cons[t].slot
    requires HasSlot(q) == HasSlot(s.cons[t]) && Pops(q) == Pops(s.cons[t]) && Reported(q) == Reported(s.cons[t])
    requires Sweeping(q) == Sweeping(s.cons[t]) && HazardsOf(s.(cons := s.cons[t := q]), t)
    ensures Inv(c, s.(cons := s.cons[t := q]))
  {
    hide ConsumerOk, ProducerOk;
    var s' := s.(cons := s.cons[t := q]);
    SumUpdate(s.cons, t, q, HasSlot);
    SumUpdate(s.cons, t, q, Pops);
    SumUpdate(s.cons, t, q, Reported);
    SameShared(c, s, s');
    forall k | 0 <= k < |s'.cons| ensures ConsumerOk(s', k, s'.cons[k]) {
      assert k != t ==> ConsumerOk(s, k, s.cons[k]);
    }
    forall k | 0 <= k < |s'.prods| ensures ProducerOk(c, s', k, s'.prods[k]) { assert ProducerOk(c, s, k, s.prods[k]); }
    forall k | 0 <= k < |s'.stack| ensures StackLink(s', k) { assert StackLink(s, k); }
    forall k | 0 <= k < |s'.retired| ensures RetireLink(s', k) { assert RetireLink(s, k); }
    forall k, u | 0 <= k < |s'.cons| && 0 <= u < |s'.cons| ensures HazardSeen(s', k, u) {
      if k == t || u == t { assert HazardSeen(s', t, if k == t then u else k)
        && HazardSeen(s', if k == t then u else k, t); } else {
        assert HazardSeen(s, k, u);
      }
    }
  }

  /** What is required of a thread does not depend on the other threads. */
  lemma SameShared(c: Config, s: State, s': State)
    requires s'.heap == s.heap && s'.head == s.head && s'.hazard == s.hazard && s'.nextSlot == s.nextSlot
    requires s'.lock == s.lock && s'.stack == s.stack && s'.retired == s.retired && s'.active == s.active
    ensures forall t, q {:trigger ConsumerOk(s', t, q)} :: ConsumerOk(s, t, q) == ConsumerOk(s', t, q)
    ensures forall t, p {:trigger ProducerOk(c, s', t, p)} :: ProducerOk(c, s, t, p) == ProducerOk(c, s', t, p)
  {
  }

  lemma ProducerLocal(c: Config, s: State, t: nat, p: Producer)
    requires Inv(c, s) && t < |s.prods| && ProducerOk(c, s, t, p) && p.j == s.prods[t].j
    requires Pushes(p) == Pushes(s.prods[t]) && IsActive(p) == IsActive(s.prods[t])
    ensures Inv(c, s.(prods := s.prods[t := p]))
  {
    hide ConsumerOk, ProducerOk;
    var s' := s.(prods := s.prods[t := p]);
    SumUpdate(s.prods, t, p, Pushes);
    SumUpdate(s.prods, t, p, IsActive);
    SumUpdate(s.prods, t, p, Counted);
    SameShared(c, s, s');
    forall k | 0 <= k < |s'.cons| ensures ConsumerOk(s', k, s'.cons[k]) { assert ConsumerOk(s, k, s.cons[k]); }
    forall k | 0 <= k < |s'.prods| ensures ProducerOk(c, s', k, s'.prods[k]) {
      assert k != t ==> ProducerOk(c, s, k, s.prods[k]);
    }
    forall k | 0 <= k < |s'.stack| ensures StackLink(s', k) { assert StackLink(s, k); }
    forall k | 0 <= k < |s'.retired| ensures RetireLink(s', k) { assert RetireLink(s, k); }
    forall k, u | 0 <= k < |s'.cons| && 0 <= u < |s'.cons| ensures HazardSeen(s', k, u) { assert HazardSeen(s, k, u); }
  }

  // ---- the local steps, one by one

  lemma Slots(c: Config, s: State, t: nat)
    requires Inv(c, s) && t < |s.cons|
    ensures s.nextSlot <= |s.cons| <= MAX_HAZARD_THREADS
    ensures s.cons[t].pc != CSlot ==> 0 <= s.cons[t].slot < |s.hazard|
    ensures s.cons[t].pc == CSlot ==> s.nextSlot < |s.cons|
  {
    SumAtMost(s.cons, HasSlot, t);
    assert ConsumerOk(s, t, s.cons[t]);
  }

  /** Between its hazard and the re-check the head did not move: the node is linked, nobody scans for it. */
  lemma RecheckStep(c: Config, s: State, t: nat, m: Move)
    requires Inv(c, s) && t < |s.cons| && s.cons[t].pc == CRecheck
    ensures Inv(c, PopStep(c, s, t, m))
  {
    hide Totals;
    var q := s.cons[t];
    assert ConsumerOk(s, t, q);
    var q' := q.(pc := if s.head == q.raw then CNext else CLoad);
    var s' := s.(cons := s.cons[t := q']);
    if s.head == q.raw {
      assert StackLink(s, 0);
      forall u | 0 <= u < |s.cons| ensures !Scans(s.cons[u], q.raw.ptr) { ScannedIsUnlinked(c, s, u, q.raw.ptr); }
    }
    forall u | 0 <= u < |s'.cons| ensures HazardSeen(s', t, u) && HazardSeen(s', u, t) {
      assert HazardSeen(s, u, t) && HazardSeen(s, t, u);
    }
    ConsumerLocal(c, s, t, q');
  }

  lemma ScannedIsUnlinked(c: Config, s: State, u: nat, a: Addr)
    requires Inv(c, s) && u < |s.cons| && a in s.heap && s.heap[a].phase == Linked
    ensures !Scans(s.cons[u], a)
  {
    assert ConsumerOk(s, u, s.cons[u]);
    if AtNode(s.cons[u]) { assert RetireLink(s, s.cons[u].k); }
  }

  /** A scan of slot i that does not find the node at a: whoever may dereference it has another slot. */
  lemma ScanPasses(c: Config, s: State, t: nat, u: nat, a: Addr)
    requires Inv(c, s) && t < |s.cons| && u < |s.cons| && Scans(s.cons[t], a)
    requires s.cons[t].i < |s.hazard| && s.hazard[s.cons[t].i] != a
    ensures Protected(s.cons[u]) && s.cons[u].raw.ptr == a ==> s.cons[t].i < s.cons[u].slot
  {
    hide Totals, Chains;
    assert ConsumerOk(s, u, s.cons[u]);
    assert HazardSeen(s, u, t);
  }

  /** The scanner's next state, either in retire_node or in retire_sweep. */
  ghost predicate ScanMove(s: State, q: Consumer, q': Consumer) {
    || (q.pc == CScan && q' == ScanNext(s, q, q.node, CFree, CRetire))
    || (q.pc == CSweepScan && q' == ScanNext(s, q, q.cur, CSweepFree, CSweepKeep))
  }

  lemma ScanHazards(c: Config, s: State, t: nat, q: Consumer)
    requires Inv(c, s) && t < |s.cons| && ScanMove(s, s.cons[t], q)
    ensures HazardsOf(s.(cons := s.cons[t := q]), t)
  {
    hide Totals, Chains, Threads;
    var s' := s.(cons := s.cons[t := q]);
    var a := if q.pc == CScan || q.pc == CFree || q.pc == CRetire then q.node else q.cur;
    forall u | 0 <= u < |s'.cons| ensures HazardSeen(s', t, u) && HazardSeen(s', u, t) {
      assert HazardSeen(s, u, t) && HazardSeen(s, t, u);
      if s.cons[t].i < |s.hazard| && s.hazard[s.cons[t].i] != a { ScanPasses(c, s, t, u, a); }
    }
  }

  lemma RetireScanOk(s: State, t: nat, q: Consumer)
    requires ConsumerOk(s, t, q) && q.pc == CScan
    ensures ConsumerOk(s, t, ScanNext(s, q, q.node, CFree, CRetire))
  {
  }

  lemma SweepScanOk(s: State, t: nat, q: Consumer)
    requires ConsumerOk(s, t, q) && q.pc == CSweepScan
    ensures ConsumerOk(s, t, ScanNext(s, q, q.cur, CSweepFree, CSweepKeep))
  {
  }

  lemma ScanStep(c: Config, s: State, t: nat)
    requires Inv(c, s) && t < |s.cons| && (s.cons[t].pc == CScan || s.cons[t].pc == CSweepScan)
    ensures Inv(c, ReclaimStep(c, s, t))
  {
    hide Totals, Chains, Hazards, ConsumerOk, ProducerOk;
    var q := ReclaimStep(c, s, t).cons[t];
    ScanHazards(c, s, t, q);
    assert ConsumerOk(s, t, s.cons[t]);
    if s.cons[t].pc == CScan { RetireScanOk(s, t, s.cons[t]); } else { SweepScanOk(s, t, s.cons[t]); }
    ConsumerLocal(c, s, t, q);
  }

  /** A step that gains no right to dereference and at most starts a scan disturbs no hazard. */
  lemma QuietHazards(c: Config, s: State, t: nat, q: Consumer)
    requires Inv(c, s) && t < |s.cons|
      && (Protected(q) ==> Protected(s.cons[t]) && q.raw == s.cons[t].raw && q.slot == s.cons[t].slot)
    requires !(q.pc == CFree || q.pc == CSweepFree) && (q.pc == CScan || q.pc == CSweepScan ==> q.i == 0)
    ensures HazardsOf(s.(cons := s.cons[t := q]), t)
  {
    hide Totals, Chains, ProducerOk, ReclaimOk, ExitOk;
    var s' := s.(cons := s.cons[t := q]);
    forall u | 0 <= u < |s'.cons| ensures HazardSeen(s', t, u) && HazardSeen(s', u, t) {
      assert HazardSeen(s, t, u);
      assert ConsumerOk(s, u, s.cons[u]);
    }
  }

  ghost predicate PlainPop(s: State, t: nat, m: Move)
    requires t < |s.cons|
  {
    var pc := s.cons[t].pc;
    pc == CLoad || pc == CNext || pc == CCheckActive || pc == CCheckEmpty
      || (pc == CCas && (s.head != s.cons[t].raw || m.spurious))
  }

  lemma PlainPopOk(c: Config, s: State, t: nat, m: Move)
    requires Inv(c, s) && t < |s.cons| && PlainPop(s, t, m)
    ensures ConsumerOk(s, t, PopStep(c, s, t, m).cons[t])
  {
    hide Totals, Hazards, ProducerOk;
    assert ConsumerOk(s, t, s.cons[t]);
    assert s.head.ptr == NULL ==> s.stack == [] by { if s.stack != [] { assert StackLink(s, 0); } }
  }

  /** The other steps of a pop that touch only locals. */
  lemma PlainPopStep(c: Config, s: State, t: nat, m: Move)
    requires Inv(c, s) && t < |s.cons| && PlainPop(s, t, m)
    ensures Inv(c, PopStep(c, s, t, m))
  {
    hide Totals, Hazards, Chains, ProducerOk;
    PlainPopOk(c, s, t, m);
    assert ConsumerOk(s, t, s.cons[t]);
    QuietHazards(c, s, t, PopStep(c, s, t, m).cons[t]);
    ConsumerLocal(c, s, t, PopStep(c, s, t, m).cons[t]);
  }

  lemma SweepEndOk(s: State, t: nat, q: Consumer)
    requires ConsumerOk(s, t, q) && q.pc == CSweepLoop
    ensures ConsumerOk(s, t, q.(pc := CSweepUnlock))
  {
  }

  lemma SweepLoopOk(s: State, t: nat, q: Consumer)
    requires Chains(s) && ConsumerOk(s, t, q) && q.pc == CSweepLoop && q.cur != NULL
    ensures q.cur in s.heap && ConsumerOk(s, t, q.(pc := CSweepScan, nxt := s.heap[q.cur].retireNext, i := 0))
  {
    assert RetireLink(s, q.k);
  }

  lemma SweepKeepOk(s: State, t: nat, q: Consumer)
    requires ConsumerOk(s, t, q) && q.pc == CSweepKeep
    ensures ConsumerOk(s, t, q.(pc := CSweepLoop, prev := q.cur, cur := q.nxt, k := q.k + 1))
  {
  }

  /** The steps of a sweep that touch only locals. */
  lemma PlainSweepStep(c: Config, s: State, t: nat)
    requires Inv(c, s) && t < |s.cons| && (s.cons[t].pc == CSweepLoop || s.cons[t].pc == CSweepKeep)
    ensures Inv(c, ReclaimStep(c, s, t))
  {
    hide Totals, Hazards, Chains, ConsumerOk, ProducerOk;
    assert ConsumerOk(s, t, s.cons[t]);
    if s.cons[t].pc == CSweepKeep {
      SweepKeepOk(s, t, s.cons[t]);
    } else if s.cons[t].cur == NULL {
      SweepEndOk(s, t, s.cons[t]);
    } else {
      SweepLoopOk(s, t, s.cons[t]);
    }
    QuietHazards(c, s, t, ReclaimStep(c, s, t).cons[t]);
    ConsumerLocal(c, s, t, ReclaimStep(c, s, t).cons[t]);
  }

  // ---- the shared steps of a producer

  /** Hazards concern the consumers and the lock only. */
  lemma SameHazards(s: State, s': State)
    requires Hazards(s) && s'.cons == s.cons && s'.lock == s.lock
    ensures Hazards(s')
  {
    forall t, u | 0 <= t < |s'.cons| && 0 <= u < |s'.cons| ensures HazardSeen(s', t, u) { assert HazardSeen(s, t, u); }
  }

  /** The node of producer t is nobody else's. */
  lemma OwnNode(c: Config, s: State, t: nat)
    requires Inv(c, s) && t < |s.prods| && Pushing(s.prods[t].pc)
    ensures var a := s.prods[t].node;
      && a in s.heap && s.heap[a].phase == Owned(t) && a != NULL && a !in s.stack && a !in s.retired && s.head.ptr != a
  {
    hide Hazards, Totals;
    assert ProducerOk(c, s, t, s.prods[t]);
    forall k | 0 <= k < |s.stack| ensures s.stack[k] != s.prods[t].node { assert StackLink(s, k); }
    forall k | 0 <= k < |s.retired| ensures s.retired[k] != s.prods[t].node { assert RetireLink(s, k); }
  }

  /** The heap changes at one address, which is in neither list, before and after. */
  lemma ChainsKept(s: State, s': State, a: Addr)
    requires Chains(s) && a != NULL && a !in s.stack && a !in s.retired
    requires s'.head == s.head && s'.retireList == s.retireList && s'.stack == s.stack && s'.retired == s.retired
    requires NULL !in s'.heap && forall x :: x in s.heap && x != a ==> x in s'.heap && s'.heap[x] == s.heap[x]
    ensures Chains(s')
  {
    forall k | 0 <= k < |s'.stack| ensures StackLink(s', k) { assert StackLink(s, k); }
    forall k | 0 <= k < |s'.retired| ensures RetireLink(s', k) { assert RetireLink(s, k); }
  }

  /** No consumer depends on a producer's node or on unallocated memory. */
  lemma ConsumerUnmoved(c: Config, s: State, s': State, k: nat, a: Addr)
    requires Inv(c, s) && k < |s.cons| && ConsumerOk(s, k, s.cons[k])
    requires s'.head == s.head && s'.hazard == s.hazard && s'.nextSlot == s.nextSlot && s'.lock == s.lock
    requires s'.stack == s.stack && s'.retired == s.retired && s'.active == s.active
    requires forall x :: x in s.heap && x != a ==> x in s'.heap && s'.heap[x] == s.heap[x]
    requires a in s.heap ==> a in s'.heap && s.heap[a].phase.Owned? && s.head.ptr != a
    ensures ConsumerOk(s', k, s.cons[k])
  {
    hide Hazards, Totals, Chains, Threads;
  }

  lemma AllocStep(c: Config, s: State, t: nat, m: Move)
    requires Inv(c, s) && t < |s.prods| && s.prods[t].pc == PAlloc
    ensures Inv(c, ProducerStep(c, s, t, m))
  {
    hide ConsumerOk, HazardSeen;
    var s' := ProducerStep(c, s, t, m);
    if s' != s {
      Unallocated(c, s, m.address);
      SumUpdate(s.prods, t, s'.prods[t], Pushes);
      SumUpdate(s.prods, t, s'.prods[t], IsActive);
      SumUpdate(s.prods, t, s'.prods[t], Counted);
      SameHazards(s, s');
      ChainsKept(s, s', m.address);
      forall k | 0 <= k < |s'.cons| ensures ConsumerOk(s', k, s'.cons[k]) {
        assert ConsumerOk(s, k, s.cons[k]);
        ConsumerUnmoved(c, s, s', k, m.address);
      }
      forall k | 0 <= k < |s'.prods| ensures ProducerOk(c, s', k, s'.prods[k]) {
        assert ProducerOk(c, s, k, s.prods[k]);
      }
    }
  }

  lemma Unallocated(c: Config, s: State, a: Addr)
    requires Inv(c, s) && a !in s.heap
    ensures a !in s.stack && a !in s.retired
  {
    hide Hazards, Totals, Threads;
    forall k | 0 <= k < |s.stack| ensures s.stack[k] != a { assert StackLink(s, k); }
    forall k | 0 <= k < |s.retired| ensures s.retired[k] != a { assert RetireLink(s, k); }
  }

  lemma LinkStep(c: Config, s: State, t: nat, m: Move)
    requires Inv(c, s) && t < |s.prods| && s.prods[t].pc == PLink
    ensures Inv(c, ProducerStep(c, s, t, m))
  {
    hide ConsumerOk, HazardSeen;
    var s' := ProducerStep(c, s, t, m);
    OwnNode(c, s, t);
    var a := s.prods[t].node;
    SumUpdate(s.prods, t, s'.prods[t], Pushes);
    SumUpdate(s.prods, t, s'.prods[t], IsActive);
    SumUpdate(s.prods, t, s'.prods[t], Counted);
    SameHazards(s, s');
    ChainsKept(s, s', a);
    forall k | 0 <= k < |s'.cons| ensures ConsumerOk(s', k, s'.cons[k]) {
      assert ConsumerOk(s, k, s.cons[k]);
      ConsumerUnmoved(c, s, s', k, a);
    }
    forall k | 0 <= k < |s'.prods| ensures ProducerOk(c, s', k, s'.prods[k]) { assert ProducerOk(c, s, k, s.prods[k]); }
  }

  lemma SameChains(s: State, s': State)
    requires Chains(s) && s'.heap == s.heap && s'.head == s.head && s'.retireList == s.retireList
    requires s'.stack == s.stack && s'.retired == s.retired
    ensures Chains(s')
  {
    forall k | 0 <= k < |s'.stack| ensures StackLink(s', k) { assert StackLink(s, k); }
    forall k | 0 <= k < |s'.retired| ensures RetireLink(s', k) { assert RetireLink(s, k); }
  }

  /** Counting a push, and signalling the end of production. */
  lemma CountStep(c: Config, s: State, t: nat, m: Move)
    requires Inv(c, s) && t < |s.prods| && (s.prods[t].pc == PCount || s.prods[t].pc == PSignal)
    ensures Inv(c, ProducerStep(c, s, t, m))
  {
    hide Hazards, Chains, ConsumerOk, Totals;
    var s' := ProducerStep(c, s, t, m);
    assert ProducerOk(c, s, t, s.prods[t]);
    CountTotals(c, s, t, m);
    SameHazards(s, s');
    SameChains(s, s');
    forall k | 0 <= k < |s'.cons| ensures ConsumerOk(s', k, s'.cons[k]) {
      assert ConsumerOk(s, k, s.cons[k]);
      ConsumerAfterCount(s, s', k);
    }
    forall k | 0 <= k < |s'.prods| ensures ProducerOk(c, s', k, s'.prods[k]) { assert ProducerOk(c, s, k, s.prods[k]); }
  }

  lemma CountTotals(c: Config, s: State, t: nat, m: Move)
    requires Totals(s) && t < |s.prods| && (s.prods[t].pc == PCount || s.prods[t].pc == PSignal)
    ensures Totals(ProducerStep(c, s, t, m)) && (s.active == 0 ==> ProducerStep(c, s, t, m).active == 0)
  {
    var s' := ProducerStep(c, s, t, m);
    SumUpdate(s.prods, t, s'.prods[t], Pushes);
    SumUpdate(s.prods, t, s'.prods[t], IsActive);
    SumUpdate(s.prods, t, s'.prods[t], Counted);
    SumBounds(s.prods, IsActive, t);
  }

  lemma ConsumerAfterCount(s: State, s': State, k: nat)
    requires k < |s.cons| && ConsumerOk(s, k, s.cons[k]) && s'.heap == s.heap && s'.head == s.head
      && s'.hazard == s.hazard
    requires s'.nextSlot == s.nextSlot && s'.lock == s.lock && s'.stack == s.stack && s'.retired == s.retired
    requires s.active == 0 ==> s'.active == 0
    ensures ConsumerOk(s', k, s.cons[k])
  {
  }

  /** The head moves under a new tag: whatever was seen of it before is seen as an older word. */
  lemma PushStep(c: Config, s: State, t: nat, m: Move)
    requires Inv(c, s) && t < |s.prods| && s.prods[t].pc == PCas && s.head == s.prods[t].seen && !m.spurious
    ensures Inv(c, ProducerStep(c, s, t, m))
    ensures ProducerStep(c, s, t, m).stack == [s.prods[t].node] + s.stack
  {
    hide ConsumerOk, Hazards, Chains;
    var s' := ProducerStep(c, s, t, m);
    OwnNode(c, s, t);
    assert ProducerOk(c, s, t, s.prods[t]);
    SumUpdate(s.prods, t, s'.prods[t], Pushes);
    SumUpdate(s.prods, t, s'.prods[t], IsActive);
    SumUpdate(s.prods, t, s'.prods[t], Counted);
    SumBounds(s.prods, IsActive, t);
    SameHazards(s, s');
    ChainsAfterPush(s, s', s.prods[t].node);
    forall k | 0 <= k < |s'.cons| ensures ConsumerOk(s', k, s'.cons[k]) {
      assert ConsumerOk(s, k, s.cons[k]);
      ConsumerAfterPush(s, s', k, s.prods[t].node);
    }
    forall k | 0 <= k < |s'.prods| ensures ProducerOk(c, s', k, s'.prods[k]) { assert ProducerOk(c, s, k, s.prods[k]); }
  }

  lemma ChainsAfterPush(s: State, s': State, a: Addr)
    requires Chains(s) && a in s.heap && a !in s.stack && a !in s.retired && s.heap[a].next == s.head.ptr
    requires s'.heap == s.heap[a := s.heap[a].(phase := Linked)] && s'.head.ptr == a && s'.stack == [a] + s.stack
    requires s'.retireList == s.retireList && s'.retired == s.retired
    ensures Chains(s')
  {
    forall k | 0 <= k < |s'.stack| ensures StackLink(s', k) { if k > 0 { assert StackLink(s, k - 1); } }
    forall k | 0 <= k < |s'.retired| ensures RetireLink(s', k) { assert RetireLink(s, k); }
  }

  lemma ConsumerAfterPush(s: State, s': State, k: nat, a: Addr)
    requires k < |s.cons| && ConsumerOk(s, k, s.cons[k]) && a in s.heap && s.heap[a].phase.Owned? && s.active > 0
    requires s'.heap == s.heap[a := s.heap[a].(phase := Linked)] && s'.head.tag == s.head.tag + 1
    requires s'.hazard == s.hazard && s'.nextSlot == s.nextSlot && s'.lock == s.lock && s'.retired == s.retired
      && s'.active == s.active
    ensures ConsumerOk(s', k, s.cons[k])
  {
  }

  // ---- the shared steps of a consumer

  /** The hazard part of the invariant after a quiet step of consumer t. */
  lemma HazardsAfter(c: Config, s: State, t: nat, q: Consumer, s': State)
    requires Inv(c, s) && t < |s.cons| && q.slot == s.cons[t].slot && HasSlot(q) == HasSlot(s.cons[t])
    requires HazardsOf(s.(cons := s.cons[t := q]), t) && s'.cons == s.cons[t := q]
    requires s'.lock == s.lock && Sweeping(q) == Sweeping(s.cons[t])
    ensures Hazards(s')
  {
    hide Totals, Chains, Threads;
    var r := s.(cons := s.cons[t := q]);
    forall k, u | 0 <= k < |s'.cons| && 0 <= u < |s'.cons| ensures HazardSeen(s', k, u) {
      if k == t || u == t {
        assert HazardSeen(r, t, if k == t then u else k) && HazardSeen(r, if k == t then u else k, t);
      } else {
        assert HazardSeen(s, k, u);
      }
    }
  }

  lemma TotalsAfter(s: State, t: nat, q: Consumer, s': State)
    requires Totals(s) && t < |s.cons| && s'.cons == s.cons[t := q] && s'.prods == s.prods
    requires s'.nextSlot + HasSlot(s.cons[t]) == s.nextSlot + HasSlot(q) && s'.active == s.active
    requires |s'.stack| + Pops(q) == |s.stack| + Pops(s.cons[t])
    requires s'.totalPushed == s.totalPushed && s'.totalConsumed + Reported(s.cons[t]) == s.totalConsumed + Reported(q)
    ensures Totals(s')
  {
    SumUpdate(s.cons, t, q, HasSlot);
    SumUpdate(s.cons, t, q, Pops);
    SumUpdate(s.cons, t, q, Reported);
  }

  /** A thread writes its own hazard slot only. */
  lemma HazardWriteStep(c: Config, s: State, t: nat, m: Move)
    requires Inv(c, s) && t < |s.cons|
    requires s.cons[t].pc == CClearEmpty || s.cons[t].pc == CHazard || s.cons[t].pc == CClear
    ensures Inv(c, PopStep(c, s, t, m))
  {
    hide ConsumerOk, ProducerOk, Totals, Chains, Hazards;
    Slots(c, s, t);
    var s' := PopStep(c, s, t, m);
    QuietHazards(c, s, t, s'.cons[t]);
    HazardsAfter(c, s, t, s'.cons[t], s');
    TotalsAfter(s, t, s'.cons[t], s');
    SameChains(s, s');
    forall k | 0 <= k < |s'.cons| ensures ConsumerOk(s', k, s'.cons[k]) {
      assert ConsumerOk(s, k, s.cons[k]);
      if k == t { OwnHazardWrite(c, s, t, m); } else { OtherHazardWrite(c, s, s', t, k, s'.hazard[s.cons[t].slot]); }
    }
    forall k | 0 <= k < |s'.prods| ensures ProducerOk(c, s', k, s'.prods[k]) {
      assert ProducerOk(c, s, k, s.prods[k]);
      ProducerUnmoved(c, s, s', k);
    }
  }

  lemma OwnHazardWrite(c: Config, s: State, t: nat, m: Move)
    requires Inv(c, s) && t < |s.cons| && 0 <= s.cons[t].slot < |s.hazard| && ConsumerOk(s, t, s.cons[t])
    requires s.cons[t].pc == CClearEmpty || s.cons[t].pc == CHazard || s.cons[t].pc == CClear
    ensures ConsumerOk(PopStep(c, s, t, m), t, PopStep(c, s, t, m).cons[t])
  {
    hide Totals, Chains, Hazards, Threads;
  }

  lemma OtherHazardWrite(c: Config, s: State, s': State, t: nat, k: nat, v: Addr)
    requires Inv(c, s) && t < |s.cons| && k < |s.cons| && k != t && s.cons[t].pc != CSlot && ConsumerOk(s, k, s.cons[k])
    requires 0 <= s.cons[t].slot < |s.hazard| && s'.hazard == s.hazard[s.cons[t].slot := v]
    requires s'.heap == s.heap && s'.head == s.head && s'.nextSlot == s.nextSlot && s'.lock == s.lock
    requires s'.stack == s.stack && s'.retired == s.retired && s'.active == s.active
    ensures ConsumerOk(s', k, s.cons[k])
  {
    hide Totals, Chains, Threads, HazardSeen;
    assert s.cons[k].pc != CSlot ==> s.cons[k].slot != s.cons[t].slot;
  }

  lemma ProducerUnmoved(c: Config, s: State, s': State, k: nat)
    requires k < |s.prods| && ProducerOk(c, s, k, s.prods[k]) && s'.head == s.head
    requires forall x :: x in s.heap && s.heap[x].phase.Owned? ==> x in s'.heap && s'.heap[x] == s.heap[x]
    ensures ProducerOk(c, s', k, s.prods[k])
  {
  }

  /** Registering a hazard slot. */
  lemma SlotStep(c: Config, s: State, t: nat, m: Move)
    requires Inv(c, s) && t < |s.cons| && s.cons[t].pc == CSlot
    ensures Inv(c, PopStep(c, s, t, m))
  {
    hide ProducerOk, ConsumerOk, Totals, Chains, Hazards;
    var s' := PopStep(c, s, t, m);
    Slots(c, s, t);
    TotalsAfter(s, t, s'.cons[t], s');
    SameChains(s, s');
    HazardsAfterSlot(c, s, t, s');
    forall k | 0 <= k < |s'.cons| ensures ConsumerOk(s', k, s'.cons[k]) {
      assert ConsumerOk(s, k, s.cons[k]);
      ConsumerAfterSlot(s, s', t, k);
    }
    forall k | 0 <= k < |s'.prods| ensures ProducerOk(c, s', k, s'.prods[k]) {
      assert ProducerOk(c, s, k, s.prods[k]);
      ProducerUnmoved(c, s, s', k);
    }
  }

  lemma ConsumerAfterSlot(s: State, s': State, t: nat, k: nat)
    requires t < |s.cons| && k < |s.cons| && s.cons[t].pc == CSlot && ConsumerOk(s, k, s.cons[k])
    requires s' == s.(nextSlot := s.nextSlot + 1, cons := s.cons[t := s.cons[t].(pc := CLoad, slot := s.nextSlot)])
    ensures ConsumerOk(s', k, s'.cons[k])
  {
  }

  lemma HazardsAfterSlot(c: Config, s: State, t: nat, s': State)
    requires Inv(c, s) && t < |s.cons| && s.cons[t].pc == CSlot && s'.lock == s.lock
    requires s'.cons == s.cons[t := s.cons[t].(pc := CLoad, slot := s.nextSlot)]
    ensures Hazards(s')
  {
    hide ProducerOk, PopOk, ReclaimOk, ExitOk, Totals, Chains;
    forall k, u | 0 <= k < |s'.cons| && 0 <= u < |s'.cons| ensures HazardSeen(s', k, u) { assert HazardSeen(s, k, u); }
    forall k | 0 <= k < |s.cons| && k != t && s.cons[k].pc != CSlot ensures s.cons[k].slot < s.nextSlot {
      assert ConsumerOk(s, k, s.cons[k]);
    }
  }

  // ---- taking the top node

  lemma ChainsAfterPop(s: State, s': State, p: Phase)
    requires Chains(s) && s.stack != [] && s.stack[0] in s.heap && !p.Linked? && !p.Retired?
    requires s'.heap == s.heap[s.stack[0] := s.heap[s.stack[0]].(phase := p)] && s'.stack == s.stack[1..]
    requires s'.head.ptr == s.heap[s.stack[0]].next && s'.retireList == s.retireList && s'.retired == s.retired
    ensures Chains(s')
  {
    assert StackLink(s, 0);
    forall k | 0 <= k < |s'.stack| ensures StackLink(s', k) { assert StackLink(s, k + 1); }
    forall k | 0 <= k < |s'.retired| ensures RetireLink(s', k) { assert RetireLink(s, k); }
  }

  lemma ConsumerAfterPop(s: State, s': State, k: nat, t: nat, a: Addr)
    requires k < |s.cons| && k != t && ConsumerOk(s, k, s.cons[k]) && a in s.heap && s.heap[a].phase == Linked
      && s.stack != []
    requires s'.heap == s.heap[a := s.heap[a].(phase := Popped(t))] && s'.head.tag == s.head.tag + 1
      && s'.hazard == s.hazard
    requires s'.nextSlot == s.nextSlot && s'.lock == s.lock && s'.retired == s.retired && s'.active == s.active
    ensures ConsumerOk(s', k, s.cons[k])
  {
  }

  lemma ProducerAfterPop(c: Config, s: State, s': State, k: nat, t: nat, a: Addr)
    requires k < |s.prods| && ProducerOk(c, s, k, s.prods[k]) && a in s.heap && s.heap[a].phase == Linked
    requires s'.heap == s.heap[a := s.heap[a].(phase := Popped(t))] && s'.head.tag == s.head.tag + 1
    ensures ProducerOk(c, s', k, s.prods[k])
  {
  }

  /** The node a popping consumer read is still the top: the whole word is the one it read, so nothing moved since. */
  lemma TopIsRead(c: Config, s: State, t: nat)
    requires Inv(c, s) && t < |s.cons| && s.cons[t].pc == CCas && s.head == s.cons[t].raw
    ensures s.stack != [] && s.stack[0] == s.head.ptr && s.head.ptr in s.heap && s.heap[s.head.ptr].phase == Linked
    ensures s.cons[t].next == s.heap[s.head.ptr].next == At(s.stack, 1)
  {
    hide Totals, Hazards, ReclaimOk, ExitOk;
    assert ConsumerOk(s, t, s.cons[t]);
    assert StackLink(s, 0);
  }

  lemma PopCasStep(c: Config, s: State, t: nat, m: Move)
    requires Inv(c, s) && t < |s.cons| && s.cons[t].pc == CCas && s.head == s.cons[t].raw && !m.spurious
    ensures Inv(c, PopStep(c, s, t, m))
    ensures s.stack != [] && PopStep(c, s, t, m).stack == s.stack[1..] && PopStep(c, s, t, m).cons[t].node == s.stack[0]
  {
    hide ProducerOk, ConsumerOk, Totals, Chains, Hazards;
    TopIsRead(c, s, t);
    var s' := PopStep(c, s, t, m);
    var a := s.head.ptr;
    ChainsAfterPop(s, s', Popped(t));
    QuietHazards(c, s, t, s'.cons[t]);
    HazardsAfter(c, s, t, s'.cons[t], s');
    TotalsAfter(s, t, s'.cons[t], s');
    forall k | 0 <= k < |s'.cons| ensures ConsumerOk(s', k, s'.cons[k]) {
      assert ConsumerOk(s, k, s.cons[k]);
      if k == t { PopperOk(s, s', t); } else { ConsumerAfterPop(s, s', k, t, a); }
    }
    forall k | 0 <= k < |s'.prods| ensures ProducerOk(c, s', k, s'.prods[k]) {
      assert ProducerOk(c, s, k, s.prods[k]);
      ProducerAfterPop(c, s, s', k, t, a);
    }
  }

  lemma PopperOk(s: State, s': State, t: nat)
    requires t < |s.cons| && ConsumerOk(s, t, s.cons[t]) && s.cons[t].pc == CCas && s.stack != []
    requires s.cons[t].raw.ptr in s'.heap && s'.heap[s.cons[t].raw.ptr].phase == Popped(t)
    requires s'.nextSlot == s.nextSlot && s'.active == s.active
    ensures ConsumerOk(s', t, s.cons[t].(pc := CClear, node := s.cons[t].raw.ptr))
  {
  }

  // ---- reclaiming a node

  /** A node about to be freed is nobody's target: no thread may dereference it, and only its owner holds it. */
  lemma FreedIsUnreferenced(c: Config, s: State, t: nat, a: Addr, u: nat)
    requires Inv(c, s) && t < |s.cons| && u < |s.cons| && Scans(s.cons[t], a)
    requires s.cons[t].pc == CFree || s.cons[t].pc == CSweepFree
    ensures Protected(s.cons[u]) ==> s.cons[u].raw.ptr != a
  {
    hide Totals, Chains;
    assert HazardSeen(s, u, t);
    assert ConsumerOk(s, t, s.cons[t]) && ConsumerOk(s, u, s.cons[u]);
  }

  lemma OwnPopped(c: Config, s: State, t: nat)
    requires Inv(c, s) && t < |s.cons| && HoldsNode(s.cons[t])
    ensures var a := s.cons[t].node;
      a in s.heap && s.heap[a].phase == Popped(t) && a != NULL && a !in s.stack && a !in s.retired
  {
    hide Totals, Hazards, PopOk, ExitOk;
    var a := s.cons[t].node;
    assert ConsumerOk(s, t, s.cons[t]);
    forall k | 0 <= k < |s.stack| ensures s.stack[k] != a { assert StackLink(s, k); }
    forall k | 0 <= k < |s.retired| ensures s.retired[k] != a { assert RetireLink(s, k); }
  }

  lemma ConsumerAfterFree(s: State, s': State, k: nat, t: nat, a: Addr)
    requires k < |s.cons| && k != t && ConsumerOk(s, k, s.cons[k]) && (Protected(s.cons[k]) ==> s.cons[k].raw.ptr != a)
    requires a in s.heap && s.heap[a].phase == Popped(t) && s'.heap == s.heap - {a} && s'.head == s.head
      && s'.hazard == s.hazard
    requires s'.nextSlot == s.nextSlot && s'.lock == s.lock && s'.stack == s.stack && s'.retired == s.retired
      && s'.active == s.active
    ensures ConsumerOk(s', k, s.cons[k])
  {
  }

  lemma AfterRetireOk(s: State, s': State, t: nat, q: Consumer)
    requires ConsumerOk(s, t, q) && (q.pc == CFree || q.pc == CRetire)
    requires s'.nextSlot == s.nextSlot && s'.active == s.active
    ensures ConsumerOk(s', t, q.(pc := AfterRetire(q.count)))
  {
  }

  lemma FreeStep(c: Config, s: State, t: nat)
    requires Inv(c, s) && t < |s.cons| && s.cons[t].pc == CFree
    ensures Inv(c, ReclaimStep(c, s, t))
  {
    hide ProducerOk, ConsumerOk, Totals, Chains, Hazards;
    OwnPopped(c, s, t);
    var s' := ReclaimStep(c, s, t);
    var a := s.cons[t].node;
    assert NULL !in s.heap by { NullUnallocated(s); }
    ChainsKept(s, s', a);
    QuietHazards(c, s, t, s'.cons[t]);
    HazardsAfter(c, s, t, s'.cons[t], s');
    TotalsAfter(s, t, s'.cons[t], s');
    forall k | 0 <= k < |s'.cons| ensures ConsumerOk(s', k, s'.cons[k]) {
      assert ConsumerOk(s, k, s.cons[k]);
      if k == t {
        AfterRetireOk(s, s', t, s.cons[t]);
      } else {
        FreedIsUnreferenced(c, s, t, a, k);
        ConsumerAfterFree(s, s', k, t, a);
      }
    }
    forall k | 0 <= k < |s'.prods| ensures ProducerOk(c, s', k, s'.prods[k]) {
      assert ProducerOk(c, s, k, s.prods[k]);
      ProducerUnmoved(c, s, s', k);
    }
  }

  lemma NullUnallocated(s: State)
    requires Chains(s)
    ensures NULL !in s.heap
  {
  }

  /** Nobody else sweeps while the lock is free, or held by t. */
  lemma NoOtherSweeper(c: Config, s: State, k: nat)
    requires Inv(c, s) && k < |s.cons|
    ensures Sweeping(s.cons[k]) ==> s.lock == Held(k)
  {
    hide Totals, Hazards, Chains, PopOk, ExitOk;
    assert ConsumerOk(s, k, s.cons[k]);
  }

  lemma ChainsAfterRetire(s: State, s': State, a: Addr)
    requires Chains(s) && a in s.heap && a !in s.stack && a !in s.retired
    requires s'.heap == s.heap[a := s.heap[a].(retireNext := s.retireList, phase := Retired)] && s'.retireList == a
    requires s'.retired == [a] + s.retired && s'.head == s.head && s'.stack == s.stack
    ensures Chains(s')
  {
    forall k | 0 <= k < |s'.stack| ensures StackLink(s', k) { assert StackLink(s, k); }
    forall k | 0 <= k < |s'.retired| ensures RetireLink(s', k) { if k > 0 { assert RetireLink(s, k - 1); } }
  }

  lemma ConsumerAfterRetire(s: State, s': State, k: nat, t: nat, a: Addr)
    requires k < |s.cons| && k != t && ConsumerOk(s, k, s.cons[k]) && !Sweeping(s.cons[k])
    requires a in s.heap && s.heap[a].phase == Popped(t) && s'.head == s.head && s'.hazard == s.hazard
    requires a in s'.heap && s'.heap[a].next == s.heap[a].next && s'.heap == s.heap[a := s'.heap[a]]
    requires s'.nextSlot == s.nextSlot && s'.stack == s.stack && s'.active == s.active
    ensures ConsumerOk(s', k, s.cons[k])
  {
  }

  lemma RetireStep(c: Config, s: State, t: nat)
    requires Inv(c, s) && t < |s.cons| && s.cons[t].pc == CRetire
    ensures Inv(c, ReclaimStep(c, s, t))
  {
    hide ProducerOk, ConsumerOk, Totals, Chains, Hazards;
    var s' := ReclaimStep(c, s, t);
    if s.lock == Unlocked {
      OwnPopped(c, s, t);
      var a := s.cons[t].node;
      ChainsAfterRetire(s, s', a);
      QuietHazards(c, s, t, s'.cons[t]);
      HazardsAfter(c, s, t, s'.cons[t], s');
      TotalsAfter(s, t, s'.cons[t], s');
      forall k | 0 <= k < |s'.cons| ensures ConsumerOk(s', k, s'.cons[k]) {
        assert ConsumerOk(s, k, s.cons[k]);
        NoOtherSweeper(c, s, k);
        if k == t { AfterRetireOk(s, s', t, s.cons[t]); } else { ConsumerAfterRetire(s, s', k, t, a); }
      }
      forall k | 0 <= k < |s'.prods| ensures ProducerOk(c, s', k, s'.prods[k]) {
        assert ProducerOk(c, s, k, s.prods[k]);
        ProducerUnmoved(c, s, s', k);
      }
    }
  }

  // ---- the sweep

  lemma NotSweepingOk(s: State, s': State, k: nat, q: Consumer)
    requires ConsumerOk(s, k, q) && !Sweeping(q) && s'.heap == s.heap && s'.head == s.head && s'.hazard == s.hazard
    requires s'.nextSlot == s.nextSlot && s'.stack == s.stack && s'.active == s.active
    ensures ConsumerOk(s', k, q)
  {
  }

  lemma SweepBeginOk(s: State, s': State, t: nat, q: Consumer)
    requires ConsumerOk(s, t, q) && q.pc == CSweepLock && s.retireList == At(s.retired, 0)
    requires s'.nextSlot == s.nextSlot && s'.active == s.active && s'.stack == s.stack && s'.retired == s.retired
      && s'.lock == Held(t)
    ensures ConsumerOk(s', t, q.(pc := CSweepLoop, prev := NULL, cur := s.retireList, k := 0))
  {
  }

  /** The lock changes hands between nobody and t. */
  lemma HazardsAfterLock(c: Config, s: State, t: nat, q: Consumer, s': State)
    requires Inv(c, s) && t < |s.cons| && q.slot == s.cons[t].slot && HasSlot(q) == HasSlot(s.cons[t])
    requires HazardsOf(s.(cons := s.cons[t := q]), t) && s'.cons == s.cons[t := q]
    requires s'.lock == if Sweeping(q) then Held(t) else Unlocked
    ensures Hazards(s')
  {
    hide Totals, Chains, Threads;
    var r := s.(cons := s.cons[t := q]);
    forall k, u | 0 <= k < |s'.cons| && 0 <= u < |s'.cons| ensures HazardSeen(s', k, u) {
      if k == t || u == t {
        assert HazardSeen(r, t, if k == t then u else k) && HazardSeen(r, if k == t then u else k, t);
      } else {
        assert HazardSeen(s, k, u);
      }
    }
  }

  lemma SweepEndsOk(s: State, s': State, t: nat, q: Consumer)
    requires ConsumerOk(s, t, q) && q.pc == CSweepUnlock
    requires s'.nextSlot == s.nextSlot && s'.active == s.active && s'.stack == s.stack
    ensures ConsumerOk(s', t, q.(pc := if q.last then CFinish else CLoad))
  {
  }

  lemma LockStep(c: Config, s: State, t: nat)
    requires Inv(c, s) && t < |s.cons| && (s.cons[t].pc == CSweepLock || s.cons[t].pc == CSweepUnlock)
    ensures Inv(c, ReclaimStep(c, s, t))
  {
    hide ProducerOk, ConsumerOk, Totals, Hazards, Distinct, StackLink, RetireLink;
    var s' := ReclaimStep(c, s, t);
    NoOtherSweeper(c, s, t);
    if s' != s {
      var q := s.cons[t];
      SameChains(s, s');
      QuietHazards(c, s, t, s'.cons[t]);
      HazardsAfterLock(c, s, t, s'.cons[t], s');
      TotalsAfter(s, t, s'.cons[t], s');
      forall k | 0 <= k < |s'.cons| ensures ConsumerOk(s', k, s'.cons[k]) {
        assert ConsumerOk(s, k, s.cons[k]);
        NoOtherSweeper(c, s, k);
        if k != t {
          NotSweepingOk(s, s', k, s.cons[k]);
        } else if q.pc == CSweepLock {
          SweepBeginOk(s, s', t, q);
        } else {
          SweepEndsOk(s, s', t, q);
        }
      }
      forall k | 0 <= k < |s'.prods| ensures ProducerOk(c, s', k, s'.prods[k]) {
        assert ProducerOk(c, s, k, s.prods[k]);
        ProducerUnmoved(c, s, s', k);
      }
    }
  }

  lemma AtRemoved(l: seq<Addr>, k: nat, j: int)
    requires k < |l|
    ensures At(RemoveAt(l, k), j) == if j < k then At(l, j) else At(l, j + 1)
  {
  }

  /** The unlinking of the node at position k of the retire list, and its freeing. */
  ghost predicate Unlinked(s: State, s': State, k: nat) {
    && k < |s.retired| && s'.retired == RemoveAt(s.retired, k) && s'.head == s.head && s'.stack == s.stack
    && s.retired[k] in s.heap && (k > 0 ==> s.retired[k - 1] in s.heap)
    && s'.heap == (if k == 0 then s.heap
                   else s.heap[s.retired[k - 1] :=
                     s.heap[s.retired[k - 1]].(retireNext := At(s.retired, k + 1))]) - {s.retired[k]}
    && s'.retireList == if k == 0 then At(s.retired, 1) else s.retireList
  }

  lemma ChainsAfterUnlink(s: State, s': State, k: nat)
    requires Chains(s) && Unlinked(s, s', k)
    ensures Chains(s')
  {
    assert RetireLink(s, k);
    if k > 0 { assert RetireLink(s, k - 1); }
    forall j | 0 <= j < |s'.stack| ensures StackLink(s', j) { assert StackLink(s, j); }
    AtRemoved(s.retired, k, 0);
    forall j | 0 <= j < |s'.retired| ensures RetireLink(s', j) {
      var i := if j < k then j else j + 1;
      AtRemoved(s.retired, k, j);
      AtRemoved(s.retired, k, j + 1);
      assert RetireLink(s, i) && s'.retired[j] == s.retired[i] != s.retired[k];
    }
    RemovedOne(s.retired, k);
  }

  lemma ConsumerAfterUnlink(s: State, s': State, u: nat, k: nat)
    requires Chains(s) && Unlinked(s, s', k) && u < |s.cons| && ConsumerOk(s, u, s.cons[u]) && !Sweeping(s.cons[u])
    requires Protected(s.cons[u]) ==> s.cons[u].raw.ptr != s.retired[k]
    requires s'.hazard == s.hazard && s'.nextSlot == s.nextSlot && s'.active == s.active
    ensures ConsumerOk(s', u, s.cons[u])
  {
    assert RetireLink(s, k);
    if k > 0 { assert RetireLink(s, k - 1); }
  }

  lemma ProducerAfterUnlink(c: Config, s: State, s': State, u: nat, k: nat)
    requires Chains(s) && Unlinked(s, s', k) && u < |s.prods| && ProducerOk(c, s, u, s.prods[u])
    ensures ProducerOk(c, s', u, s.prods[u])
  {
    assert RetireLink(s, k);
    if k > 0 { assert RetireLink(s, k - 1); }
  }

  lemma SweeperAfterUnlink(s: State, s': State, t: nat, q: Consumer)
    requires ConsumerOk(s, t, q) && q.pc == CSweepFree && q.k < |s.retired| && s'.retired == RemoveAt(s.retired, q.k)
    requires s'.nextSlot == s.nextSlot && s'.active == s.active && s'.lock == s.lock && s'.stack == s.stack
    ensures ConsumerOk(s', t, q.(pc := CSweepLoop, cur := q.nxt))
  {
    AtRemoved(s.retired, q.k, q.k);
    AtRemoved(s.retired, q.k, q.k - 1);
  }

  lemma SweepFreeUnlinks(c: Config, s: State, t: nat)
    requires Inv(c, s) && t < |s.cons| && s.cons[t].pc == CSweepFree
    ensures Unlinked(s, ReclaimStep(c, s, t), s.cons[t].k) && s.retired[s.cons[t].k] == s.cons[t].cur
    ensures ReclaimStep(c, s, t).cons == s.cons[t := s.cons[t].(pc := CSweepLoop, cur := s.cons[t].nxt)]
    ensures ReclaimStep(c, s, t) == s.(heap := ReclaimStep(c, s, t).heap, retireList := ReclaimStep(c, s, t).retireList,
                                       retired := ReclaimStep(c, s, t).retired, cons := ReclaimStep(c, s, t).cons)
  {
    hide Totals, Hazards, PopOk, ExitOk, ProducerOk;
    var q := s.cons[t];
    assert ConsumerOk(s, t, q);
    assert RetireLink(s, q.k);
    if q.k > 0 { assert RetireLink(s, q.k - 1); }
  }

  lemma SweepFreeStep(c: Config, s: State, t: nat)
    requires Inv(c, s) && t < |s.cons| && s.cons[t].pc == CSweepFree
    ensures Inv(c, ReclaimStep(c, s, t))
  {
    hide ProducerOk, ConsumerOk, Totals, Chains, Hazards, ReclaimStep;
    var q, s' := s.cons[t], ReclaimStep(c, s, t);
    SweepFreeUnlinks(c, s, t);
    ChainsAfterUnlink(s, s', q.k);
    QuietHazards(c, s, t, s'.cons[t]);
    HazardsAfter(c, s, t, s'.cons[t], s');
    SweepTotals(s, t, s', q.k);
    forall k | 0 <= k < |s'.cons| ensures ConsumerOk(s', k, s'.cons[k]) {
      assert ConsumerOk(s, k, s.cons[k]);
      NoOtherSweeper(c, s, k);
      NoOtherSweeper(c, s, t);
      if k == t {
        SweeperAfterUnlink(s, s', t, q);
      } else {
        FreedIsUnreferenced(c, s, t, q.cur, k);
        ConsumerAfterUnlink(s, s', k, q.k);
      }
    }
    forall k | 0 <= k < |s'.prods| ensures ProducerOk(c, s', k, s'.prods[k]) {
      assert ProducerOk(c, s, k, s.prods[k]);
      ProducerAfterUnlink(c, s, s', k, q.k);
    }
  }

  lemma SweepTotals(s: State, t: nat, s': State, k: nat)
    requires Totals(s) && t < |s.cons| && s.cons[t].pc == CSweepFree && Unlinked(s, s', k)
    requires s'.cons == s.cons[t := s.cons[t].(pc := CSweepLoop, cur := s.cons[t].nxt)] && s'.prods == s.prods
    requires s'.nextSlot == s.nextSlot && s'.active == s.active && s'.totalPushed == s.totalPushed
      && s'.totalConsumed == s.totalConsumed
    ensures Totals(s')
  {
    TotalsAfter(s, t, s'.cons[t], s');
  }

  /** Reporting the number of consumed nodes. */
  lemma FinishStep(c: Config, s: State, t: nat)
    requires Inv(c, s) && t < |s.cons| && s.cons[t].pc == CFinish
    ensures Inv(c, ReclaimStep(c, s, t))
  {
    hide Inv;
    ReportKeeps(c, s, t, s.cons[t].(pc := CDone), ReclaimStep(c, s, t));
  }

  lemma ReportKeeps(c: Config, s: State, t: nat, q: Consumer, s': State)
    requires Inv(c, s) && t < |s.cons| && s.cons[t].pc == CFinish && q == s.cons[t].(pc := CDone)
    requires s' == s.(totalConsumed := s.totalConsumed + q.count, cons := s.cons[t := q])
    ensures Inv(c, s')
  {
    hide ProducerOk, ConsumerOk, Totals, Chains, Hazards;
    SameChains(s, s');
    QuietHazards(c, s, t, q);
    HazardsAfter(c, s, t, q, s');
    TotalsAfter(s, t, q, s');
    forall k | 0 <= k < |s'.cons| ensures ConsumerOk(s', k, s'.cons[k]) {
      assert ConsumerOk(s, k, s.cons[k]);
      if k == t { FinishedOk(s, s', t, s.cons[t]); } else { OtherThanFinished(s, s', k, s.cons[k]); }
    }
    forall k | 0 <= k < |s'.prods| ensures ProducerOk(c, s', k, s'.prods[k]) {
      assert ProducerOk(c, s, k, s.prods[k]);
      ProducerUnmoved(c, s, s', k);
    }
  }

  lemma FinishedOk(s: State, s': State, t: nat, q: Consumer)
    requires ConsumerOk(s, t, q) && q.pc == CFinish && s'.nextSlot == s.nextSlot && s'.active == s.active
      && s'.stack == s.stack
    ensures ConsumerOk(s', t, q.(pc := CDone))
  {
  }

  lemma OtherThanFinished(s: State, s': State, k: nat, q: Consumer)
    requires ConsumerOk(s, k, q) && s'.heap == s.heap && s'.head == s.head && s'.hazard == s.hazard && s'.lock == s.lock
    requires s'.nextSlot == s.nextSlot && s'.stack == s.stack && s'.retired == s.retired && s'.active == s.active
    ensures ConsumerOk(s', k, q)
  {
  }

  // ---- every run

  lemma ConsumerStepInv(c: Config, s: State, t: nat, m: Move)
    requires Inv(c, s) && t < |s.cons|
    ensures Reclaiming(s.cons[t].pc) ==> Inv(c, ReclaimStep(c, s, t))
    ensures !Reclaiming(s.cons[t].pc) ==> Inv(c, PopStep(c, s, t, m))
  {
    hide Inv;
    match s.cons[t].pc
    case CSlot => SlotStep(c, s, t, m);
    case CLoad => PlainPopStep(c, s, t, m);
    case CClearEmpty => HazardWriteStep(c, s, t, m);
    case CHazard => HazardWriteStep(c, s, t, m);
    case CRecheck => RecheckStep(c, s, t, m);
    case CNext => PlainPopStep(c, s, t, m);
    case CCas =>
      if s.head == s.cons[t].raw && !m.spurious {
        PopCasStep(c, s, t, m);
      } else {
        PlainPopStep(c, s, t, m);
      }
    case CClear => HazardWriteStep(c, s, t, m);
    case CCheckActive => PlainPopStep(c, s, t, m);
    case CCheckEmpty => PlainPopStep(c, s, t, m);
    case CScan => ScanStep(c, s, t);
    case CFree => FreeStep(c, s, t);
    case CRetire => RetireStep(c, s, t);
    case CSweepLock => LockStep(c, s, t);
    case CSweepLoop => PlainSweepStep(c, s, t);
    case CSweepScan => ScanStep(c, s, t);
    case CSweepKeep => PlainSweepStep(c, s, t);
    case CSweepFree => SweepFreeStep(c, s, t);
    case CSweepUnlock => LockStep(c, s, t);
    case CFinish => FinishStep(c, s, t);
    case CDone =>
  }

  lemma ProducerStepInv(c: Config, s: State, t: nat, m: Move)
    requires Inv(c, s) && t < |s.prods|
    ensures Inv(c, ProducerStep(c, s, t, m))
  {
    hide Chains, Hazards, Totals, ConsumerOk;
    assert ProducerOk(c, s, t, s.prods[t]);
    match s.prods[t].pc
    case PAlloc => AllocStep(c, s, t, m);
    case PLoad => ProducerLocal(c, s, t, s.prods[t].(pc := PLink, seen := s.head));
    case PLink => LinkStep(c, s, t, m);
    case PCas =>
      if s.head == s.prods[t].seen && !m.spurious {
        PushStep(c, s, t, m);
      } else {
        ProducerLocal(c, s, t, s.prods[t].(pc := PLink, seen := s.head));
      }
    case PCount => CountStep(c, s, t, m);
    case PSignal => CountStep(c, s, t, m);
    case PDone =>
  }

  /** Every access of every thread keeps the invariant. */
  lemma StepInv(c: Config, s: State, m: Move)
    requires Inv(c, s)
    ensures Inv(c, Step(c, s, m))
  {
    hide Inv;
    if m.producer && m.t < |s.prods| { ProducerStepInv(c, s, m.t, m); }
    if !m.producer && m.t < |s.cons| { ConsumerStepInv(c, s, m.t, m); }
  }

  lemma InitialInv(c: Config)
    requires c.consumers <= MAX_HAZARD_THREADS
    ensures Inv(c, Initial(c))
  {
    var s := Initial(c);
    SumConstant(s.cons, HasSlot, 0);
    SumConstant(s.cons, Pops, 0);
    SumConstant(s.cons, Reported, 0);
    SumConstant(s.prods, IsActive, 1);
    SumConstant(s.prods, Pushes, 0);
    SumConstant(s.prods, Counted, 0);
    forall t, u | 0 <= t < |s.cons| && 0 <= u < |s.cons| ensures HazardSeen(s, t, u) {}
    forall t | 0 <= t < |s.cons| ensures ConsumerOk(s, t, s.cons[t]) {}
    forall t | 0 <= t < |s.prods| ensures ProducerOk(c, s, t, s.prods[t]) {}
  }

  /** The state after the moves, taken in order. */
  ghost function Run(c: Config, moves: seq<Move>): State {
    if moves == [] then Initial(c) else Step(c, Run(c, moves[..|moves| - 1]), moves[|moves| - 1])
  }

  lemma {:induction false} RunInv(c: Config, moves: seq<Move>)
    requires c.consumers <= MAX_HAZARD_THREADS
    ensures Inv(c, Run(c, moves))
    decreases |moves|
  {
    if moves == [] {
      InitialInv(c);
    } else {
      RunInv(c, moves[..|moves| - 1]);
      StepInv(c, Run(c, moves[..|moves| - 1]), moves[|moves| - 1]);
    }
  }

  // ---- main results

  /** Memory safety of every run: no step reads or writes a node that is not allocated, or frees one twice. */
  lemma NoFault(c: Config, moves: seq<Move>)
    requires c.consumers <= MAX_HAZARD_THREADS
    ensures !Run(c, moves).fault
  {
    RunInv(c, moves);
  }

  /** What a node is when a thread is about to free it: allocated, popped and never retired before or on the retire
      list, not reachable from the head, and not the node any other thread may still dereference. */
  lemma FreeIsSafe(c: Config, moves: seq<Move>, t: nat, a: Addr)
    requires c.consumers <= MAX_HAZARD_THREADS && t < |Run(c, moves).cons| && Scans(Run(c, moves).cons[t], a)
    requires Run(c, moves).cons[t].pc == CFree || Run(c, moves).cons[t].pc == CSweepFree
    ensures var s := Run(c, moves);
      && a in s.heap && a !in s.stack
        && (s.heap[a].phase == Popped(t) || (s.heap[a].phase == Retired && a in s.retired))
      && forall u :: 0 <= u < |s.cons| && Protected(s.cons[u]) ==> s.cons[u].raw.ptr != a
  {
    hide Totals;
    var s := Run(c, moves);
    RunInv(c, moves);
    assert ConsumerOk(s, t, s.cons[t]);
    forall u | 0 <= u < |s.cons| && Protected(s.cons[u]) ensures s.cons[u].raw.ptr != a {
      FreedIsUnreferenced(c, s, t, a, u);
    }
    forall k | 0 <= k < |s.stack| ensures s.stack[k] in s.heap && s.heap[s.stack[k]].phase == Linked {
      assert StackLink(s, k);
    }
    if AtNode(s.cons[t]) { assert RetireLink(s, s.cons[t].k); }
  }

  /** A sequence of nodes linked through `next` from p, ending at NULL. */
  ghost predicate Linking(heap: map<Addr, Cell>, p: Addr, l: seq<Addr>)
    decreases |l|
  {
    if l == [] then p == NULL else p != NULL && p == l[0] && p in heap && Linking(heap, heap[p].next, l[1..])
  }

  /** What is linked from an address is unique: the abstract stack is a function of memory. */
  lemma {:induction false} LinkingUnique(heap: map<Addr, Cell>, p: Addr, l: seq<Addr>, r: seq<Addr>)
    requires Linking(heap, p, l) && Linking(heap, p, r)
    ensures l == r
    decreases |l|
  {
    if l != [] { LinkingUnique(heap, heap[p].next, l[1..], r[1..]); }
  }

  lemma {:induction false} StackIsLinked(s: State, k: nat)
    requires Chains(s) && k <= |s.stack|
    ensures Linking(s.heap, At(s.stack, k), s.stack[k..])
    decreases |s.stack| - k
  {
    if k < |s.stack| {
      assert StackLink(s, k);
      StackIsLinked(s, k + 1);
    }
  }

  /** The values on the stack, top first. */
  ghost function Values(heap: map<Addr, Cell>, l: seq<Addr>): seq<int> {
    if l == [] then [] else [if l[0] in heap then heap[l[0]].value else 0] + Values(heap, l[1..])
  }

  lemma {:induction false} ValuesKept(heap: map<Addr, Cell>, heap': map<Addr, Cell>, l: seq<Addr>)
    requires forall k :: 0 <= k < |l| ==> l[k] in heap && l[k] in heap' && heap'[l[k]].value == heap[l[k]].value
    ensures Values(heap', l) == Values(heap, l)
    decreases |l|
  {
    if l != [] {
      assert l[0] in heap;
      ValuesKept(heap, heap', l[1..]);
    }
  }

  /** The value of a node is never written while the node is allocated. */
  lemma ValueKept(c: Config, s: State, m: Move, a: Addr)
    requires Inv(c, s) && a in s.heap && a in Step(c, s, m).heap
    ensures Step(c, s, m).heap[a].value == s.heap[a].value
  {
    hide Chains, Threads, Hazards, Totals;
  }

  ghost predicate IsPush(s: State, m: Move) {
    m.producer && m.t < |s.prods| && s.prods[m.t].pc == PCas && s.head == s.prods[m.t].seen && !m.spurious
  }

  ghost predicate IsPop(s: State, m: Move) {
    !m.producer && m.t < |s.cons| && s.cons[m.t].pc == CCas && s.head == s.cons[m.t].raw && !m.spurious
  }

  /** Each successful compare-and-swap is one push of the producer's value or one pop of the top value, and every
      other step, of any thread, leaves the stack of values as it is. */
  lemma StepRefines(c: Config, s: State, m: Move)
    requires Inv(c, s)
    ensures var s' := Step(c, s, m);
      var v, v' := Values(s.heap, s.stack), Values(s'.heap, s'.stack);
      && Linking(s.heap, s.head.ptr, s.stack) && Linking(s'.heap, s'.head.ptr, s'.stack)
      && (IsPush(s, m) ==> s.prods[m.t].node in s.heap && v' == [s.heap[s.prods[m.t].node].value] + v)
      && (IsPop(s, m) ==>
        && v != [] && v' == v[1..] && s'.cons[m.t].node in s'.heap && s'.heap[s'.cons[m.t].node].value == v[0])
      && (!IsPush(s, m) && !IsPop(s, m) ==> v' == v)
  {
    var s' := Step(c, s, m);
    StepInv(c, s, m);
    StackIsLinked(s, 0);
    StackIsLinked(s', 0);
    StackMoves(c, s, m);
    forall k | 0 <= k < |s.stack| ensures s.stack[k] in s.heap { assert StackLink(s, k); }
    forall k | 0 <= k < |s'.stack| ensures s'.stack[k] in s'.heap { assert StackLink(s', k); }
    var common := if IsPop(s, m) then s'.stack else s.stack;
    forall k | 0 <= k < |common| && common[k] in s.heap && common[k] in s'.heap
      ensures s'.heap[common[k]].value == s.heap[common[k]].value
    {
      ValueKept(c, s, m, common[k]);
    }
    ValuesKept(s.heap, s'.heap, common);
    if IsPop(s, m) { ValueKept(c, s, m, s.stack[0]); }
  }

  lemma StackMoves(c: Config, s: State, m: Move)
    requires Inv(c, s)
    ensures var s' := Step(c, s, m);
      && (IsPush(s, m) ==> s.prods[m.t].node in s.heap && s.prods[m.t].node in s'.heap)
      && (IsPush(s, m) ==> s'.stack == [s.prods[m.t].node] + s.stack)
      && (IsPush(s, m) ==> s'.heap[s.prods[m.t].node].value == s.heap[s.prods[m.t].node].value)
      && (IsPop(s, m) ==>
        && s.stack != [] && s.stack[0] in s.heap && s.stack[0] in s'.heap
        && s'.stack == s.stack[1..] && s'.cons[m.t].node == s.stack[0])
      && (!IsPush(s, m) && !IsPop(s, m) ==> s'.stack == s.stack)
  {
    hide Totals, Hazards, ConsumerOk, Chains;
    if IsPush(s, m) { OwnNode(c, s, m.t); }
    if IsPop(s, m) { TopIsRead(c, s, m.t); }
  }

  ghost predicate Finished(s: State) {
    && (forall t :: 0 <= t < |s.prods| ==> s.prods[t].pc == PDone)
    && (forall t :: 0 <= t < |s.cons| ==> s.cons[t].pc == CDone)
  }

  /** When all threads are done, whatever the interleaving was, the stack is empty and every node pushed has
      been consumed. */
  lemma AllConsumed(c: Config, moves: seq<Move>)
    requires 1 <= c.consumers <= MAX_HAZARD_THREADS && Finished(Run(c, moves))
    ensures var s := Run(c, moves);
      s.head.ptr == NULL && s.totalPushed == s.totalConsumed == c.producers * c.messages
  {
    hide Finished;
    RunInv(c, moves);
    DoneMeansConsumed(c, Run(c, moves));
  }

  lemma DoneMeansConsumed(c: Config, s: State)
    requires Inv(c, s) && c.consumers >= 1 && Finished(s)
    ensures s.head.ptr == NULL && s.totalPushed == s.totalConsumed == c.producers * c.messages
  {
    hide Hazards, PopOk, ReclaimOk;
    assert ConsumerOk(s, 0, s.cons[0]);
    forall t | 0 <= t < |s.prods| ensures s.prods[t].j == c.messages { assert ProducerOk(c, s, t, s.prods[t]); }
    SumConstant(s.prods, Counted, c.messages);
    SumConstant(s.prods, Pushes, c.messages);
    SumSame(s.cons, Pops, s.cons, Reported);
  }

  /** Once a consumer has left its loop the stack is empty and no step of any thread changes that. */
  lemma EmptyAfterExit(c: Config, s: State, t: nat, m: Move)
    requires Inv(c, s) && t < |s.cons| && s.cons[t].last
    ensures s.head.ptr == NULL && s.active == 0 && Step(c, s, m).head == s.head
  {
    hide Hazards, PopOk, ReclaimOk;
    assert ConsumerOk(s, t, s.cons[t]);
    if m.producer && m.t < |s.prods| { SumBounds(s.prods, IsActive, m.t); }
    if IsPop(s, m) { TopIsRead(c, s, m.t); }
  }
}
