/** Reclamation in the Treiber stack: every allocated node has one keeper at any time, and the final sweeps of the
    consumers leave none. */
module TreiberReclaim {
  import opened TreiberStack

  /** Whose the node at a is: the producer that is pushing it, the stack, the consumer that popped it, or the retire
      list. */
  ghost predicate Kept(s: State, a: Addr)
    requires a in s.heap
  {
    match s.heap[a].phase
    case Owned(t) => t < |s.prods| && Pushing(s.prods[t].pc) && s.prods[t].node == a
    case Linked => a in s.stack
    case Popped(t) => t < |s.cons| && HoldsNode(s.cons[t]) && s.cons[t].node == a
    case Retired => a in s.retired
  }

  ghost predicate AllKept(s: State) {
    forall a {:trigger Kept(s, a)} :: a in s.heap ==> Kept(s, a)
  }

  /** Consumer q will still visit position j of the retire list in its last sweep. */
  predicate Covers(q: Consumer, j: nat) {
    || !q.last || q.pc == CSweepLock
    || ((q.pc == CSweepLoop || q.pc == CSweepScan || q.pc == CSweepFree) && q.k <= j)
    || (q.pc == CSweepKeep && q.k < j)
  }

  ghost predicate Covered(s: State, j: nat) {
    exists t: nat :: t < |s.cons| && Covers(s.cons[t], j)
  }

  /** Every retired node will be visited by a last sweep. */
  ghost predicate AllCovered(s: State) {
    forall j: nat {:trigger Covered(s, j)} :: j < |s.retired| ==> Covered(s, j)
  }

  /** A published hazard belongs to a consumer that has not begun its last sweep. */
  ghost predicate Published(s: State, i: nat)
    requires i < |s.hazard|
  {
    s.hazard[i] != NULL ==> exists u: nat ::
      u < |s.cons| && s.cons[u].pc != CSlot && s.cons[u].slot == i && !s.cons[u].last
  }

  ghost predicate AllPublished(s: State) {
    forall i: nat {:trigger Published(s, i)} :: i < |s.hazard| ==> Published(s, i)
  }

  ghost predicate Reclaims(s: State) {
    AllKept(s) && AllCovered(s) && AllPublished(s)
  }

  // ---- keepers

  lemma SameKeepers(s: State, s': State)
    requires AllKept(s) && s'.stack == s.stack && s'.retired == s.retired && |s'.prods| == |s.prods|
      && |s'.cons| == |s.cons|
    requires forall a :: a in s'.heap ==> a in s.heap && s'.heap[a].phase == s.heap[a].phase
    requires forall t :: 0 <= t < |s.prods| && Pushing(s.prods[t].pc) ==>
      Pushing(s'.prods[t].pc) && s'.prods[t].node == s.prods[t].node
    requires forall t :: 0 <= t < |s.cons| && HoldsNode(s.cons[t]) ==>
      HoldsNode(s'.cons[t]) && s'.cons[t].node == s.cons[t].node
    ensures AllKept(s')
  {
    forall a | a in s'.heap ensures Kept(s', a) { assert Kept(s, a); }
  }

  lemma ProducerKeeps(c: Config, s: State, t: nat, m: Move)
    requires Inv(c, s) && AllKept(s) && t < |s.prods|
    ensures AllKept(ProducerStep(c, s, t, m))
  {
    hide Chains, Hazards, Totals, ConsumerOk;
    var s' := ProducerStep(c, s, t, m);
    var p := s.prods[t];
    assert ProducerOk(c, s, t, p);
    if p.pc == PAlloc && m.address != NULL && m.address !in s.heap {
      forall a | a in s'.heap ensures Kept(s', a) { if a != m.address { assert Kept(s, a); } }
    } else if p.pc == PCas && s.head == p.seen && !m.spurious {
      forall a | a in s'.heap ensures Kept(s', a) { assert Kept(s, a); }
    } else {
      SameKeepers(s, s');
    }
  }

  /** The popped node passes from the stack to the consumer. */
  lemma TakeKeeps(c: Config, s: State, t: nat, m: Move)
    requires Inv(c, s) && AllKept(s) && t < |s.cons| && s.cons[t].pc == CCas && s.head == s.cons[t].raw && !m.spurious
    ensures AllKept(PopStep(c, s, t, m))
  {
    hide Inv, Chains, Hazards, Totals, Threads;
    TopIsRead(c, s, t);
    var s' := PopStep(c, s, t, m);
    forall a | a in s'.heap ensures Kept(s', a) {
      assert Kept(s, a);
      assert a in s.stack ==> a == s.stack[0] || a in s.stack[1..];
    }
  }

  lemma PopKeeps(c: Config, s: State, t: nat, m: Move)
    requires Inv(c, s) && AllKept(s) && t < |s.cons| && !Reclaiming(s.cons[t].pc)
    ensures AllKept(PopStep(c, s, t, m))
  {
    hide Inv, AllKept;
    if s.cons[t].pc == CCas && s.head == s.cons[t].raw && !m.spurious {
      TakeKeeps(c, s, t, m);
    } else {
      SameKeepers(s, PopStep(c, s, t, m));
    }
  }

  lemma FreeKeeps(c: Config, s: State, t: nat)
    requires Inv(c, s) && AllKept(s) && t < |s.cons| && s.cons[t].pc == CFree
    ensures AllKept(ReclaimStep(c, s, t))
  {
    hide Inv, Chains, Hazards, Totals, Threads;
    OwnPopped(c, s, t);
    var s' := ReclaimStep(c, s, t);
    forall a | a in s'.heap ensures Kept(s', a) { assert Kept(s, a); }
  }

  lemma RetireKeeps(c: Config, s: State, t: nat)
    requires Inv(c, s) && AllKept(s) && t < |s.cons| && s.cons[t].pc == CRetire
    ensures AllKept(ReclaimStep(c, s, t))
  {
    hide Inv, Chains, Hazards, Totals, Threads;
    OwnPopped(c, s, t);
    var s' := ReclaimStep(c, s, t);
    if s' != s {
      forall a | a in s'.heap ensures Kept(s', a) {
        assert Kept(s, a);
        assert s'.retired[0] == s.cons[t].node;
        assert a in s.retired ==> a in s'.retired;
      }
    }
  }

  lemma SweepKeeps(c: Config, s: State, t: nat)
    requires Inv(c, s) && AllKept(s) && t < |s.cons| && s.cons[t].pc == CSweepFree
    ensures AllKept(ReclaimStep(c, s, t))
  {
    hide Inv, Chains, Hazards, Totals, Threads;
    var s' := ReclaimStep(c, s, t);
    var k := s.cons[t].k;
    SweepFreeUnlinks(c, s, t);
    forall a | a in s'.heap ensures Kept(s', a) {
      assert Kept(s, a);
      if a in s.retired {
        var j :| 0 <= j < |s.retired| && s.retired[j] == a;
        AtRemoved(s.retired, k, if j < k then j else j - 1);
        assert s'.retired[if j < k then j else j - 1] == a;
      }
    }
  }

  lemma ReclaimKeeps(c: Config, s: State, t: nat)
    requires Inv(c, s) && AllKept(s) && t < |s.cons|
    ensures AllKept(ReclaimStep(c, s, t))
  {
    hide Inv, AllKept;
    match s.cons[t].pc
    case CFree => FreeKeeps(c, s, t);
    case CRetire => RetireKeeps(c, s, t);
    case CSweepFree => SweepKeeps(c, s, t);
    case _ => SameKeepers(s, ReclaimStep(c, s, t));
  }

  // ---- published hazards

  /** Hazards stay published while no slot is written and nobody begins its last sweep. */
  lemma SamePublished(s: State, s': State, t: nat)
    requires AllPublished(s) && s'.hazard == s.hazard && t < |s.cons| == |s'.cons| && s'.cons == s.cons[t := s'.cons[t]]
    requires s.cons[t].pc != CSlot ==>
      s'.cons[t].pc != CSlot && s'.cons[t].slot == s.cons[t].slot && s'.cons[t].last == s.cons[t].last
    ensures AllPublished(s')
  {
    forall i: nat | i < |s'.hazard| ensures Published(s', i) {
      assert Published(s, i);
      if s.hazard[i] != NULL {
        var u: nat :| u < |s.cons| && s.cons[u].pc != CSlot && s.cons[u].slot == i && !s.cons[u].last;
        assert s'.cons[u].pc != CSlot && s'.cons[u].slot == i && !s'.cons[u].last;
      }
    }
  }

  /** A consumer writes its own slot; if it begins its last sweep thereby, it leaves NULL there. */
  lemma OwnPublished(s: State, s': State, t: nat, v: Addr)
    requires AllPublished(s) && t < |s.cons| && t < |s'.cons| && s'.cons == s.cons[t := s'.cons[t]]
    requires 0 <= s.cons[t].slot < |s.hazard| && s'.hazard == s.hazard[s.cons[t].slot := v]
    requires s.cons[t].pc != CSlot && s'.cons[t].pc != CSlot && s'.cons[t].slot == s.cons[t].slot
      && (v == NULL || !s'.cons[t].last)
    ensures AllPublished(s')
  {
    forall i: nat | i < |s'.hazard| ensures Published(s', i) {
      assert Published(s, i);
      if i != s.cons[t].slot && s.hazard[i] != NULL {
        var u: nat :| u < |s.cons| && s.cons[u].pc != CSlot && s.cons[u].slot == i && !s.cons[u].last;
        assert u != t && s'.cons[u] == s.cons[u];
      }
      if i == s.cons[t].slot { assert s'.cons[t].slot == i; }
    }
  }

  /** What a step of stack_pop or of the exit test leaves alone. */
  lemma PopShape(c: Config, s: State, t: nat, m: Move)
    requires t < |s.cons| && !Reclaiming(s.cons[t].pc) && s.cons[t].pc != CDone
      && (s.cons[t].pc != CSlot ==> 0 <= s.cons[t].slot < |s.hazard|)
    requires !PopStep(c, s, t, m).fault
    ensures var s', q := PopStep(c, s, t, m), s.cons[t];
      && |s'.cons| == |s.cons| && s'.cons == s.cons[t := s'.cons[t]] && s'.retired == s.retired
      && s'.cons[t].pc != CSlot && (q.pc != CSlot ==> s'.cons[t].slot == q.slot)
      && (s'.cons[t].last == q.last || (q.pc == CClearEmpty && s'.cons[t].pc == CSweepLock))
      && s'.hazard == if q.pc == CHazard then s.hazard[q.slot := q.raw.ptr]
                      else if q.pc == CClearEmpty || q.pc == CClear then s.hazard[q.slot := NULL] else s.hazard
  {
  }

  /** What a step of the reclamation leaves alone. */
  lemma ReclaimShape(c: Config, s: State, t: nat)
    requires t < |s.cons| && Reclaiming(s.cons[t].pc) && !ReclaimStep(c, s, t).fault
    ensures var s', q := ReclaimStep(c, s, t), s.cons[t];
      && |s'.cons| == |s.cons| && s'.cons == s.cons[t := s'.cons[t]] && s'.hazard == s.hazard
      && s'.cons[t].pc != CSlot && s'.cons[t].slot == q.slot && s'.cons[t].last == q.last
      && (q.pc != CRetire && q.pc != CSweepFree ==> s'.retired == s.retired)
  {
  }

  lemma PublishedPop(c: Config, s: State, t: nat, m: Move)
    requires Inv(c, s) && AllPublished(s) && t < |s.cons| && !Reclaiming(s.cons[t].pc) && s.cons[t].pc != CDone
    ensures AllPublished(PopStep(c, s, t, m))
  {
    hide Chains, Hazards, Totals, ProducerOk, ReclaimOk, PopOk, AllPublished, PopStep;
    var s', q := PopStep(c, s, t, m), s.cons[t];
    assert ConsumerOk(s, t, q);
    Slots(c, s, t);
    ConsumerStepInv(c, s, t, m);
    PopShape(c, s, t, m);
    if q.pc == CClearEmpty || q.pc == CHazard || q.pc == CClear {
      OwnPublished(s, s', t, if q.pc == CHazard then q.raw.ptr else NULL);
    } else {
      SamePublished(s, s', t);
    }
  }

  lemma PublishedStep(c: Config, s: State, m: Move)
    requires Inv(c, s) && AllPublished(s)
    ensures AllPublished(Step(c, s, m))
  {
    hide AllPublished, ReclaimStep, ProducerStep, PopStep, Threads, Chains, Hazards, Totals;
    if m.producer || m.t >= |s.cons| {
      ProducerShape(c, s, m);
      StillPublished(s, Step(c, s, m));
    } else {
      ConsumerStepInv(c, s, m.t, m);
      if s.cons[m.t].pc == CDone {
        DoneStays(c, s, m.t, m);
      } else if Reclaiming(s.cons[m.t].pc) {
        ReclaimShape(c, s, m.t);
        SamePublished(s, ReclaimStep(c, s, m.t), m.t);
      } else {
        PublishedPop(c, s, m.t, m);
      }
    }
  }

  lemma ProducerShape(c: Config, s: State, m: Move)
    requires m.producer || m.t >= |s.cons|
    ensures var s' := Step(c, s, m); s'.hazard == s.hazard && s'.cons == s.cons && s'.retired == s.retired
  {
  }

  lemma DoneStays(c: Config, s: State, t: nat, m: Move)
    requires t < |s.cons| && s.cons[t].pc == CDone
    ensures PopStep(c, s, t, m) == s
  {
  }

  lemma StillPublished(s: State, s': State)
    requires AllPublished(s) && s'.hazard == s.hazard && s'.cons == s.cons
    ensures AllPublished(s')
  {
    forall i: nat | i < |s'.hazard| ensures Published(s', i) { assert Published(s, i); }
  }

  // ---- the last sweeps

  /** The retire list stays, and consumer t covers what it covered. */
  lemma SameCovered(s: State, s': State, t: nat)
    requires AllCovered(s) && s'.retired == s.retired && |s'.cons| == |s.cons| && t < |s.cons|
      && s'.cons == s.cons[t := s'.cons[t]]
    requires forall j: nat :: j < |s.retired| && Covers(s.cons[t], j) ==> Covers(s'.cons[t], j)
    ensures AllCovered(s')
  {
    forall j: nat | j < |s'.retired| ensures Covered(s', j) {
      assert Covered(s, j);
      var u: nat :| u < |s.cons| && Covers(s.cons[u], j);
      assert Covers(s'.cons[u], j);
    }
  }

  /** A sweep keeps a node only because some consumer that still has its last sweep before it publishes it. */
  lemma KeptForAnother(c: Config, s: State, t: nat, s': State)
    requires Inv(c, s) && AllCovered(s) && AllPublished(s) && t < |s.cons| && s.cons[t].pc == CSweepScan
      && s' == ReclaimStep(c, s, t)
    ensures AllCovered(s')
  {
    hide Chains, Hazards, Totals, ProducerOk;
    var q := s.cons[t];
    assert ConsumerOk(s, t, q);
    if q.last && s'.cons[t].pc == CSweepKeep {
      assert RetireLink(s, q.k) by { RetireLinked(s, q.k); }
      assert q.cur != NULL by { NullUnallocated(s); }
      assert Published(s, q.i);
      var u: nat :| u < |s.cons| && s.cons[u].pc != CSlot && s.cons[u].slot == q.i && !s.cons[u].last;
      forall j: nat | j < |s'.retired| ensures Covered(s', j) { assert Covers(s'.cons[u], j); }
    } else {
      SameCovered(s, s', t);
    }
  }

  lemma RetireLinked(s: State, k: nat)
    requires Chains(s) && k < |s.retired|
    ensures RetireLink(s, k)
  {
  }

  /** A node that a sweep frees moves the later ones up by one position, and the sweep with them. */
  lemma CoveredAfterFree(c: Config, s: State, t: nat, s': State)
    requires Inv(c, s) && AllCovered(s) && t < |s.cons| && s.cons[t].pc == CSweepFree && s' == ReclaimStep(c, s, t)
    ensures AllCovered(s')
  {
    hide Inv, Chains, Hazards, Totals, Threads, ReclaimStep;
    SweepFreeUnlinks(c, s, t);
    var k := s.cons[t].k;
    forall j: nat | j < |s'.retired| ensures Covered(s', j) {
      var i := if j < k then j else j + 1;
      assert Covered(s, i);
      var u: nat :| u < |s.cons| && Covers(s.cons[u], i);
      NoOtherSweeper(c, s, u);
      NoOtherSweeper(c, s, t);
      assert Covers(s'.cons[u], j);
    }
  }

  lemma SweepCovers(c: Config, s: State, t: nat, j: nat)
    requires Inv(c, s) && t < |s.cons| && Reclaiming(s.cons[t].pc) && j < |s.retired| && Covers(s.cons[t], j)
    requires s.cons[t].pc != CSweepScan && s.cons[t].pc != CSweepFree && s.cons[t].pc != CRetire
    ensures Covers(ReclaimStep(c, s, t).cons[t], j)
  {
    hide Hazards, Totals, ProducerOk, PopOk;
    assert ConsumerOk(s, t, s.cons[t]);
    if s.cons[t].pc == CSweepLoop && s.cons[t].k < |s.retired| { assert RetireLink(s, s.cons[t].k); }
  }

  lemma CoveredReclaim(c: Config, s: State, t: nat)
    requires Inv(c, s) && AllCovered(s) && AllPublished(s) && t < |s.cons| && Reclaiming(s.cons[t].pc)
    ensures AllCovered(ReclaimStep(c, s, t))
  {
    hide Inv, AllCovered, AllPublished, ReclaimStep, ConsumerOk, Chains, Hazards, Totals, Threads;
    var s' := ReclaimStep(c, s, t);
    NotFaulty(c, s, t);
    ReclaimShape(c, s, t);
    if s.cons[t].pc == CRetire {
      NotLast(c, s, t);
      CoveredByMe(s', t);
    } else if s.cons[t].pc == CSweepScan {
      KeptForAnother(c, s, t, s');
    } else if s.cons[t].pc == CSweepFree {
      CoveredAfterFree(c, s, t, s');
    } else {
      forall j: nat | j < |s.retired| && Covers(s.cons[t], j) ensures Covers(s'.cons[t], j) { SweepCovers(c, s, t, j); }
      SameCovered(s, s', t);
    }
  }

  lemma NotFaulty(c: Config, s: State, t: nat)
    requires Inv(c, s) && t < |s.cons| && Reclaiming(s.cons[t].pc)
    ensures !ReclaimStep(c, s, t).fault
  {
    hide Chains, Hazards, Totals, Threads, ReclaimStep;
    ConsumerStepInv(c, s, t, Move(false, t, NULL, Cell(0, NULL, NULL, Linked), false));
  }

  lemma NotLast(c: Config, s: State, t: nat)
    requires Inv(c, s) && t < |s.cons|
    ensures s.cons[t].last ==>
      Sweeping(s.cons[t]) || s.cons[t].pc == CSweepLock || s.cons[t].pc == CFinish || s.cons[t].pc == CDone
  {
    hide Chains, Hazards, Totals, ProducerOk, ReclaimOk, PopOk;
    assert ConsumerOk(s, t, s.cons[t]);
  }

  lemma CoveredStep(c: Config, s: State, m: Move)
    requires Inv(c, s) && AllCovered(s) && AllPublished(s)
    ensures AllCovered(Step(c, s, m))
  {
    hide AllCovered, AllPublished, ReclaimStep, ProducerStep, PopStep, Threads, Chains, Hazards, Totals;
    if m.producer || m.t >= |s.cons| {
      ProducerShape(c, s, m);
      StillCovered(s, Step(c, s, m));
    } else if s.cons[m.t].pc == CDone {
      DoneStays(c, s, m.t, m);
    } else if Reclaiming(s.cons[m.t].pc) {
      CoveredReclaim(c, s, m.t);
    } else {
      ConsumerStepInv(c, s, m.t, m);
      Slots(c, s, m.t);
      PopShape(c, s, m.t, m);
      NotLast(c, s, m.t);
      SameCovered(s, PopStep(c, s, m.t, m), m.t);
    }
  }

  lemma StillCovered(s: State, s': State)
    requires AllCovered(s) && s'.retired == s.retired && s'.cons == s.cons
    ensures AllCovered(s')
  {
    forall j: nat | j < |s'.retired| ensures Covered(s', j) { assert Covered(s, j); }
  }

  lemma CoveredByMe(s: State, t: nat)
    requires t < |s.cons| && !s.cons[t].last
    ensures AllCovered(s)
  {
    forall j: nat | j < |s.retired| ensures Covered(s, j) { assert Covers(s.cons[t], j); }
  }

  // ---- every run

  lemma {:induction false} RunReclaims(c: Config, moves: seq<Move>)
    requires c.consumers <= MAX_HAZARD_THREADS
    ensures Inv(c, Run(c, moves)) && Reclaims(Run(c, moves))
    decreases |moves|
  {
    hide Inv, Step, AllKept, AllCovered, AllPublished;
    RunInv(c, moves);
    if moves == [] {
      InitialReclaims(c);
    } else {
      var n := |moves| - 1;
      var s := Run(c, moves[..n]);
      RunReclaims(c, moves[..n]);
      KeptStep(c, s, moves[n]);
      CoveredStep(c, s, moves[n]);
      PublishedStep(c, s, moves[n]);
    }
  }

  lemma InitialReclaims(c: Config)
    ensures Reclaims(Initial(c))
  {
  }

  lemma KeptStep(c: Config, s: State, m: Move)
    requires Inv(c, s) && AllKept(s)
    ensures AllKept(Step(c, s, m))
  {
    hide Inv, AllKept, ProducerStep, PopStep, ReclaimStep;
    if m.producer && m.t < |s.prods| { ProducerKeeps(c, s, m.t, m); }
    if !m.producer && m.t < |s.cons| {
      if Reclaiming(s.cons[m.t].pc) { ReclaimKeeps(c, s, m.t); } else { PopKeeps(c, s, m.t, m); }
    }
  }

  // ---- main results

  /** At any moment of any run every allocated node is a producer's, on the stack, in the hands of the consumer that
      popped it, or on the retire list: no step drops a node. */
  lemma NoNodeIsDropped(c: Config, moves: seq<Move>, a: Addr)
    requires c.consumers <= MAX_HAZARD_THREADS && a in Run(c, moves).heap
    ensures Kept(Run(c, moves), a)
  {
    RunReclaims(c, moves);
  }

  /** When all threads are done every node has been freed: whoever is last finds no hazard left in its last sweep. */
  lemma NothingLeaks(c: Config, moves: seq<Move>)
    requires 1 <= c.consumers <= MAX_HAZARD_THREADS && Finished(Run(c, moves))
    ensures Run(c, moves).heap == map[]
  {
    hide Finished;
    RunReclaims(c, moves);
    DoneMeansFreed(c, Run(c, moves));
  }

  lemma DoneMeansFreed(c: Config, s: State)
    requires Inv(c, s) && Reclaims(s) && c.consumers >= 1 && Finished(s)
    ensures s.heap == map[]
  {
    hide Hazards, Totals, PopOk, ReclaimOk, ProducerOk, Chains;
    forall t | 0 <= t < |s.cons| ensures s.cons[t].last { assert ConsumerOk(s, t, s.cons[t]); }
    assert ConsumerOk(s, 0, s.cons[0]);
    assert s.stack == [];
    if s.retired != [] { CoveredAt(s, 0); }
    forall a ensures a !in s.heap { if a in s.heap { KeptAt(s, a); } }
  }

  lemma CoveredAt(s: State, j: nat)
    requires AllCovered(s) && j < |s.retired|
    ensures Covered(s, j)
  {
  }

  lemma KeptAt(s: State, a: Addr)
    requires AllKept(s) && a in s.heap
    ensures Kept(s, a)
  {
  }
}
