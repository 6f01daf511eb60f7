/** Progress in the Treiber stack: when a pop finds the stack empty, what a thread achieves alone, what value a push
    adds, and that every run can be completed. */
module TreiberProgress {
  import opened Sums
  import opened TreiberStack

  // ---- when a pop returns NULL

  lemma EmptyStack(c: Config, s: State)
    requires Inv(c, s)
    ensures s.head.ptr == NULL <==> s.stack == []
    ensures Values(s.heap, s.stack) == [] <==> s.stack == []
  {
    hide Threads, Hazards, Totals;
    if s.stack != [] { assert StackLink(s, 0); }
  }

  /** The pop that loads the head goes on to return NULL if and only if the stack of values is empty at that moment;
      otherwise it goes on to publish its hazard. */
  lemma NullIffEmpty(c: Config, s: State, m: Move)
    requires Inv(c, s) && !m.producer && m.t < |s.cons| && s.cons[m.t].pc == CLoad
    ensures Step(c, s, m).cons[m.t].pc == if Values(s.heap, s.stack) == [] then CClearEmpty else CHazard
  {
    hide Inv, Values;
    EmptyStack(c, s);
    assert !Reclaiming(s.cons[m.t].pc);
    assert Step(c, s, m) == PopStep(c, s, m.t, m);
  }

  /** No other step of a pop leads to returning NULL: it goes on, starts over, or holds a node. */
  lemma PopGoesOn(c: Config, s: State, m: Move)
    requires Inv(c, s) && !m.producer && m.t < |s.cons|
    requires s.cons[m.t].pc == CHazard || s.cons[m.t].pc == CRecheck || s.cons[m.t].pc == CNext
      || s.cons[m.t].pc == CCas
    ensures Step(c, s, m).cons[m.t].pc in {CRecheck, CNext, CCas, CLoad, CClear}
  {
    hide Chains, Hazards, Totals, ProducerOk, ReclaimOk, ExitOk;
    assert ConsumerOk(s, m.t, s.cons[m.t]);
    Slots(c, s, m.t);
  }

  // ---- several moves

  ghost function After(c: Config, s: State, moves: seq<Move>): State
    decreases |moves|
  {
    if moves == [] then s else After(c, Step(c, s, moves[0]), moves[1..])
  }

  lemma {:induction false} AfterInv(c: Config, s: State, moves: seq<Move>)
    requires Inv(c, s)
    ensures Inv(c, After(c, s, moves))
    decreases |moves|
  {
    hide Inv, Step;
    if moves != [] {
      StepInv(c, s, moves[0]);
      AfterInv(c, Step(c, s, moves[0]), moves[1..]);
    }
  }

  lemma {:induction false} AfterAppend(c: Config, s: State, moves: seq<Move>, more: seq<Move>)
    ensures After(c, s, moves + more) == After(c, After(c, s, moves), more)
    decreases |moves|
  {
    hide Step;
    if moves == [] {
      assert moves + more == more;
    } else {
      AfterAppend(c, Step(c, s, moves[0]), moves[1..], more);
      assert (moves + more)[1..] == moves[1..] + more;
    }
  }

  lemma {:induction false} RunAfter(c: Config, moves: seq<Move>, more: seq<Move>)
    ensures Run(c, moves + more) == After(c, Run(c, moves), more)
    decreases |more|
  {
    hide Step;
    if more == [] {
      assert moves + more == moves;
    } else {
      assert (moves + [more[0]])[..|moves|] == moves;
      RunAfter(c, moves + [more[0]], more[1..]);
      assert moves + [more[0]] + more[1..] == moves + more;
    }
  }

  lemma OneMove(c: Config, s: State, m: Move)
    ensures After(c, s, [m]) == Step(c, s, m)
  {
    hide Step;
    assert After(c, s, [m]) == After(c, Step(c, s, m), []);
  }

  /** A move of consumer t whose compare-and-swap does not fail spuriously. */
  function ByConsumer(t: nat): Move { Move(false, t, NULL, Cell(0, NULL, NULL, Linked), false) }

  ghost predicate OnlyConsumer(moves: seq<Move>, t: nat) { forall i :: 0 <= i < |moves| ==> moves[i] == ByConsumer(t) }

  ghost predicate OnlyProducer(moves: seq<Move>, t: nat) {
    forall i :: 0 <= i < |moves| ==> moves[i].producer && moves[i].t == t && !moves[i].spurious
  }

  // ---- a pop alone

  /** Only the locals of consumer t and its hazard slot change. */
  ghost predicate OnlyLocal(s: State, t: nat, s': State)
    requires t < |s.cons|
  {
    && |s'.cons| == |s.cons| && s'.cons == s.cons[t := s'.cons[t]] && s' == s.(cons := s'.cons, hazard := s'.hazard)
  }

  /** The top node is consumer t's. */
  ghost predicate TookTop(s: State, t: nat, s': State)
    requires t < |s.cons|
  {
    && |s'.cons| == |s.cons| && s.stack != [] && s'.stack == s.stack[1..]
    && s'.cons[t].pc == CClear && s'.cons[t].node == s.stack[0]
  }

  /** A pop whose view of the head is current goes on to take the top node. */
  lemma PopSteps(c: Config, s: State, t: nat)
    requires Inv(c, s) && t < |s.cons|
    ensures var pc, s' := s.cons[t].pc, Step(c, s, ByConsumer(t));
      && (pc == CLoad && s.stack != [] ==>
        OnlyLocal(s, t, s') && s'.cons[t].pc == CHazard && s'.cons[t].raw == s.head)
      && (pc == CHazard ==> OnlyLocal(s, t, s') && s'.cons[t] == s.cons[t].(pc := CRecheck))
      && (s.cons[t].raw == s.head ==>
        && (pc == CRecheck ==> OnlyLocal(s, t, s') && s'.cons[t] == s.cons[t].(pc := CNext))
        && (pc == CNext ==> OnlyLocal(s, t, s') && s'.cons[t].pc == CCas && s'.cons[t].raw == s.cons[t].raw)
        && (pc == CCas ==> TookTop(s, t, s')))
  {
    hide Hazards, Totals, ProducerOk, ReclaimOk, ExitOk, Chains;
    assert ConsumerOk(s, t, s.cons[t]);
    Slots(c, s, t);
    EmptyStack(c, s);
    if s.cons[t].pc == CCas && s.cons[t].raw == s.head { TopIsRead(c, s, t); }
  }

  /** Consumer t took the top value. */
  ghost predicate TookValue(c: Config, s: State, t: nat, s': State)
    requires t < |s.cons|
  {
    && Inv(c, s') && t < |s'.cons| && s'.cons[t].pc == CClear && s'.cons[t].node in s'.heap
    && [s'.heap[s'.cons[t].node].value] + Values(s'.heap, s'.stack) == Values(s.heap, s.stack)
  }

  /** A consumer that has read the link of the current head, running alone, pops the top value. */
  lemma TakeAlone(c: Config, s: State, t: nat) returns (moves: seq<Move>)
    requires Inv(c, s) && t < |s.cons| && s.cons[t].pc == CNext && s.cons[t].raw == s.head
    ensures OnlyConsumer(moves, t) && TookValue(c, s, t, After(c, s, moves))
  {
    hide Inv, Step, Values;
    var m := ByConsumer(t);
    PopSteps(c, s, t);
    var s1 := Step(c, s, m);
    StepInv(c, s, m);
    PopSteps(c, s1, t);
    StepInv(c, s1, m);
    StepRefines(c, s1, m);
    moves := [m, m];
    assert After(c, s, moves) == After(c, s1, [m]);
    OneMove(c, s1, m);
  }

  /** A consumer about to load the head of a nonempty stack, running alone, pops the top value. */
  lemma PopAlone(c: Config, s: State, t: nat) returns (moves: seq<Move>)
    requires Inv(c, s) && t < |s.cons| && s.cons[t].pc == CLoad && Values(s.heap, s.stack) != []
    ensures OnlyConsumer(moves, t)
    ensures var s' := After(c, s, moves);
      && Inv(c, s') && t < |s'.cons| && s'.cons[t].pc == CClear && s'.cons[t].node in s'.heap
      && s'.heap[s'.cons[t].node].value == Values(s.heap, s.stack)[0]
      && Values(s'.heap, s'.stack) == Values(s.heap, s.stack)[1..]
  {
    hide Inv, Step, Values;
    var m := ByConsumer(t);
    EmptyStack(c, s);
    PopSteps(c, s, t);
    var s1 := Step(c, s, m);
    StepInv(c, s, m);
    PopSteps(c, s1, t);
    var s2 := Step(c, s1, m);
    StepInv(c, s1, m);
    PopSteps(c, s2, t);
    var s3 := Step(c, s2, m);
    StepInv(c, s2, m);
    moves := TakeAlone(c, s3, t);
    assert After(c, s2, [m] + moves) == After(c, s3, moves);
    assert After(c, s1, [m] + ([m] + moves)) == After(c, s2, [m] + moves);
    moves := [m] + ([m] + ([m] + moves));
  }

  /** A consumer that scans for hazards on the node it popped, running alone, frees the node if no slot holds it. */
  lemma {:induction false} FreesAlone(c: Config, s: State, t: nat) returns (moves: seq<Move>)
    requires Inv(c, s) && t < |s.cons| && s.cons[t].pc == CScan
    requires forall i :: 0 <= i < |s.hazard| ==> s.hazard[i] != s.cons[t].node
    ensures OnlyConsumer(moves, t) && s.cons[t].node !in After(c, s, moves).heap
    decreases |s.hazard| - s.cons[t].i
  {
    hide Inv;
    var m := ByConsumer(t);
    var s' := Step(c, s, m);
    StepInv(c, s, m);
    if s.cons[t].i < |s.hazard| {
      moves := FreesAlone(c, s', t);
      moves := [m] + moves;
    } else {
      OwnPopped(c, s', t);
      assert After(c, s, [m, m]) == After(c, s', [m]);
      OneMove(c, s', m);
      moves := [m, m];
    }
  }

  // ---- the values pushed

  /** A producer pushes the number of its message. */
  ghost predicate Numbered(s: State, t: nat)
    requires t < |s.prods|
  {
    Pushing(s.prods[t].pc) ==> s.prods[t].node in s.heap && s.heap[s.prods[t].node].value == s.prods[t].j
  }

  ghost predicate AllNumbered(s: State) {
    forall t: nat {:trigger Numbered(s, t)} :: t < |s.prods| ==> Numbered(s, t)
  }

  lemma NumberedStep(c: Config, s: State, m: Move)
    requires Inv(c, s) && AllNumbered(s)
    ensures AllNumbered(Step(c, s, m))
  {
    hide Inv, ReclaimStep, PopStep;
    var s' := Step(c, s, m);
    StepInv(c, s, m);
    SameProducers(c, s, m);
    forall t: nat | t < |s'.prods| ensures Numbered(s', t) {
      assert Numbered(s, t);
      if Pushing(s'.prods[t].pc) { OwnNode(c, s', t); }
      if Pushing(s.prods[t].pc) && s.prods[t].node in s'.heap { ValueKept(c, s, m, s.prods[t].node); }
    }
  }

  lemma SameProducers(c: Config, s: State, m: Move)
    ensures !m.producer ==> Step(c, s, m).prods == s.prods
    ensures |Step(c, s, m).prods| == |s.prods|
  {
  }

  lemma {:induction false} RunNumbered(c: Config, moves: seq<Move>)
    requires c.consumers <= MAX_HAZARD_THREADS
    ensures AllNumbered(Run(c, moves))
    decreases |moves|
  {
    hide Step, Inv;
    if moves == [] {
      assert forall t: nat :: t < |Initial(c).prods| ==> Numbered(Initial(c), t);
    } else {
      RunNumbered(c, moves[..|moves| - 1]);
      RunInv(c, moves[..|moves| - 1]);
      NumberedStep(c, Run(c, moves[..|moves| - 1]), moves[|moves| - 1]);
    }
  }

  /** In every run a successful push adds the number of the producer's message on top of the stack of values. */
  lemma PushesMessage(c: Config, moves: seq<Move>, m: Move)
    requires c.consumers <= MAX_HAZARD_THREADS && IsPush(Run(c, moves), m)
    ensures var s := Run(c, moves); var s' := Step(c, s, m);
      Values(s'.heap, s'.stack) == [s.prods[m.t].j] + Values(s.heap, s.stack)
  {
    hide Inv, Step, Values;
    var s := Run(c, moves);
    RunInv(c, moves);
    RunNumbered(c, moves);
    StepRefines(c, s, m);
    assert Numbered(s, m.t);
  }

  // ---- producers finish

  /** Some address malloc may return. */
  lemma {:induction false} FreshAddress(used: set<Addr>) returns (a: Addr)
    ensures a != NULL && forall b :: b in used ==> b < a
    decreases |used|
  {
    if b :| b in used {
      var above := FreshAddress(used - {b});
      a := if above > b then above else b + 1;
      assert forall x :: x in used ==> x == b || x in used - {b};
    } else {
      a := 1;
    }
  }

  ghost function ByProducer(t: nat, a: Addr): Move { Move(true, t, a, Cell(0, NULL, NULL, Linked), false) }

  /** How far a producer is from the end of its message, when it runs alone. */
  ghost function PushRank(s: State, p: Producer): nat {
    match p.pc
    case PAlloc => 7
    case PLoad => 6
    case PLink => if p.seen == s.head then 3 else 5
    case PCas => if p.seen == s.head then 2 else 4
    case PCount => 1
    case PSignal => 1
    case PDone => 0
  }

  /** Producer t made a step; the other threads and the lock are as they were. */
  ghost predicate ProducerMoved(s: State, t: nat, s': State)
    requires t < |s.prods|
  {
    |s'.prods| == |s.prods| && s'.prods == s.prods[t := s'.prods[t]] && s'.cons == s.cons && s'.lock == s.lock
  }

  lemma ProducerProgress(c: Config, s: State, t: nat, a: Addr)
    requires Inv(c, s) && t < |s.prods| && s.prods[t].pc != PDone && a != NULL && a !in s.heap
    ensures var s' := Step(c, s, ByProducer(t, a)); var p := s.prods[t];
      && ProducerMoved(s, t, s') && p.j <= s'.prods[t].j <= c.messages
      && (s'.prods[t].j == p.j ==> PushRank(s', s'.prods[t]) < PushRank(s, p))
  {
    hide Chains, Hazards, Totals, ConsumerOk;
    assert ProducerOk(c, s, t, s.prods[t]);
  }

  /** A producer running alone sends its remaining messages. */
  lemma {:induction false} FinishProducer(c: Config, s: State, t: nat) returns (moves: seq<Move>)
    requires Inv(c, s) && t < |s.prods|
    ensures OnlyProducer(moves, t)
    ensures var s' := After(c, s, moves); ProducerMoved(s, t, s') && s'.prods[t].pc == PDone
    decreases c.messages - s.prods[t].j, PushRank(s, s.prods[t])
  {
    hide Inv, Step, PushRank;
    if s.prods[t].pc == PDone {
      moves := [];
    } else {
      var a := FreshAddress(s.heap.Keys);
      var m := ByProducer(t, a);
      ProducerProgress(c, s, t, a);
      StepInv(c, s, m);
      moves := FinishProducer(c, Step(c, s, m), t);
      moves := [m] + moves;
    }
  }

  lemma {:induction false} FinishProducers(c: Config, s: State, n: nat) returns (moves: seq<Move>)
    requires Inv(c, s) && n <= |s.prods| && forall t :: 0 <= t < n ==> s.prods[t].pc == PDone
    ensures var s' := After(c, s, moves);
      s'.cons == s.cons && s'.lock == s.lock && |s'.prods| == |s.prods| && ProducersDone(s')
    decreases |s.prods| - n
  {
    hide Inv, Step;
    if n == |s.prods| {
      moves := [];
    } else {
      moves := FinishProducer(c, s, n);
      var s' := After(c, s, moves);
      AfterInv(c, s, moves);
      var more := FinishProducers(c, s', n + 1);
      AfterAppend(c, s, moves, more);
      moves := moves + more;
    }
  }

  ghost predicate ProducersDone(s: State) { forall t :: 0 <= t < |s.prods| ==> s.prods[t].pc == PDone }

  // ---- consumers finish

  /** How far a consumer is from its next node or from its exit, when it runs alone after production has ended; each
      loop it is in has a part of its own in Round. */
  ghost function Stage(s: State, q: Consumer): nat {
    match q.pc
    case CSlot => 100
    case CClear => 90
    case CScan => 80
    case CFree => 70
    case CRetire => 70
    case CSweepLock => if q.last then 4 else 60
    case CFinish => 2
    case CDone => 0
    case CHazard => if q.raw == s.head then 25 else 42
    case CRecheck => if q.raw == s.head then 24 else 41
    case CNext => if q.raw == s.head then 23 else 42
    case CCas => if q.raw == s.head then 22 else 41
    case CLoad => if s.stack != [] then 30 else if q.final then 10 else 20
    case CClearEmpty => if s.stack != [] then 35 else if q.final then 9 else 19
    case CCheckActive => if s.stack != [] then 34 else 18
    case CCheckEmpty => if s.stack != [] then 33 else 17
    case _ => if q.last then 3 else 50
  }

  function LeftToScan(q: Consumer): nat {
    if q.i < MAX_HAZARD_THREADS then MAX_HAZARD_THREADS - q.i else 0
  }

  /** How far a consumer is from the end of its scan or of its sweep. */
  ghost function Round(s: State, q: Consumer): nat {
    var nodes := if q.k < |s.retired| then |s.retired| - q.k else 0;
    match q.pc
    case CScan => LeftToScan(q)
    case CSweepLoop => 40 * nodes + 37
    case CSweepScan => 40 * nodes + 3 + LeftToScan(q)
    case CSweepKeep => 40 * nodes + 2
    case CSweepFree => 40 * nodes + 2
    case _ => 0
  }

  /** Consumer t made a step towards its end; the other threads are as they were. */
  ghost predicate ConsumerMoved(s: State, t: nat, s': State)
    requires t < |s.cons|
  {
    && |s'.cons| == |s.cons| && s'.cons == s.cons[t := s'.cons[t]] && s'.prods == s.prods
    && (s'.lock == Unlocked || s'.lock == Held(t))
  }

  ghost predicate Closer(s: State, q: Consumer, s': State, q': Consumer) {
    || |s'.stack| < |s.stack|
    || (|s'.stack| == |s.stack| && Stage(s', q') < Stage(s, q))
    || (|s'.stack| == |s.stack| && Stage(s', q') == Stage(s, q) && Round(s', q') < Round(s, q))
  }

  /** Consumer t is not held up by the lock. */
  ghost predicate Free(s: State, t: nat) { s.lock == Unlocked || s.lock == Held(t) }

  lemma PopProgress(c: Config, s: State, t: nat, m: Move)
    requires Inv(c, s) && t < |s.cons| && Free(s, t) && s.active == 0 && m == ByConsumer(t)
    requires !Reclaiming(s.cons[t].pc) && s.cons[t].pc != CDone
    ensures var s' := PopStep(c, s, t, m); ConsumerMoved(s, t, s') && Closer(s, s.cons[t], s', s'.cons[t])
  {
    hide Hazards, Totals, ProducerOk, ReclaimOk, Chains;
    assert ConsumerOk(s, t, s.cons[t]);
    Slots(c, s, t);
    EmptyStack(c, s);
    if s.cons[t].pc == CCas && s.cons[t].raw == s.head { TopIsRead(c, s, t); }
  }

  lemma HolderSweeps(c: Config, s: State)
    requires Inv(c, s) && s.lock.Held?
    ensures s.lock.t < |s.cons| && Sweeping(s.cons[s.lock.t])
  {
    hide Chains, Threads, Totals;
  }

  lemma SweepProgress(c: Config, s: State, t: nat)
    requires Inv(c, s) && t < |s.cons| && s.cons[t].pc == CSweepFree
    ensures var s' := ReclaimStep(c, s, t); ConsumerMoved(s, t, s') && Closer(s, s.cons[t], s', s'.cons[t])
  {
    hide Chains, Hazards, Totals, ProducerOk, PopOk, ExitOk, ReclaimStep;
    assert ConsumerOk(s, t, s.cons[t]);
    SweepFreeUnlinks(c, s, t);
  }

  lemma RetireProgress(c: Config, s: State, t: nat)
    requires Inv(c, s) && t < |s.cons| && Free(s, t) && HoldsNode(s.cons[t]) && Reclaiming(s.cons[t].pc)
    ensures var s' := ReclaimStep(c, s, t); ConsumerMoved(s, t, s') && Closer(s, s.cons[t], s', s'.cons[t])
  {
    hide Inv;
    OwnPopped(c, s, t);
    NoOtherSweeper(c, s, t);
    HazardSlots(c, s);
    if s.lock.Held? { HolderSweeps(c, s); }
  }

  lemma HazardSlots(c: Config, s: State)
    requires Inv(c, s)
    ensures |s.hazard| == MAX_HAZARD_THREADS
  {
  }

  lemma SweepBounds(c: Config, s: State, t: nat)
    requires Inv(c, s) && t < |s.cons|
    ensures AtNode(s.cons[t]) ==> s.cons[t].k < |s.retired|
    ensures s.cons[t].pc == CSweepLoop && s.cons[t].cur != NULL ==>
      s.cons[t].k < |s.retired| && s.cons[t].cur in s.heap
  {
    hide Hazards, Totals, ProducerOk, PopOk, ExitOk, StackLink;
    assert ConsumerOk(s, t, s.cons[t]);
    if s.cons[t].pc == CSweepLoop && s.cons[t].cur != NULL { assert RetireLink(s, s.cons[t].k); }
  }

  lemma LoopProgress(c: Config, s: State, t: nat)
    requires Inv(c, s) && t < |s.cons| && s.cons[t].pc in {CSweepLoop, CSweepScan, CSweepKeep}
    ensures var s' := ReclaimStep(c, s, t); ConsumerMoved(s, t, s') && Closer(s, s.cons[t], s', s'.cons[t])
  {
    hide Inv;
    SweepBounds(c, s, t);
    NoOtherSweeper(c, s, t);
    HazardSlots(c, s);
  }

  lemma ReclaimProgress(c: Config, s: State, t: nat)
    requires Inv(c, s) && t < |s.cons| && Free(s, t) && Reclaiming(s.cons[t].pc)
    ensures var s' := ReclaimStep(c, s, t); ConsumerMoved(s, t, s') && Closer(s, s.cons[t], s', s'.cons[t])
  {
    hide Inv;
    if s.cons[t].pc in {CScan, CFree, CRetire} {
      RetireProgress(c, s, t);
    } else if s.cons[t].pc == CSweepFree {
      SweepProgress(c, s, t);
    } else if s.cons[t].pc in {CSweepLoop, CSweepScan, CSweepKeep} {
      LoopProgress(c, s, t);
    } else {
      if s.lock.Held? { HolderSweeps(c, s); }
    }
  }

  lemma AllDone(c: Config, s: State)
    requires Inv(c, s) && ProducersDone(s)
    ensures s.active == 0
  {
    SumConstant(s.prods, IsActive, 0);
  }

  /** A consumer that is not held up by the lock, running alone after production has ended, pops what is left and
      exits. */
  lemma {:induction false} FinishConsumer(c: Config, s: State, t: nat) returns (moves: seq<Move>)
    requires Inv(c, s) && t < |s.cons| && Free(s, t) && ProducersDone(s)
    ensures OnlyConsumer(moves, t)
    ensures var s' := After(c, s, moves); ConsumerMoved(s, t, s') && s'.lock == Unlocked && s'.cons[t].pc == CDone
    decreases |s.stack|, Stage(s, s.cons[t]), Round(s, s.cons[t])
  {
    hide Inv, Step, Stage, Round, PopStep, ReclaimStep;
    if s.cons[t].pc == CDone {
      moves := [];
      if s.lock.Held? { HolderSweeps(c, s); }
    } else {
      var m := ByConsumer(t);
      AllDone(c, s);
      OneStep(c, s, t);
      StepInv(c, s, m);
      moves := FinishConsumer(c, Step(c, s, m), t);
      moves := [m] + moves;
    }
  }

  lemma OneStep(c: Config, s: State, t: nat)
    requires Inv(c, s) && t < |s.cons| && Free(s, t) && s.active == 0 && s.cons[t].pc != CDone
    ensures var s' := Step(c, s, ByConsumer(t)); ConsumerMoved(s, t, s') && Closer(s, s.cons[t], s', s'.cons[t])
  {
    hide Inv, Stage, Round, PopStep, ReclaimStep;
    if Reclaiming(s.cons[t].pc) { ReclaimProgress(c, s, t); } else { PopProgress(c, s, t, ByConsumer(t)); }
  }

  lemma {:induction false} FinishConsumers(c: Config, s: State, n: nat) returns (moves: seq<Move>)
    requires Inv(c, s) && ProducersDone(s) && s.lock == Unlocked
    requires n <= |s.cons| && forall t :: 0 <= t < n ==> s.cons[t].pc == CDone
    ensures Finished(After(c, s, moves))
    decreases |s.cons| - n
  {
    hide Inv, Step;
    if n == |s.cons| {
      moves := [];
    } else {
      moves := FinishConsumer(c, s, n);
      AfterInv(c, s, moves);
      var more := FinishConsumers(c, After(c, s, moves), n + 1);
      AfterAppend(c, s, moves, more);
      moves := moves + more;
    }
  }

  /** After the producers, the consumer that holds the lock finishes first, then the others one by one. */
  lemma FinishAll(c: Config, s: State) returns (moves: seq<Move>)
    requires Inv(c, s)
    ensures Finished(After(c, s, moves))
  {
    hide Inv, Step, Finished;
    moves := FinishProducers(c, s, 0);
    var s1 := After(c, s, moves);
    AfterInv(c, s, moves);
    var release := [];
    if s1.lock.Held? {
      HolderSweeps(c, s1);
      release := FinishConsumer(c, s1, s1.lock.t);
    }
    var s2 := After(c, s1, release);
    AfterInv(c, s1, release);
    var more := FinishConsumers(c, s2, 0);
    AfterAppend(c, s1, release, more);
    AfterAppend(c, s, moves, release + more);
    moves := moves + (release + more);
  }

  /** Whatever moves were made, more moves finish every thread. */
  lemma EveryRunCanFinish(c: Config, moves: seq<Move>) returns (more: seq<Move>)
    requires c.consumers <= MAX_HAZARD_THREADS
    ensures Finished(Run(c, moves + more))
  {
    hide Finished;
    RunInv(c, moves);
    more := FinishAll(c, Run(c, moves));
    RunAfter(c, moves, more);
  }
}
