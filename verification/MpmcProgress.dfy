/** Progress in the multi-producer multi-consumer queue: exactly when a call gives up, what a thread achieves alone,
    and that every run can be completed. */
module MpmcProgress {
  import opened MpmcQueue
  import opened Sums

  // ---- when a call gives up

  /** The consumer of the position a lap before the tail has not given its slot back. */
  ghost predicate TailHeld(c: Config, s: State) {
    exists u: nat, p: nat :: InPop(s, u, p) && s.tail == p + c.capacity
  }

  /** A push that finds the sequence of its slot gives up if and only if its position is the tail and the ring is full,
      or the last consumer of the slot still reads it. */
  lemma PushGivesUpIff(c: Config, s: State, t: nat, spurious: bool)
    requires Inv(c, s) && t < |s.prods| && s.prods[t].pc == PSequence
    ensures Step(c, s, ProducerMove(t, spurious)).prods[t].pc == PLoad <==>
      s.prods[t].pos == s.tail && (s.tail == s.head + c.capacity || TailHeld(c, s))
  {
    hide SlotOf, Items, Takers, Received;
    assert ProducerOk(c, s, t, s.prods[t]);
    if SequenceAt(c, s, s.prods[t].pos) < s.prods[t].pos { PushGivesUp(c, s, t); }
    if s.tail == s.head + c.capacity { FullTail(c, s); }
    if TailHeld(c, s) { HeldTail(c, s); }
  }

  lemma FullTail(c: Config, s: State)
    requires Inv(c, s) && s.tail == s.head + c.capacity
    ensures SequenceAt(c, s, s.tail) < s.tail
  {
    hide Items, Takers, Received, Producers, Consumers;
    SlotShift(c, s.head);
    assert SlotOk(c, s, s.head);
  }

  lemma HeldTail(c: Config, s: State)
    requires Inv(c, s) && TailHeld(c, s)
    ensures SequenceAt(c, s, s.tail) < s.tail
  {
    hide Items, Takers, Received, Producers, Window;
    var u: nat, p: nat :| InPop(s, u, p) && s.tail == p + c.capacity;
    assert ConsumerOk(c, s, u, s.cons[u]);
    SlotShift(c, p);
  }

  /** A pop gives up if and only if its position is the head and the ring is empty, or the producer that claimed the
      head has not published it. */
  lemma PopGivesUpIff(c: Config, s: State, t: nat, spurious: bool)
    requires Inv(c, s) && t < |s.cons| && s.cons[t].pc == CSequence
    ensures Step(c, s, ConsumerMove(t, spurious)).cons[t].pc == CLoad <==>
      s.cons[t].pos == s.head && (s.head == s.tail || exists u: nat :: InPush(s, u, s.head))
  {
    hide SlotOf, Items, Takers, Received;
    if SequenceAt(c, s, s.cons[t].pos) < s.cons[t].pos + 1 { PopGivesUp(c, s, t); }
    assert SlotOk(c, s, s.head);
    if u: nat :| InPush(s, u, s.head) { assert ProducerOk(c, s, u, s.prods[u]); }
  }

  // ---- several moves

  ghost function Apply(c: Config, s: State, m: Move): State {
    if Shape(c, s) then Step(c, s, m) else s
  }

  ghost function After(c: Config, s: State, moves: seq<Move>): State
    decreases |moves|
  {
    if moves == [] then s else After(c, Apply(c, s, moves[0]), moves[1..])
  }

  lemma {:induction false} AfterInv(c: Config, s: State, moves: seq<Move>)
    requires Inv(c, s)
    ensures Inv(c, After(c, s, moves))
    decreases |moves|
  {
    hide Inv;
    if moves != [] {
      InvShape(c, s);
      StepInv(c, s, moves[0]);
      AfterInv(c, Apply(c, s, moves[0]), moves[1..]);
    }
  }

  lemma InvShape(c: Config, s: State)
    requires Inv(c, s)
    ensures Shape(c, s)
  {
  }

  lemma {:induction false} AfterAppend(c: Config, s: State, moves: seq<Move>, more: seq<Move>)
    ensures After(c, s, moves + more) == After(c, After(c, s, moves), more)
    decreases |moves|
  {
    hide Apply;
    if moves == [] {
      assert moves + more == more;
    } else {
      AfterAppend(c, Apply(c, s, moves[0]), moves[1..], more);
      assert (moves + more)[1..] == moves[1..] + more;
    }
  }

  /** Moves from a reachable state reach their outcome. */
  lemma {:induction false} ReachesAfter(c: Config, moves: seq<Move>, s: State, more: seq<Move>)
    requires c.capacity >= 2 && Reaches(c, moves, s)
    ensures Reaches(c, moves + more, After(c, s, more))
    decreases |more|
  {
    hide Step, Inv, Shape;
    if more == [] {
      assert moves + more == moves;
    } else {
      ReachableInv(c, moves, s);
      InvShape(c, s);
      var s' := Apply(c, s, more[0]);
      assert (moves + [more[0]])[..|moves|] == moves;
      assert Reaches(c, moves + [more[0]], s');
      ReachesAfter(c, moves + [more[0]], s', more[1..]);
      assert moves + [more[0]] + more[1..] == moves + more;
    }
  }

  // ---- a producer alone

  /** Only moves of producer t, none of whose compare-and-swaps fails spuriously. */
  ghost predicate OnlyProducer(moves: seq<Move>, t: nat) {
    forall i :: 0 <= i < |moves| ==> moves[i] == ProducerMove(t, false)
  }

  ghost predicate OnlyConsumer(moves: seq<Move>, t: nat) {
    forall i :: 0 <= i < |moves| ==> moves[i] == ConsumerMove(t, false)
  }

  ghost predicate HasItem(c: Config, s: State, t: nat)
    requires Shape(c, s)
  {
    t < |s.prods| && s.prods[t].i < |c.items[t]|
  }

  /** How far a producer is from its claim, when it runs alone. */
  function ClaimRank(s: State, p: Producer): nat {
    match p.pc
    case PSequence => if p.pos == s.tail then 3 else 6
    case PCas => if p.pos == s.tail then 2 else 4
    case _ => 5
  }

  ghost function Claiming(s: State, t: nat): State
    requires t < |s.prods|
  {
    var p := s.prods[t];
    s.(prods := s.prods[t := p.(pc := PWrite, pos := s.tail)], tail := s.tail + 1, who := s.who + [(t, p.i)])
  }

  /** Only the producer's locals change, and it is closer to its claim. */
  ghost predicate CloserToClaim(s: State, t: nat, s': State)
    requires t < |s.prods|
  {
    && |s'.prods| == |s.prods| && s'.prods == s.prods[t := s'.prods[t]] && s' == s.(prods := s'.prods)
    && s'.prods[t].i == s.prods[t].i && !Pushing(s'.prods[t]) && ClaimRank(s', s'.prods[t]) < ClaimRank(s, s.prods[t])
  }

  lemma ClaimStep(c: Config, s: State, t: nat)
    requires Inv(c, s) && HasItem(c, s, t) && !Pushing(s.prods[t]) && SequenceAt(c, s, s.tail) == s.tail
    ensures var s', p := Step(c, s, ProducerMove(t, false)), s.prods[t];
      if p.pc == PCas && p.pos == s.tail then s' == Claiming(s, t) else CloserToClaim(s, t, s')
  {
    hide SlotOf, Items, Takers, Received, Consumers;
    assert ProducerOk(c, s, t, s.prods[t]);
    if s.prods[t].pc == PSequence && SequenceAt(c, s, s.prods[t].pos) < s.prods[t].pos { PushGivesUp(c, s, t); }
  }

  lemma {:induction false} ClaimAlone(c: Config, s: State, t: nat) returns (moves: seq<Move>)
    requires Inv(c, s) && HasItem(c, s, t) && !Pushing(s.prods[t]) && SequenceAt(c, s, s.tail) == s.tail
    ensures OnlyProducer(moves, t) && After(c, s, moves) == Claiming(s, t)
    decreases ClaimRank(s, s.prods[t])
  {
    hide Inv, Step, SlotOf;
    InvShape(c, s);
    ClaimStep(c, s, t);
    var m := ProducerMove(t, false);
    var s' := Step(c, s, m);
    if s.prods[t].pc == PCas && s.prods[t].pos == s.tail {
      moves := [m];
      assert After(c, s, moves) == After(c, s', []);
    } else {
      StepInv(c, s, m);
      moves := ClaimAlone(c, s', t);
      assert Claiming(s', t) == Claiming(s, t);
      moves := [m] + moves;
    }
  }

  /** The state after the push in progress of t. */
  ghost function PushedBy(c: Config, s: State, t: nat): State
    requires Shape(c, s) && HasItem(c, s, t)
  {
    var p := s.prods[t];
    s.(prods := s.prods[t := p.(pc := NextItem(c, t, p.i + 1), i := p.i + 1)],
       slots := s.slots[SlotOf(c, p.pos) := Slot(c.items[t][p.i], p.pos + 1)])
  }

  /** The value is written, and publishing it is left. */
  ghost predicate Wrote(c: Config, s: State, t: nat, s': State)
    requires Shape(c, s) && HasItem(c, s, t)
  {
    && Shape(c, s') && HasItem(c, s', t) && s'.prods[t] == s.prods[t].(pc := PPublish)
    && PushedBy(c, s', t) == PushedBy(c, s, t)
  }

  lemma PublishStep(c: Config, s: State, t: nat)
    requires Inv(c, s) && t < |s.prods| && Pushing(s.prods[t])
    ensures HasItem(c, s, t)
    ensures var s' := Step(c, s, ProducerMove(t, false));
      if s.prods[t].pc == PPublish then s' == PushedBy(c, s, t) else Wrote(c, s, t, s')
  {
    hide Items, Takers, Received, Consumers, Window;
    assert ProducerOk(c, s, t, s.prods[t]);
    NearSlots(c, s.prods[t].pos);
  }

  /** A producer that has claimed a position completes its push alone. */
  lemma CompletePush(c: Config, s: State, t: nat) returns (moves: seq<Move>)
    requires Inv(c, s) && t < |s.prods| && Pushing(s.prods[t])
    ensures OnlyProducer(moves, t) && HasItem(c, s, t) && After(c, s, moves) == PushedBy(c, s, t)
  {
    hide Inv, Step, SlotOf, PushedBy;
    InvShape(c, s);
    PublishStep(c, s, t);
    var m := ProducerMove(t, false);
    var s' := Step(c, s, m);
    if s.prods[t].pc == PPublish {
      moves := [m];
      assert After(c, s, moves) == After(c, s', []);
    } else {
      StepInv(c, s, m);
      PublishStep(c, s', t);
      moves := [m, m];
      assert After(c, s, moves) == After(c, s', [m]) == After(c, Step(c, s', m), []);
    }
  }

  /** A producer with an item, running alone when the tail's slot is free, pushes the item at the tail. */
  lemma PushAlone(c: Config, s: State, t: nat) returns (moves: seq<Move>)
    requires Inv(c, s) && HasItem(c, s, t) && !Pushing(s.prods[t]) && SequenceAt(c, s, s.tail) == s.tail
    ensures OnlyProducer(moves, t)
    ensures var s' := After(c, s, moves); var i := s.prods[t].i;
      && Inv(c, s') && s'.tail == s.tail + 1 && s'.who == s.who + [(t, i)] && s'.head == s.head && s'.cons == s.cons
      && |s'.prods| == |s.prods| && s'.prods == s.prods[t := s'.prods[t]] && s'.prods[t].i == i + 1
      && SequenceAt(c, s', s.tail) == s.tail + 1 && DataAt(c, s', s.tail) == c.items[t][i]
  {
    hide Inv, Step;
    InvShape(c, s);
    moves := ClaimAlone(c, s, t);
    var s1 := After(c, s, moves);
    AfterInv(c, s, moves);
    var more := CompletePush(c, s1, t);
    AfterInv(c, s1, more);
    AfterAppend(c, s, moves, more);
    InvShape(c, s1);
    NearSlots(c, s.tail);
    moves := moves + more;
  }

  // ---- a consumer alone

  function TakeRank(s: State, q: Consumer): nat {
    match q.pc
    case CSequence => if q.pos == s.head then 3 else 6
    case CCas => if q.pos == s.head then 2 else 4
    case _ => 5
  }

  ghost function Taking(s: State, t: nat): State
    requires t < |s.cons|
  {
    s.(cons := s.cons[t := s.cons[t].(pc := CRead, pos := s.head)], head := s.head + 1, taker := s.taker + [t])
  }

  /** Only the consumer's locals change, and it is closer to its claim. */
  ghost predicate CloserToTake(s: State, t: nat, s': State)
    requires t < |s.cons|
  {
    && |s'.cons| == |s.cons| && s'.cons == s.cons[t := s'.cons[t]] && s' == s.(cons := s'.cons)
    && s'.cons[t].count == s.cons[t].count && s'.cons[t].val == s.cons[t].val
    && !Holding(s'.cons[t]) && TakeRank(s', s'.cons[t]) < TakeRank(s, s.cons[t])
  }

  ghost predicate Wants(c: Config, s: State, t: nat)
    requires Shape(c, s)
  {
    t < |s.cons| && s.cons[t].count < c.quotas[t] && !Holding(s.cons[t])
  }

  lemma TakeStep(c: Config, s: State, t: nat)
    requires Inv(c, s) && Wants(c, s, t) && SequenceAt(c, s, s.head) == s.head + 1
    ensures var s' := Step(c, s, ConsumerMove(t, false));
      if s.cons[t].pc == CCas && s.cons[t].pos == s.head then s' == Taking(s, t) else CloserToTake(s, t, s')
  {
    hide SlotOf, Items, Takers, Received, Producers;
    assert ConsumerOk(c, s, t, s.cons[t]);
    if s.cons[t].pc == CSequence && SequenceAt(c, s, s.cons[t].pos) < s.cons[t].pos + 1 { PopGivesUp(c, s, t); }
  }

  lemma {:induction false} TakeAlone(c: Config, s: State, t: nat) returns (moves: seq<Move>)
    requires Inv(c, s) && Wants(c, s, t) && SequenceAt(c, s, s.head) == s.head + 1
    ensures OnlyConsumer(moves, t) && After(c, s, moves) == Taking(s, t)
    decreases TakeRank(s, s.cons[t])
  {
    hide Inv, Step, SlotOf;
    InvShape(c, s);
    TakeStep(c, s, t);
    var m := ConsumerMove(t, false);
    var s' := Step(c, s, m);
    if s.cons[t].pc == CCas && s.cons[t].pos == s.head {
      moves := [m];
      assert After(c, s, moves) == After(c, s', []);
    } else {
      StepInv(c, s, m);
      moves := TakeAlone(c, s', t);
      assert Taking(s', t) == Taking(s, t);
      moves := [m] + moves;
    }
  }

  function HoldRank(q: Consumer): nat {
    match q.pc case CRead => 3 case CPublish => 2 case CReceive => 1 case _ => 0
  }

  /** Consumer t has entered the value of the position it had claimed. */
  ghost predicate PoppedBy(c: Config, s: State, t: nat, s': State)
    requires t < |s.cons|
  {
    && |s'.cons| == |s.cons| && s'.cons == s.cons[t := s'.cons[t]] && s'.cons[t].count == s.cons[t].count + 1
    && s'.received == s.received + multiset{ValueAt(c, s, s.cons[t].pos)} && s'.prods == s.prods
    && s'.head == s.head && s'.tail == s.tail && s'.who == s.who && s'.taker == s.taker
  }

  /** A step of the consumer between its claim and the entry. */
  ghost predicate StillPopping(c: Config, s: State, t: nat, s': State)
    requires t < |s.cons|
  {
    && |s'.cons| == |s.cons| && s'.cons == s.cons[t := s'.cons[t]] && s'.cons[t].count == s.cons[t].count
    && s'.cons[t].pos == s.cons[t].pos && s'.received == s.received && s'.prods == s.prods
    && s'.head == s.head && s'.tail == s.tail && s'.who == s.who && s'.taker == s.taker
    && Holding(s'.cons[t]) && HoldRank(s'.cons[t]) < HoldRank(s.cons[t])
  }

  lemma HoldStep(c: Config, s: State, t: nat)
    requires Inv(c, s) && t < |s.cons| && Holding(s.cons[t])
    ensures var s' := Step(c, s, ConsumerMove(t, false));
      if s.cons[t].pc == CReceive then PoppedBy(c, s, t, s') else StillPopping(c, s, t, s')
  {
    hide Items, Takers, Received, Producers, Window;
    assert ConsumerOk(c, s, t, s.cons[t]);
  }

  /** A consumer that has claimed a position completes its pop alone. */
  lemma {:induction false} CompletePop(c: Config, s: State, t: nat) returns (moves: seq<Move>)
    requires Inv(c, s) && t < |s.cons| && Holding(s.cons[t])
    ensures OnlyConsumer(moves, t) && PoppedBy(c, s, t, After(c, s, moves))
    decreases HoldRank(s.cons[t])
  {
    hide Inv, Step, SlotOf;
    InvShape(c, s);
    HoldStep(c, s, t);
    var m := ConsumerMove(t, false);
    var s' := Step(c, s, m);
    if s.cons[t].pc == CReceive {
      moves := [m];
      assert After(c, s, moves) == After(c, s', []);
    } else {
      StepInv(c, s, m);
      moves := CompletePop(c, s', t);
      moves := [m] + moves;
    }
  }

  /** A consumer that is not done, running alone when the value at the head is published, receives that value. */
  lemma PopAlone(c: Config, s: State, t: nat) returns (moves: seq<Move>)
    requires Inv(c, s) && Wants(c, s, t) && SequenceAt(c, s, s.head) == s.head + 1
    ensures OnlyConsumer(moves, t)
    ensures var s' := After(c, s, moves);
      && Inv(c, s') && s'.head == s.head + 1 && s'.taker == s.taker + [t] && s'.tail == s.tail && s'.prods == s.prods
      && |s'.cons| == |s.cons| && s'.cons == s.cons[t := s'.cons[t]] && s'.cons[t].count == s.cons[t].count + 1
      && s.head < s.tail && s'.received == s.received + multiset{ValueAt(c, s, s.head)}
  {
    hide Inv, Step;
    InvShape(c, s);
    HeadValue(c, s);
    moves := TakeAlone(c, s, t);
    var s1 := After(c, s, moves);
    AfterInv(c, s, moves);
    var more := CompletePop(c, s1, t);
    AfterInv(c, s1, more);
    AfterAppend(c, s, moves, more);
    moves := moves + more;
  }

  lemma HeadValue(c: Config, s: State)
    requires Inv(c, s) && SequenceAt(c, s, s.head) == s.head + 1
    ensures s.head < s.tail
  {
    ValueAtHead(c, s);
  }

  // ---- every run can be completed

  function Completed(p: Producer): nat { p.i }

  function Entered(q: Consumer): nat { q.count }

  /** How many pushes and pops have completed. */
  ghost function Progress(s: State): nat { Sum(s.prods, Completed) + Sum(s.cons, Entered) }

  lemma ProgressBound(c: Config, s: State)
    requires Inv(c, s)
    ensures Progress(s) <= Sum(c.items, Length) + Sum(c.quotas, Quota)
  {
    hide Items, Takers, Received, Window;
    forall t | 0 <= t < |s.prods| ensures Completed(s.prods[t]) <= Length(c.items[t]) {
      assert ProducerOk(c, s, t, s.prods[t]);
    }
    forall t | 0 <= t < |s.cons| ensures Entered(s.cons[t]) <= Quota(c.quotas[t]) {
      assert ConsumerOk(c, s, t, s.cons[t]);
    }
    SumLe(s.prods, Completed, c.items, Length);
    SumLe(s.cons, Entered, c.quotas, Quota);
  }

  ghost predicate Quiet(s: State) {
    (forall t :: 0 <= t < |s.prods| ==> !Pushing(s.prods[t])) && forall t :: 0 <= t < |s.cons| ==> !Holding(s.cons[t])
  }

  /** When nobody is between claim and completion, the tail's slot is free or the ring is full, and the head's value is
      published or the ring is empty. */
  lemma QuietSlots(c: Config, s: State)
    requires Inv(c, s) && Quiet(s)
    ensures s.tail < s.head + c.capacity ==> SequenceAt(c, s, s.tail) == s.tail
    ensures s.head < s.tail ==> SequenceAt(c, s, s.head) == s.head + 1
  {
    hide Items, Takers, Received, Producers, Consumers;
    if s.tail < s.head + c.capacity { assert SlotOk(c, s, s.tail); }
    if s.head < s.tail { assert SlotOk(c, s, s.head); }
  }

  /** In a quiet state the pushes completed are the tail and the pops completed the head. */
  lemma QuietSums(c: Config, s: State)
    requires Inv(c, s) && Quiet(s)
    ensures Sum(s.prods, Completed) == s.tail && Sum(s.cons, Entered) == s.head
  {
    hide Window, Received, Producers, Consumers;
    SumSame(s.prods, Claimed, s.prods, Completed);
    SumSame(s.cons, Taken, s.cons, Entered);
  }

  lemma ThreadBounds(c: Config, s: State)
    requires Inv(c, s)
    ensures forall t :: 0 <= t < |s.prods| ==>
      Completed(s.prods[t]) <= Length(c.items[t]) && (s.prods[t].pc == PDone <==> !HasItem(c, s, t))
    ensures forall t :: 0 <= t < |s.cons| ==>
      Entered(s.cons[t]) <= Quota(c.quotas[t]) && (s.cons[t].pc == CDone <==> s.cons[t].count == c.quotas[t])
  {
    hide Items, Takers, Received, Window;
    forall t | 0 <= t < |s.prods| ensures ProducerOk(c, s, t, s.prods[t]) {}
    forall t | 0 <= t < |s.cons| ensures ConsumerOk(c, s, t, s.cons[t]) {}
  }

  lemma NotFinished(s: State) returns (producer: bool, t: nat)
    requires !Finished(s)
    ensures if producer then t < |s.prods| && s.prods[t].pc != PDone else t < |s.cons| && s.cons[t].pc != CDone
  {
    if t': nat :| t' < |s.prods| && s.prods[t'].pc != PDone {
      producer, t := true, t';
    } else {
      producer := false;
      t :| t < |s.cons| && s.cons[t].pc != CDone;
    }
  }

  /** In a quiet state with something left to do, a producer can push or a consumer can pop. */
  lemma SomethingToDo(c: Config, s: State) returns (push: bool, t: nat)
    requires Inv(c, s) && Quiet(s) && !Finished(s) && Sum(c.quotas, Quota) == Sum(c.items, Length)
    ensures if push then HasItem(c, s, t) && s.tail < s.head + c.capacity else Wants(c, s, t) && s.head < s.tail
  {
    hide Inv, Finished;
    InvShape(c, s);
    QuietSums(c, s);
    ThreadBounds(c, s);
    SumLe(s.prods, Completed, c.items, Length);
    SumLe(s.cons, Entered, c.quotas, Quota);
    var producer, u := NotFinished(s);
    if s.tail < s.head + c.capacity && Sum(s.prods, Completed) < Sum(c.items, Length) {
      push := true;
      t := SmallerTerm(s.prods, Completed, c.items, Length);
    } else {
      push := false;
      assert s.head < s.tail;
      t := SmallerTerm(s.cons, Entered, c.quotas, Quota);
    }
  }

  /** From any state of any run some moves complete one more push or pop, unless all threads are finished. */
  lemma OneMore(c: Config, s: State) returns (moves: seq<Move>)
    requires Inv(c, s) && !Finished(s) && Sum(c.quotas, Quota) == Sum(c.items, Length)
    ensures Inv(c, After(c, s, moves)) && Progress(After(c, s, moves)) == Progress(s) + 1
  {
    hide Inv, Step, Finished, PushedBy;
    InvShape(c, s);
    if t: nat :| t < |s.prods| && Pushing(s.prods[t]) {
      moves := CompletePush(c, s, t);
      PushedMore(c, s, t);
    } else if t: nat :| t < |s.cons| && Holding(s.cons[t]) {
      moves := CompletePop(c, s, t);
      MorePopped(c, s, t, After(c, s, moves));
    } else {
      var push, t := SomethingToDo(c, s);
      QuietSlots(c, s);
      if push {
        moves := PushAlone(c, s, t);
        SumUpdate(s.prods, t, After(c, s, moves).prods[t], Completed);
      } else {
        moves := PopAlone(c, s, t);
        SumUpdate(s.cons, t, After(c, s, moves).cons[t], Entered);
      }
    }
    AfterInv(c, s, moves);
  }

  lemma PushedMore(c: Config, s: State, t: nat)
    requires Shape(c, s) && HasItem(c, s, t)
    ensures Progress(PushedBy(c, s, t)) == Progress(s) + 1
  {
    SumUpdate(s.prods, t, PushedBy(c, s, t).prods[t], Completed);
  }

  lemma MorePopped(c: Config, s: State, t: nat, s': State)
    requires t < |s.cons| && PoppedBy(c, s, t, s')
    ensures Progress(s') == Progress(s) + 1
  {
    SumUpdate(s.cons, t, s'.cons[t], Entered);
  }

  lemma {:induction false} FinishFrom(c: Config, s: State) returns (moves: seq<Move>)
    requires Inv(c, s) && Sum(c.quotas, Quota) == Sum(c.items, Length)
    ensures Finished(After(c, s, moves))
    decreases Sum(c.items, Length) + Sum(c.quotas, Quota) - Progress(s)
  {
    hide Inv, Finished, Apply, Progress;
    if Finished(s) {
      moves := [];
    } else {
      moves := OneMore(c, s);
      var s' := After(c, s, moves);
      ProgressBound(c, s');
      var more := FinishFrom(c, s');
      AfterAppend(c, s, moves, more);
      moves := moves + more;
    }
  }

  /** Whatever moves were made, if the consumers are to pop as many values as the producers push, more moves complete
      the run. */
  lemma EveryRunCanFinish(c: Config, moves: seq<Move>, s: State) returns (more: seq<Move>, end: State)
    requires c.capacity >= 2 && Reaches(c, moves, s) && Sum(c.quotas, Quota) == Sum(c.items, Length)
    ensures Reaches(c, moves + more, end) && Finished(end)
  {
    ReachableInv(c, moves, s);
    more := FinishFrom(c, s);
    end := After(c, s, more);
    ReachesAfter(c, moves, s, more);
  }
}
