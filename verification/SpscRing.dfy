/** The single-producer single-consumer ring. Its indices run freely and wrap at 2^width; every atomic access is a step
    of its own, so the producer may test a stale head and the consumer a stale tail. */
module SpscRing {
  import opened Bits

  /** `seen` in a program counter is a ghost: the position that the other side's index stood for when it was loaded. */
  datatype Producer<V> = PIdle | PTail(value: V, t: nat) | PBoth(value: V, t: nat, h: nat,
      seen: nat) | PWrite(value: V, t: nat) | PPublish(value: V, t: nat)

  datatype Consumer<V> = CIdle | CHead(h: nat) | CBoth(h: nat, t: nat, seen: nat) | CRead(h: nat) | CPublish(h: nat,
      value: V)

  /** History: the arguments of the calls of push and the answers given so far; the values of the completed pushes and
      pops. */
  datatype State<V> = State(data: seq<V>, head: nat, tail: nat, producer: Producer<V>, consumer: Consumer<V>,
                            calls: seq<V>, answers: seq<bool>, pushed: seq<V>, popped: seq<V>)

  /** Capacity 2^e, indices modulo 2^width, both starting at `start`. */
  datatype Config = Config(e: nat, width: nat, start: nat) {
    function Capacity(): (c: nat) ensures c > 0 { Pow2(e) }
    function Modulus(): (m: nat) ensures m > 0 { Pow2(width) }
    ghost predicate Ok() { e < width && start < Modulus() }
  }

  /** Unsigned subtraction and increment. */
  function WrapSub(c: Config, a: nat, b: nat): int { if a >= b then a - b else a + c.Modulus() - b }

  function WrapInc(c: Config, a: nat): nat { if a + 1 == c.Modulus() then 0 else a + 1 }

  function Slot(c: Config, index: nat): nat { And(index, c.Capacity() - 1) }

  /** The index of a position of the unbounded sequence of pushes. */
  function Index(c: Config, p: nat): nat { (c.start + p) % c.Modulus() }

  ghost predicate Init<V>(c: Config, s: State<V>) {
    && c.Ok() && |s.data| == c.Capacity() && s.head == s.tail == c.start
    && s.producer.PIdle? && s.consumer.CIdle? && s.calls == [] && s.answers == [] && s.pushed == [] && s.popped == []
  }

  ghost predicate ProducerStep<V>(c: Config, s: State<V>, s': State<V>) {
    match s.producer
    case PIdle =>
      && s'.producer.PTail?
      && s' == s.(producer := PTail(s'.producer.value, s.tail), calls := s.calls + [s'.producer.value])
    case PTail(v, t) => s' == s.(producer := PBoth(v, t, s.head, |s.popped|))
    case PBoth(v, t, h, _) =>
      s' == if WrapSub(c, t, h) >= c.Capacity() then s.(producer := PIdle, answers := s.answers + [false])
            else s.(producer := PWrite(v, t))
    case PWrite(v, t) =>
      Slot(c, t) < |s.data| && s' == s.(data := s.data[Slot(c, t) := v], producer := PPublish(v, t))
    case PPublish(v, t) =>
      s' == s.(tail := WrapInc(c, t), producer := PIdle, pushed := s.pushed + [v], answers := s.answers + [true])
  }

  ghost predicate ConsumerStep<V>(c: Config, s: State<V>, s': State<V>) {
    match s.consumer
    case CIdle => s' == s.(consumer := CHead(s.head))
    case CHead(h) => s' == s.(consumer := CBoth(h, s.tail, |s.pushed|))
    case CBoth(h, t, _) => s' == s.(consumer := if h == t then CIdle else CRead(h))
    case CRead(h) => Slot(c, h) < |s.data| && s' == s.(consumer := CPublish(h, s.data[Slot(c, h)]))
    case CPublish(h, v) => s' == s.(head := WrapInc(c, h), consumer := CIdle, popped := s.popped + [v])
  }

  ghost predicate Next<V>(c: Config, s: State<V>, s': State<V>) { ProducerStep(c, s, s') || ConsumerStep(c, s, s') }

  // ---- indices and slots

  lemma IndexSlot(c: Config, p: nat)
    requires c.Ok()
    ensures Index(c, p) < c.Modulus() && Slot(c, Index(c, p)) == (c.start + p) % c.Capacity() < c.Capacity()
  {
    AndMask(Index(c, p), c.e);
    Pow2Add(c.e, c.width - c.e);
    NestedMod(c.start + p, c.Capacity(), Pow2(c.width - c.e));
  }

  lemma NestedMod(x: nat, d: nat, k: nat)
    requires d > 0 && k > 0
    ensures d * k > 0 && x % (d * k) % d == x % d
  {
    var r := x % (d * k);
    var q := x / (d * k);
    assert x == q * (d * k) + r;
    assert r == (r / d) * d + r % d;
    calc {
      x;
      q * (d * k) + (r / d) * d + r % d;
      (q * k + r / d) * d + r % d;
    }
    QuotientUnique(x, d, q * k + r / d, r % d);
  }

  lemma IndexNext(c: Config, p: nat)
    requires c.Ok()
    ensures WrapInc(c, Index(c, p)) == Index(c, p + 1)
  {
    var m := c.Modulus();
    ModNext(c.start + p, m);
    if Index(c, p) + 1 == m {
      QuotientUnique(m, m, 1, 0);
    } else {
      QuotientUnique(Index(c, p) + 1, m, 0, Index(c, p) + 1);
    }
  }

  /** The unsigned difference of two indices is the distance of their positions, across the wrap too. */
  lemma IndexDistance(c: Config, p: nat, q: nat)
    requires c.Ok() && p <= q < p + c.Modulus()
    ensures WrapSub(c, Index(c, q), Index(c, p)) == q - p && (Index(c, q) == Index(c, p) <==> q == p)
  {
    var m := c.Modulus();
    var r := Index(c, p) + (q - p);
    var k := (c.start + p) / m;
    assert c.start + p == k * m + Index(c, p);
    if r < m {
      QuotientUnique(c.start + q, m, k, r);
    } else {
      assert c.start + q == (k + 1) * m + (r - m);
      QuotientUnique(c.start + q, m, k + 1, r - m);
    }
  }

  lemma CapacityFits(c: Config)
    requires c.Ok()
    ensures c.Capacity() < c.Modulus()
  {
    Pow2Monotone(c.e + 1, c.width);
  }

  // ---- the invariant

  ghost predicate SlotOk<V>(c: Config, s: State<V>, p: nat)
    requires p < |s.pushed|
  {
    Slot(c, Index(c, p)) < |s.data| && s.data[Slot(c, Index(c, p))] == s.pushed[p]
  }

  ghost predicate Shape<V>(c: Config, s: State<V>) {
    && c.Ok() && |s.data| == c.Capacity()
    && |s.popped| <= |s.pushed| <= |s.popped| + c.Capacity()
    && s.tail == Index(c, |s.pushed|) && s.head == Index(c, |s.popped|)
    && s.popped == s.pushed[..|s.popped|]
  }

  ghost predicate Unread<V>(c: Config, s: State<V>) {
    forall p: nat {:trigger SlotOk(c, s, p)} :: |s.popped| <= p < |s.pushed| ==> SlotOk(c, s, p)
  }

  ghost predicate ProducerOk<V>(c: Config, s: State<V>) {
    match s.producer
    case PIdle => true
    case PTail(_, t) => t == s.tail
    case PBoth(_, t, h, seen) => t == s.tail && h == Index(c, seen) && seen <= |s.popped|
      && |s.pushed| <= seen + c.Capacity()
    case PWrite(_, t) => t == s.tail && |s.pushed| < |s.popped| + c.Capacity()
    case PPublish(v, t) =>
      && t == s.tail && |s.pushed| < |s.popped| + c.Capacity()
      && Slot(c, t) < |s.data| && s.data[Slot(c, t)] == v
  }

  ghost predicate ConsumerOk<V>(c: Config, s: State<V>) {
    match s.consumer
    case CIdle => true
    case CHead(h) => h == s.head
    case CBoth(h, t, seen) => h == s.head && t == Index(c, seen) && |s.popped| <= seen <= |s.pushed|
    case CRead(h) => h == s.head && |s.popped| < |s.pushed|
    case CPublish(h, v) => h == s.head && |s.popped| < |s.pushed| && v == s.pushed[|s.popped|]
  }

  ghost predicate Inv<V>(c: Config, s: State<V>) {
    Shape(c, s) && Unread(c, s) && ProducerOk(c, s) && ConsumerOk(c, s)
  }

  lemma InitInv<V>(c: Config, s: State<V>)
    requires Init(c, s)
    ensures Inv(c, s)
  {
    QuotientUnique(c.start, c.Modulus(), 0, c.start);
  }

  /** The slot that the producer is about to write holds no unread value, however stale the head that it tested. */
  lemma WriteHitsNoUnread<V>(c: Config, s: State<V>, p: nat)
    requires Inv(c, s) && s.producer.PWrite? && |s.popped| <= p < |s.pushed|
    ensures Slot(c, s.producer.t) != Slot(c, Index(c, p))
  {
    IndexSlot(c, p);
    IndexSlot(c, |s.pushed|);
    ModDistinct(c.start + p, c.start + |s.pushed|, c.Capacity());
  }

  lemma ProducerKeeps<V>(c: Config, s: State<V>, s': State<V>)
    requires Inv(c, s) && ProducerStep(c, s, s')
    ensures Inv(c, s')
  {
    hide WrapSub, WrapInc, Index, Slot;
    IndexSlot(c, |s.pushed|);
    IndexNext(c, |s.pushed|);
    CapacityFits(c);
    if s.producer.PBoth? { IndexDistance(c, s.producer.seen, |s.pushed|); }
    forall p: nat | |s'.popped| <= p < |s'.pushed| ensures SlotOk(c, s', p) {
      if p < |s.pushed| {
        assert SlotOk(c, s, p);
        if s.producer.PWrite? { WriteHitsNoUnread(c, s, p); }
      }
    }
  }

  lemma ConsumerKeeps<V>(c: Config, s: State<V>, s': State<V>)
    requires Inv(c, s) && ConsumerStep(c, s, s')
    ensures Inv(c, s')
  {
    hide WrapSub, WrapInc, Index, Slot;
    IndexNext(c, |s.popped|);
    CapacityFits(c);
    if s.consumer.CBoth? { IndexDistance(c, |s.popped|, s.consumer.seen); }
    if s.consumer.CRead? { assert SlotOk(c, s, |s.popped|); }
    forall p: nat | |s'.popped| <= p < |s'.pushed| ensures SlotOk(c, s', p) { assert SlotOk(c, s, p); }
  }

  // ---- the calls

  /** The arguments of the calls that were answered with true. */
  function Accepted<V>(calls: seq<V>, answers: seq<bool>): seq<V>
    requires |answers| <= |calls|
  {
    if answers == [] then []
    else
      var n := |answers| - 1;
      Accepted(calls, answers[..n]) + if answers[n] then [calls[n]] else []
  }

  /** A call in progress works on its own argument, and the values pushed are those of the accepted calls. */
  ghost predicate CallsOk<V>(s: State<V>) {
    && (if s.producer.PIdle? then |s.calls| == |s.answers|
        else |s.calls| == |s.answers| + 1 && s.producer.value == s.calls[|s.answers|])
    && s.pushed == Accepted(s.calls, s.answers)
  }

  lemma {:induction false} AcceptedPrefix<V>(calls: seq<V>, calls': seq<V>, answers: seq<bool>)
    requires |answers| <= |calls| && calls <= calls'
    ensures Accepted(calls', answers) == Accepted(calls, answers)
    decreases |answers|
  {
    if answers != [] { AcceptedPrefix(calls, calls', answers[..|answers| - 1]); }
  }

  lemma CallsKept<V>(c: Config, s: State<V>, s': State<V>)
    requires CallsOk(s) && Next(c, s, s')
    ensures CallsOk(s')
  {
    hide WrapSub, WrapInc, Slot;
    if ProducerStep(c, s, s') {
      if s.producer.PIdle? { AcceptedPrefix(s.calls, s'.calls, s.answers); }
      if s'.answers != s.answers { assert s'.answers[..|s'.answers| - 1] == s.answers; }
    }
  }

  // ---- the queue that the ring refines

  ghost function Contents<V>(s: State<V>): seq<V>
    requires |s.popped| <= |s.pushed|
  {
    s.pushed[|s.popped|..]
  }

  /** Every step leaves the queue alone, appends the value whose push completes, or removes the front value, which is
      the one the completed pop returns. */
  lemma StepRefines<V>(c: Config, s: State<V>, s': State<V>)
    requires Inv(c, s) && Next(c, s, s')
    ensures Inv(c, s')
    ensures
      || (Contents(s') == Contents(s) && s'.pushed == s.pushed && s'.popped == s.popped)
      || (s.producer.PPublish? && s'.pushed == s.pushed + [s.producer.value]
        && Contents(s') == Contents(s) + [s.producer.value] && |Contents(s)| < c.Capacity())
      || (s.consumer.CPublish? && Contents(s) == [s.consumer.value] + Contents(s')
        && s'.popped == s.popped + [s.consumer.value])
  {
    hide Inv, Index, WrapSub, WrapInc, Slot;
    InvShape(c, s);
    if ProducerStep(c, s, s') { ProducerKeeps(c, s, s'); } else { ConsumerKeeps(c, s, s'); }
  }

  lemma InvShape<V>(c: Config, s: State<V>)
    requires Inv(c, s)
    ensures Shape(c, s) && (s.producer.PPublish? ==> |s.pushed| < |s.popped| + c.Capacity())
    ensures s.consumer.CPublish? ==> |s.popped| < |s.pushed| && s.consumer.value == s.pushed[|s.popped|]
  {
  }

  ghost predicate Run<V>(c: Config, run: seq<State<V>>) {
    |run| > 0 && Init(c, run[0]) && forall i :: 0 <= i < |run| - 1 ==> Next(c, run[i], run[i + 1])
  }

  /** In every run, from any equal starting indices and across any number of wraps: the values pushed are the arguments
      of the calls that returned true, in order; the i-th value popped is the i-th value pushed; and the unsigned
          difference of the indices is the number of unread values, at most the capacity. */
  lemma {:induction false} RingIsFifo<V>(c: Config, run: seq<State<V>>)
    requires Run(c, run)
    ensures var s := run[|run| - 1];
      && Inv(c, s) && |s.answers| <= |s.calls| && s.pushed == Accepted(s.calls, s.answers)
      && |s.popped| <= |s.pushed| && s.popped == s.pushed[..|s.popped|]
      && WrapSub(c, s.tail, s.head) == |s.pushed| - |s.popped| <= c.Capacity()
    ensures CallsOk(run[|run| - 1])
    decreases |run|
  {
    hide CallsOk;
    var n := |run| - 1;
    if n == 0 {
      InitInv(c, run[0]);
      InitCalls(c, run[0]);
    } else {
      assert Run(c, run[..n]);
      RingIsFifo(c, run[..n]);
      StepRefines(c, run[n - 1], run[n]);
      CallsKept(c, run[n - 1], run[n]);
    }
    AcceptedCalls(run[n]);
    CapacityFits(c);
    IndexDistance(c, |run[n].popped|, |run[n].pushed|);
  }

  lemma InitCalls<V>(c: Config, s: State<V>)
    requires Init(c, s)
    ensures CallsOk(s)
  {
  }

  lemma AcceptedCalls<V>(s: State<V>)
    requires CallsOk(s)
    ensures |s.answers| <= |s.calls| && s.pushed == Accepted(s.calls, s.answers)
  {
  }

  // ---- the program around the ring

  /** A producer that calls push with each item until it is accepted, as the stress test does with 0, 1, 2, ... */
  ghost predicate PushesItems<V>(run: seq<State<V>>, items: seq<V>) {
    forall i {:trigger run[i]} :: 0 <= i < |run| - 1 && run[i].producer.PIdle? && !run[i + 1].producer.PIdle? ==>
      |run[i].pushed| < |items| && run[i + 1].calls == run[i].calls + [items[|run[i].pushed|]]
  }

  ghost predicate OnItem<V>(s: State<V>, items: seq<V>) {
    && |s.pushed| <= |items| && s.pushed == items[..|s.pushed|]
    && (!s.producer.PIdle? ==> |s.pushed| < |items| && s.producer.value == items[|s.pushed|])
  }

  lemma ItemStep<V>(c: Config, s: State<V>, s': State<V>, items: seq<V>)
    requires OnItem(s, items) && Next(c, s, s')
    requires s.producer.PIdle? && !s'.producer.PIdle? ==>
      |s.pushed| < |items| && s'.calls == s.calls + [items[|s.pushed|]]
    ensures OnItem(s', items)
  {
    hide WrapSub, WrapInc, Slot;
    if s.producer.PIdle? && !s'.producer.PIdle? { assert s'.calls[|s.calls|] == s'.producer.value; }
  }

  /** The consumer's assertion: the i-th value it gets is the i-th item. */
  lemma ItemsInOrder<V>(c: Config, run: seq<State<V>>, items: seq<V>)
    requires Run(c, run) && PushesItems(run, items)
    ensures var s := run[|run| - 1]; |s.popped| <= |items| && s.popped == items[..|s.popped|]
  {
    ItemsPushed(c, run, items);
    RingIsFifo(c, run);
  }

  lemma {:induction false} ItemsPushed<V>(c: Config, run: seq<State<V>>, items: seq<V>)
    requires Run(c, run) && PushesItems(run, items)
    ensures OnItem(run[|run| - 1], items)
    decreases |run|
  {
    var n := |run| - 1;
    if n > 0 {
      assert Run(c, run[..n]);
      ItemsPushed(c, run[..n], items);
      assert Next(c, run[n - 1], run[n]);
      ItemStep(c, run[n - 1], run[n], items);
    }
  }

  // ---- running alone

  /** From a state with room, push called alone with v completes and appends v. */
  lemma PushAlone<V>(c: Config, s: State<V>, v: V) returns (run: seq<State<V>>)
    requires Inv(c, s) && s.producer.PIdle? && |s.pushed| < |s.popped| + c.Capacity()
    ensures |run| == 6 && run[0] == s && forall i :: 0 <= i < 5 ==> ProducerStep(c, run[i], run[i + 1])
    ensures run[5].producer.PIdle? && run[5].pushed == s.pushed + [v] && run[5].answers == s.answers + [true]
  {
    hide WrapSub, WrapInc, Index, Slot;
    CapacityFits(c);
    IndexSlot(c, |s.pushed|);
    IndexDistance(c, |s.popped|, |s.pushed|);
    var s1 := s.(producer := PTail(v, s.tail), calls := s.calls + [v]);
    var s2 := s1.(producer := PBoth(v, s.tail, s.head, |s.popped|));
    var s3 := s2.(producer := PWrite(v, s.tail));
    var s4 := s3.(data := s.data[Slot(c, s.tail) := v], producer := PPublish(v, s.tail));
    var s5 := s4.(tail := WrapInc(c, s.tail), producer := PIdle, pushed := s.pushed + [v], answers :=
      s.answers + [true]);
    run := [s, s1, s2, s3, s4, s5];
  }

  /** From a state with an unread value, pop called alone completes and returns the oldest one. */
  lemma PopAlone<V>(c: Config, s: State<V>) returns (run: seq<State<V>>)
    requires Inv(c, s) && s.consumer.CIdle? && |s.popped| < |s.pushed|
    ensures |run| == 6 && run[0] == s && forall i :: 0 <= i < 5 ==> ConsumerStep(c, run[i], run[i + 1])
    ensures run[5].consumer.CIdle? && run[5].popped == s.popped + [s.pushed[|s.popped|]]
  {
    hide WrapSub, WrapInc, Index, Slot;
    CapacityFits(c);
    IndexDistance(c, |s.popped|, |s.pushed|);
    assert SlotOk(c, s, |s.popped|);
    var v := s.data[Slot(c, s.head)];
    var s1 := s.(consumer := CHead(s.head));
    var s2 := s1.(consumer := CBoth(s.head, s.tail, |s.pushed|));
    var s3 := s2.(consumer := CRead(s.head));
    var s4 := s3.(consumer := CPublish(s.head, v));
    var s5 := s4.(head := WrapInc(c, s.head), consumer := CIdle, popped := s.popped + [v]);
    run := [s, s1, s2, s3, s4, s5];
  }

  /** A push gives up only if the ring was full when it loaded the head, a pop only if it was empty when it loaded the
      tail. */
  lemma GivesUpOnlyIf<V>(c: Config, s: State<V>, s': State<V>)
    requires Inv(c, s)
    ensures s.producer.PBoth? && ProducerStep(c, s, s') ==>
      (s'.producer.PIdle? <==> |s.pushed| - s.producer.seen == c.Capacity())
    ensures s.consumer.CBoth? && ConsumerStep(c, s, s') ==> (s'.consumer.CIdle? <==> s.consumer.seen == |s.popped|)
  {
    CapacityFits(c);
    if s.producer.PBoth? { IndexDistance(c, s.producer.seen, |s.pushed|); }
    if s.consumer.CBoth? { IndexDistance(c, |s.popped|, s.consumer.seen); }
  }
}
