/** Three stages joined by two bounded queues with a mutex and two condition variables each. Locking, the test of the
    waiting loop, falling asleep, the transfer, the signal and unlocking are separate steps; a sleeper may also wake
    up unasked. */
module Pipeline {
  import opened Bits
  import opened Sums

  datatype Frame<T> = Data(data: T) | Last

  /** Where a stage is in `queue_push` or `queue_pop`; `Ready` is outside, or about to lock. */
  datatype Phase = Ready | Checking | Asleep | Signalling | Unlocking

  datatype Owner = Nobody | Pusher | Popper

  /** `puts` and `gets` count the transfers made so far; `taken` is what the last pop copied out. */
  datatype Queue<T> = Queue(buffer: seq<Frame<T>>, head: nat, tail: nat, count: nat, lock: Owner, push: Phase,
      pop: Phase,
                            taken: Frame<T>, puts: nat, gets: nat)

  predicate HoldsLock(p: Phase) { p.Checking? || p.Signalling? || p.Unlocking? }

  function Woken(p: Phase): Phase { if p.Asleep? then Ready else p }

  /** The transfers under the lock. */
  function AfterPut<T>(q: Queue<T>, f: Frame<T>): Queue<T>
    requires q.tail < |q.buffer|
  {
    q.(buffer := q.buffer[q.tail := f], tail := (q.tail + 1) % |q.buffer|, count := q.count + 1,
       push := Signalling, puts := q.puts + 1)
  }

  function AfterGet<T>(q: Queue<T>): Queue<T>
    requires q.head < |q.buffer| && q.count > 0
  {
    q.(taken := q.buffer[q.head], head := (q.head + 1) % |q.buffer|, count := q.count - 1,
       pop := Signalling, gets := q.gets + 1)
  }

  /** A step of the stage that pushes f; `spurious` is a wake-up without a signal. */
  ghost predicate PushMove<T>(q: Queue<T>, f: Frame<T>, q': Queue<T>, spurious: bool) {
    match q.push
    case Ready => !spurious && q.lock.Nobody? && q' == q.(push := Checking, lock := Pusher)
    case Checking => !spurious &&
      if q.count == |q.buffer| then q' == q.(push := Asleep, lock := Nobody)
      else q.tail < |q.buffer| && q' == AfterPut(q, f)
    case Asleep => spurious && q' == q.(push := Ready)
    case Signalling => !spurious && q' == q.(push := Unlocking, pop := Woken(q.pop))
    case Unlocking => !spurious && q' == q.(push := Ready, lock := Nobody)
  }

  /** A step of the stage that pops. */
  ghost predicate PopMove<T>(q: Queue<T>, q': Queue<T>, spurious: bool) {
    match q.pop
    case Ready => !spurious && q.lock.Nobody? && q' == q.(pop := Checking, lock := Popper)
    case Checking => !spurious &&
      if q.count == 0 then q' == q.(pop := Asleep, lock := Nobody)
      else q.head < |q.buffer| && q' == AfterGet(q)
    case Asleep => spurious && q' == q.(pop := Ready)
    case Signalling => !spurious && q' == q.(pop := Unlocking, push := Woken(q.push))
    case Unlocking => !spurious && q' == q.(pop := Ready, lock := Nobody)
  }

  // ---- one queue

  /** Completed calls. */
  function Pushes<T>(q: Queue<T>): int { if q.push.Signalling? || q.push.Unlocking? then q.puts - 1 else q.puts }

  function Pops<T>(q: Queue<T>): int { if q.pop.Signalling? || q.pop.Unlocking? then q.gets - 1 else q.gets }

  /** The p-th frame pushed is in its slot. */
  ghost predicate SlotOk<T>(q: Queue<T>, stream: seq<Frame<T>>, p: nat)
    requires p < |stream|
  {
    |q.buffer| > 0 && q.buffer[p % |q.buffer|] == stream[p]
  }

  /** The ring holds the frames of the stream between `gets` and `puts`. */
  ghost predicate RingOk<T>(q: Queue<T>, stream: seq<Frame<T>>) {
    && |q.buffer| > 0 && q.gets <= q.puts <= |stream| && q.count == q.puts - q.gets <= |q.buffer|
    && q.head == q.gets % |q.buffer| && q.tail == q.puts % |q.buffer|
    && (forall p: nat {:trigger SlotOk(q, stream, p)} :: q.gets <= p < q.puts ==> SlotOk(q, stream, p))
    && (q.pop.Signalling? || q.pop.Unlocking? ==> q.gets > 0 && q.taken == stream[q.gets - 1])
    && (q.push.Signalling? || q.push.Unlocking? ==> q.puts > 0)
  }

  /** The lock has one holder, and a sleeper has not missed its signal: what it waits for has not happened, or the
      other side is about to signal it. */
  ghost predicate LockOk<T>(q: Queue<T>) {
    && (q.lock.Pusher? <==> HoldsLock(q.push)) && (q.lock.Popper? <==> HoldsLock(q.pop))
    && (q.push.Asleep? ==> q.count == |q.buffer| || q.pop.Signalling?)
    && (q.pop.Asleep? ==> q.count == 0 || q.push.Signalling?)
  }

  ghost predicate QueueOk<T>(q: Queue<T>, stream: seq<Frame<T>>) {
    RingOk(q, stream) && LockOk(q)
  }

  lemma PushRing<T>(q: Queue<T>, stream: seq<Frame<T>>, q': Queue<T>, spurious: bool)
    requires QueueOk(q, stream) && q.puts < |stream| && PushMove(q, stream[q.puts], q', spurious)
    requires q.push.Checking? && q.count < |q.buffer|
    ensures RingOk(q', stream)
  {
    var c := |q.buffer|;
    assert q'.tail == q'.puts % c by { ModNext(q.puts, c); }
    forall p: nat | q'.gets <= p < q'.puts ensures SlotOk(q', stream, p) {
      if p < q.puts {
        assert SlotOk(q, stream, p);
        ModDistinct(p, q.puts, c);
      }
    }
  }

  lemma PopRing<T>(q: Queue<T>, stream: seq<Frame<T>>, q': Queue<T>, spurious: bool)
    requires QueueOk(q, stream) && PopMove(q, q', spurious) && q.pop.Checking? && q.count > 0
    ensures RingOk(q', stream)
  {
    assert q'.head == q'.gets % |q.buffer| by { ModNext(q.gets, |q.buffer|); }
    assert SlotOk(q, stream, q.gets);
    forall p: nat | q'.gets <= p < q'.puts ensures SlotOk(q', stream, p) { assert SlotOk(q, stream, p); }
  }

  lemma SameRing<T>(q: Queue<T>, stream: seq<Frame<T>>, q': Queue<T>)
    requires RingOk(q, stream) && q'.buffer == q.buffer && q'.head == q.head && q'.tail == q.tail && q'.count == q.count
    requires q'.puts == q.puts && q'.gets == q.gets && q'.taken == q.taken
    requires q'.pop.Signalling? || q'.pop.Unlocking? ==> q.pop.Signalling? || q.pop.Unlocking?
    requires q'.push.Signalling? || q'.push.Unlocking? ==> q.push.Signalling? || q.push.Unlocking?
    ensures RingOk(q', stream)
  {
    forall p: nat | q'.gets <= p < q'.puts ensures SlotOk(q', stream, p) { assert SlotOk(q, stream, p); }
  }

  /** A push step keeps the queue in order: a completed push is counted, the popper's call stays where it is. */
  lemma PushKeeps<T>(q: Queue<T>, stream: seq<Frame<T>>, f: Frame<T>, q': Queue<T>, spurious: bool)
    requires QueueOk(q, stream) && PushMove(q, f, q', spurious) && 0 <= Pushes(q) < |stream| && f == stream[Pushes(q)]
    ensures QueueOk(q', stream) && Pops(q') == Pops(q) && |q'.buffer| == |q.buffer|
    ensures Pushes(q') == Pushes(q) + if q.push.Unlocking? then 1 else 0
    ensures (q.pop.Ready? ==> q'.pop.Ready?) && (q.push.Unlocking? ==> q'.push.Ready?)
  {
    hide RingOk;
    RingSizes(q, stream);
    if q.push.Checking? && q.count < |q.buffer| { PushRing(q, stream, q', spurious); } else { SameRing(q, stream, q'); }
  }

  lemma PopKeeps<T>(q: Queue<T>, stream: seq<Frame<T>>, q': Queue<T>, spurious: bool)
    requires QueueOk(q, stream) && PopMove(q, q', spurious)
    ensures QueueOk(q', stream) && Pushes(q') == Pushes(q) && |q'.buffer| == |q.buffer|
    ensures Pops(q') == Pops(q) + if q.pop.Unlocking? then 1 else 0
    ensures q.pop.Unlocking? ==> 0 <= Pops(q) < |stream| && q.taken == stream[Pops(q)]
    ensures (q.push.Ready? ==> q'.push.Ready?) && (q.pop.Unlocking? ==> q'.pop.Ready?)
  {
    hide RingOk;
    RingSizes(q, stream);
    if q.pop.Checking? && q.count > 0 { PopRing(q, stream, q', spurious); } else { SameRing(q, stream, q'); }
  }

  lemma RingSizes<T>(q: Queue<T>, stream: seq<Frame<T>>)
    requires RingOk(q, stream)
    ensures q.tail < |q.buffer| && q.head < |q.buffer| && q.gets <= q.puts <= |stream|
      && q.count == q.puts - q.gets <= |q.buffer|
    ensures q.pop.Signalling? || q.pop.Unlocking? ==> q.gets > 0 && q.taken == stream[q.gets - 1]
    ensures q.push.Signalling? || q.push.Unlocking? ==> q.puts > 0
  {
  }

  // ---- the three stages

  datatype Filter<T> = Popping | Pushing(f: Frame<T>) | Finished

  /** `sent` counts the frames stage 1 has pushed, `got` is what stage 3 has counted. */
  datatype System<T> = System(q1: Queue<T>, q2: Queue<T>, sent: nat, filter: Filter<T>, got: seq<T>, ended: bool)

  function Gain<T>(gain: T -> T, f: Frame<T>): Frame<T> { if f.Last? then Last else Data(gain(f.data)) }

  function Stream<T>(frames: seq<T>): seq<Frame<T>> { seq(|frames| + 1,
      i requires 0 <= i <= |frames| => if i < |frames| then Data(frames[i]) else Last) }

  function Filtered<T>(gain: T -> T,
      frames: seq<T>): seq<T> { seq(|frames|, i requires 0 <= i < |frames| => gain(frames[i])) }

  ghost predicate Stage1<T>(frames: seq<T>, s: System<T>, s': System<T>, spurious: bool) {
    && s.sent <= |frames| && PushMove(s.q1, if s.sent < |frames| then Data(frames[s.sent]) else Last, s'.q1, spurious)
    && s' == s.(q1 := s'.q1, sent := if s.q1.push.Unlocking? then s.sent + 1 else s.sent)
  }

  ghost predicate Stage2Pop<T>(gain: T -> T, s: System<T>, s': System<T>, spurious: bool) {
    && s.filter.Popping? && PopMove(s.q1, s'.q1, spurious)
    && s' == s.(q1 := s'.q1, filter := if s.q1.pop.Unlocking? then Pushing(Gain(gain, s.q1.taken)) else Popping)
  }

  ghost predicate Stage2Push<T>(s: System<T>, s': System<T>, spurious: bool) {
    && s.filter.Pushing? && PushMove(s.q2, s.filter.f, s'.q2, spurious)
    && s' == s.(q2 := s'.q2, filter := if !s.q2.push.Unlocking? then s.filter else if s.filter.f.Last? then Finished
      else Popping)
  }

  ghost predicate Stage3<T>(s: System<T>, s': System<T>, spurious: bool) {
    && !s.ended && PopMove(s.q2, s'.q2, spurious)
    && s' == if !s.q2.pop.Unlocking? then s.(q2 := s'.q2) else if s.q2.taken.Last? then
      s.(q2 := s'.q2, ended := true) else s.(q2 := s'.q2, got := s.got + [s.q2.taken.data])
  }

  ghost predicate Next<T>(frames: seq<T>, gain: T -> T, s: System<T>, s': System<T>, spurious: bool) {
    Stage1(frames, s, s', spurious) || Stage2Pop(gain, s, s', spurious) || Stage2Push(s, s', spurious)
      || Stage3(s, s', spurious)
  }

  ghost predicate EmptyQueue<T>(q: Queue<T>) {
    && |q.buffer| > 0 && q.head == q.tail == q.count == q.puts == q.gets == 0
    && q.lock.Nobody? && q.push.Ready? && q.pop.Ready?
  }

  ghost predicate Init<T>(s: System<T>) {
    EmptyQueue(s.q1) && EmptyQueue(s.q2) && s.sent == 0 && s.filter.Popping? && s.got == [] && !s.ended
  }

  // ---- the invariant

  ghost predicate FilterOk<T>(frames: seq<T>, gain: T -> T, s: System<T>) {
    var n := |frames| + 1;
    match s.filter
    case Popping => Pops(s.q1) == Pushes(s.q2) < n && s.q2.push.Ready?
    case Pushing(f) => 0 <= Pushes(s.q2) && Pops(s.q1) == Pushes(s.q2) + 1 <= n && s.q1.pop.Ready?
      && f == Gain(gain, Stream(frames)[Pushes(s.q2)])
    case Finished => Pops(s.q1) == Pushes(s.q2) == n && s.q1.pop.Ready? && s.q2.push.Ready?
  }

  ghost predicate GotOk<T>(frames: seq<T>, gain: T -> T, s: System<T>) {
    if s.ended then Pops(s.q2) == |frames| + 1 && s.q2.pop.Ready? && s.got == Filtered(gain, frames)
    else 0 <= Pops(s.q2) <= |frames| && s.got == Filtered(gain, frames)[..Pops(s.q2)]
  }

  ghost predicate Inv<T>(frames: seq<T>, gain: T -> T, s: System<T>) {
    && QueueOk(s.q1, Stream(frames)) && QueueOk(s.q2, Stream(Filtered(gain, frames)))
    && s.sent == Pushes(s.q1) <= |frames| + 1 && (s.sent == |frames| + 1 ==> s.q1.push.Ready?)
    && FilterOk(frames, gain, s) && GotOk(frames, gain, s)
  }

  lemma InitInv<T>(frames: seq<T>, gain: T -> T, s: System<T>)
    requires Init(s)
    ensures Inv(frames, gain, s)
  {
  }

  lemma GainOfStream<T>(frames: seq<T>, gain: T -> T, p: nat)
    requires p <= |frames|
    ensures Stream(Filtered(gain, frames))[p] == Gain(gain, Stream(frames)[p])
      && (Gain(gain, Stream(frames)[p]).Last? <==> p == |frames|)
  {
  }

  lemma NextInv<T>(frames: seq<T>, gain: T -> T, s: System<T>, s': System<T>, spurious: bool)
    requires Inv(frames, gain, s) && Next(frames, gain, s, s', spurious)
    ensures Inv(frames, gain, s') && |s'.q1.buffer| == |s.q1.buffer| && |s'.q2.buffer| == |s.q2.buffer|
  {
    hide QueueOk, PushMove, PopMove, Gain, Stream;
    StreamLength(frames);
    StreamLength(Filtered(gain, frames));
    var in1, in2 := Stream(frames), Stream(Filtered(gain, frames));
    Counted(s.q1, in1);
    Counted(s.q2, in2);
    if Stage1(frames, s, s', spurious) {
      StreamAt(frames, s.sent);
      PushKeeps(s.q1, in1, in1[s.sent], s'.q1, spurious);
    } else if Stage2Pop(gain, s, s', spurious) {
      PopKeeps(s.q1, in1, s'.q1, spurious);
    } else if Stage2Push(s, s', spurious) {
      GainOfStream(frames, gain, Pushes(s.q2));
      PushKeeps(s.q2, in2, in2[Pushes(s.q2)], s'.q2, spurious);
    } else {
      PopKeeps(s.q2, in2, s'.q2, spurious);
      if s.q2.pop.Unlocking? { StreamAt(Filtered(gain, frames), Pops(s.q2)); }
    }
  }

  lemma StreamAt<T>(frames: seq<T>, p: nat)
    requires p <= |frames|
    ensures Stream(frames)[p] == if p < |frames| then Data(frames[p]) else Last
  {
  }

  lemma Counted<T>(q: Queue<T>, stream: seq<Frame<T>>)
    requires QueueOk(q, stream)
    ensures 0 <= Pops(q) <= q.gets <= q.puts <= |stream| && 0 <= Pushes(q) <= q.puts
  {
  }

  // ---- no deadlock

  ghost predicate Done<T>(frames: seq<T>, s: System<T>) {
    s.sent == |frames| + 1 && s.filter.Finished? && s.ended
  }

  /** The push side can take a step unless it sleeps on a full queue or the other side holds the lock. */
  lemma CanPush<T>(q: Queue<T>, stream: seq<Frame<T>>, f: Frame<T>) returns (q': Queue<T>)
    requires QueueOk(q, stream) && !q.push.Asleep? && !q.lock.Popper?
    ensures PushMove(q, f, q', false)
  {
    match q.push
    case Ready => q' := q.(push := Checking, lock := Pusher);
    case Checking =>
      if q.count == |q.buffer| { q' := q.(push := Asleep, lock := Nobody); }
      else {
        q' := AfterPut(q, f);
      }
    case Asleep => assert false;
    case Signalling => q' := q.(push := Unlocking, pop := Woken(q.pop));
    case Unlocking => q' := q.(push := Ready, lock := Nobody);
  }

  lemma CanPop<T>(q: Queue<T>, stream: seq<Frame<T>>) returns (q': Queue<T>)
    requires QueueOk(q, stream) && !q.pop.Asleep? && !q.lock.Pusher?
    ensures PopMove(q, q', false)
  {
    match q.pop
    case Ready => q' := q.(pop := Checking, lock := Popper);
    case Checking =>
      if q.count == 0 { q' := q.(pop := Asleep, lock := Nobody); }
      else {
        q' := AfterGet(q);
      }
    case Asleep => assert false;
    case Signalling => q' := q.(pop := Unlocking, push := Woken(q.push));
    case Unlocking => q' := q.(pop := Ready, lock := Nobody);
  }

  lemma QueueFacts<T>(q: Queue<T>, stream: seq<Frame<T>>)
    requires QueueOk(q, stream)
    ensures LockOk(q) && |q.buffer| > 0 && q.count == q.puts - q.gets && q.gets <= q.puts <= |stream|
  {
  }

  /** When the first two stages cannot move, it is not because everybody waits: the third one can. */
  lemma LastStageMoves<T>(frames: seq<T>, gain: T -> T, s: System<T>)
    requires Inv(frames, gain, s) && !Done(frames, s)
    requires s.sent <= |frames| ==> s.q1.push.Asleep? || s.q1.lock.Popper?
    requires s.filter.Popping? ==> s.q1.pop.Asleep? || s.q1.lock.Pusher?
    requires s.filter.Pushing? ==> s.q2.push.Asleep? || s.q2.lock.Popper?
    ensures !s.ended && !s.q2.pop.Asleep? && !s.q2.lock.Pusher?
  {
    hide QueueOk, Stream, Filtered, Gain;
    QueueFacts(s.q1, Stream(frames));
    QueueFacts(s.q2, Stream(Filtered(gain, frames)));
    StreamLength(frames);
    StreamLength(Filtered(gain, frames));
    FilteredLength(gain, frames);
  }

  lemma StreamLength<T>(frames: seq<T>)
    ensures |Stream(frames)| == |frames| + 1
  {
  }

  lemma FilteredLength<T>(gain: T -> T, frames: seq<T>)
    ensures |Filtered(gain, frames)| == |frames|
  {
  }

  /** Unless every stage has returned, some stage can take a step that needs no spurious wake-up. */
  lemma NoDeadlock<T>(frames: seq<T>, gain: T -> T, s: System<T>) returns (s': System<T>)
    requires Inv(frames, gain, s) && !Done(frames, s)
    ensures Next(frames, gain, s, s', false)
  {
    hide QueueOk, PushMove, PopMove, GotOk, FilterOk;
    var in1, in2 := Stream(frames), Stream(Filtered(gain, frames));
    if s.sent <= |frames| && !s.q1.push.Asleep? && !s.q1.lock.Popper? {
      var q := CanPush(s.q1, in1, in1[s.sent]);
      s' := s.(q1 := q, sent := if s.q1.push.Unlocking? then s.sent + 1 else s.sent);
    } else if s.filter.Popping? && !s.q1.pop.Asleep? && !s.q1.lock.Pusher? {
      var q := CanPop(s.q1, in1);
      s' := s.(q1 := q, filter := if s.q1.pop.Unlocking? then Pushing(Gain(gain, s.q1.taken)) else Popping);
    } else if s.filter.Pushing? && !s.q2.push.Asleep? && !s.q2.lock.Popper? {
      var q := CanPush(s.q2, in2, s.filter.f);
      s' := s.(q2 := q, filter := if !s.q2.push.Unlocking? then s.filter else if s.filter.f.Last? then Finished
        else Popping);
    } else {
      LastStageMoves(frames, gain, s);
      var q := CanPop(s.q2, in2);
      s' := if !s.q2.pop.Unlocking? then s.(q2 := q) else if s.q2.taken.Last? then s.(q2 := q, ended := true)
        else s.(q2 := q, got := s.got + [s.q2.taken.data]);
    }
  }

  // ---- termination

  function Rank(p: Phase): nat {
    match p case Ready => 7 case Checking => 6 case Asleep => 5 case Signalling => 4 case Unlocking => 1
  }

  function Work<T>(n: nat, q: Queue<T>): int {
    8 * (n - Pushes(q)) + Rank(q.push) + 8 * (n - Pops(q)) + Rank(q.pop)
  }

  /** What is left to do. */
  function Measure<T>(frames: seq<T>, s: System<T>): int { Work(|frames| + 1, s.q1) + Work(|frames| + 1, s.q2) }

  lemma PushWork<T>(n: nat, q: Queue<T>, stream: seq<Frame<T>>, f: Frame<T>, q': Queue<T>, spurious: bool)
    requires QueueOk(q, stream) && PushMove(q, f, q', spurious) && 0 <= Pushes(q) < |stream| && f == stream[Pushes(q)]
    ensures if spurious then Work(n, q') == Work(n, q) + 2 else Work(n, q') < Work(n, q)
  {
    PushKeeps(q, stream, f, q', spurious);
  }

  lemma PopWork<T>(n: nat, q: Queue<T>, stream: seq<Frame<T>>, q': Queue<T>, spurious: bool)
    requires QueueOk(q, stream) && PopMove(q, q', spurious)
    ensures if spurious then Work(n, q') == Work(n, q) + 2 else Work(n, q') < Work(n, q)
  {
    PopKeeps(q, stream, q', spurious);
  }

  /** Every step but a spurious wake-up brings the end closer; a spurious wake-up costs two steps. */
  lemma StepsCount<T>(frames: seq<T>, gain: T -> T, s: System<T>, s': System<T>, spurious: bool)
    requires Inv(frames, gain, s) && Next(frames, gain, s, s', spurious)
    ensures if spurious then Measure(frames, s') == Measure(frames, s) + 2 else Measure(frames, s') < Measure(frames, s)
  {
    hide QueueOk, PushMove, PopMove, Work, GotOk;
    var n := |frames| + 1;
    var in1, in2 := Stream(frames), Stream(Filtered(gain, frames));
    Counted(s.q1, in1);
    Counted(s.q2, in2);
    if Stage1(frames, s, s', spurious) {
      PushWork(n, s.q1, in1, in1[s.sent], s'.q1, spurious);
    } else if Stage2Pop(gain, s, s', spurious) {
      PopWork(n, s.q1, in1, s'.q1, spurious);
    } else if Stage2Push(s, s', spurious) {
      GainOfStream(frames, gain, Pushes(s.q2));
      PushWork(n, s.q2, in2, in2[Pushes(s.q2)], s'.q2, spurious);
    } else {
      PopWork(n, s.q2, in2, s'.q2, spurious);
    }
  }

  /** A run: a sequence of states, each step marked spurious or not. */
  ghost predicate Run<T>(frames: seq<T>, gain: T -> T, run: seq<System<T>>, spurious: seq<bool>) {
    && |run| == |spurious| + 1 && Init(run[0])
    && forall i :: 0 <= i < |spurious| ==> Next(frames, gain, run[i], run[i + 1], spurious[i])
  }

  function Spurious(b: bool): nat { if b then 1 else 0 }

  /** For any number of frames and any capacities: in every run stage 3 has counted a prefix of the produced frames,
      in order and each filtered once; a stage can always move until all have returned; then all frames were counted;
      and a run has at most a fixed number of steps, plus three for each spurious wake-up. */
  lemma {:induction false} PipelineIsSafe<T>(frames: seq<T>, gain: T -> T, run: seq<System<T>>, spurious: seq<bool>)
    requires Run(frames, gain, run, spurious)
    ensures var s := run[|run| - 1];
      && Inv(frames, gain, s)
      && |s.got| <= |frames| && (forall k :: 0 <= k < |s.got| ==> s.got[k] == gain(frames[k]))
      && (if Done(frames, s) then |s.got| == |frames| else exists s' :: Next(frames, gain, s, s', false))
      && 0 <= Measure(frames, s)
        && |spurious| + Measure(frames, s) <= 32 * (|frames| + 1) + 28 + 3 * Sum(spurious, Spurious)
    decreases |spurious|
  {
    hide Inv, Next, Init, Measure, Filtered, Done;
    var n := |spurious|;
    var s := run[n];
    if n == 0 {
      InitInv(frames, gain, s);
      InitMeasure(frames, s);
    } else {
      assert Run(frames, gain, run[..n], spurious[..n - 1]);
      PipelineIsSafe(frames, gain, run[..n], spurious[..n - 1]);
      NextInv(frames, gain, run[n - 1], s, spurious[n - 1]);
      StepsCount(frames, gain, run[n - 1], s, spurious[n - 1]);
    }
    GotIsPrefix(frames, gain, s);
    if !Done(frames, s) { var s' := NoDeadlock(frames, gain, s); }
  }

  lemma InitMeasure<T>(frames: seq<T>, s: System<T>)
    requires Init(s)
    ensures Measure(frames, s) == 32 * (|frames| + 1) + 28
  {
  }

  lemma GotIsPrefix<T>(frames: seq<T>, gain: T -> T, s: System<T>)
    requires Inv(frames, gain, s)
    ensures |s.got| <= |frames| && forall k :: 0 <= k < |s.got| ==> s.got[k] == gain(frames[k])
    ensures Done(frames, s) ==> |s.got| == |frames|
    ensures Measure(frames, s) >= 0
  {
    Counted(s.q1, Stream(frames));
    Counted(s.q2, Stream(Filtered(gain, frames)));
  }
}
