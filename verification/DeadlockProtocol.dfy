/** The locking protocol over the wait graph, as a step system. The graph is updated in critical sections
    of their own: between the native lock and its recording, and between the native unlock and its
    erasing, other threads run and the graph does not say who holds what. */
module DeadlockProtocol {
  import opened Digraph
  import opened LockGraph

  type Thread = int
  type Mutex = int

  /** Where a thread is: outside the wrapper; request granted and waiting in the native lock; holding the native
      lock but not recorded; having released the native lock but still recorded. */
  datatype Pc = Idle | Waiting(m: Mutex) | Acquired(m: Mutex) | Released(m: Mutex)

  datatype State = State(pc: map<Thread, Pc>, owner: map<Mutex, Thread>, edges: Edges)

  function T(t: Thread): Node { Node(t, NODE_THREAD) }
  function M(m: Mutex): Node { Node(m, NODE_MUTEX) }

  datatype Action = GrantRequest | DenyRequest | NativeLock | RecordHolding | NativeUnlock | EraseHolding

  /** One step of thread t on mutex m. The critical sections do what the contracts of Graph.Request, Graph.Record
      and Graph.Erase say. */
  ghost predicate Next(s: State, a: Action, t: Thread, m: Mutex, s': State) {
    t in s.pc &&
    match a
    case GrantRequest =>
      && s.pc[t] == Idle && !HasCycle(s.edges + {(T(t), M(m))})
      && s' == s.(pc := s.pc[t := Waiting(m)], edges := s.edges + {(T(t), M(m))})
    case DenyRequest =>
      && s.pc[t] == Idle && HasCycle(s.edges + {(T(t), M(m))})
      && s' == s.(edges := s.edges - {(T(t), M(m))})
    case NativeLock =>
      && s.pc[t] == Waiting(m) && m !in s.owner
      && s' == s.(pc := s.pc[t := Acquired(m)], owner := s.owner[m := t])
    case RecordHolding =>
      && s.pc[t] == Acquired(m)
      && s' == s.(pc := s.pc[t := Idle], edges := s.edges - {(T(t), M(m))} + {(M(m), T(t))})
    case NativeUnlock =>
      && s.pc[t] == Idle && m in s.owner && s.owner[m] == t
      && s' == s.(pc := s.pc[t := Released(m)], owner := s.owner - {m})
    case EraseHolding =>
      && s.pc[t] == Released(m)
      && s' == s.(pc := s.pc[t := Idle], edges := s.edges - {(M(m), T(t))})
  }

  ghost predicate Initial(s: State) {
    s.owner == map[] && s.edges == {} && forall t :: t in s.pc ==> s.pc[t] == Idle
  }

  ghost predicate Moves(s: State, s': State) {
    exists a, t, m :: Next(s, a, t, m, s')
  }

  /** A run: any threads, any requests, any interleaving. */
  ghost predicate Run(r: seq<State>) {
    && r != [] && Initial(r[0])
    && forall i :: 0 <= i < |r| - 1 ==> Moves(r[i], r[i + 1])
  }

  // ---- what the graph says at any moment

  ghost predicate RequestEdge(s: State, t: Thread, m: Mutex) {
    t in s.pc && (s.pc[t] == Waiting(m) || s.pc[t] == Acquired(m))
  }

  ghost predicate HoldingEdge(s: State, m: Mutex, t: Thread) {
    t in s.pc && ((m in s.owner && s.owner[m] == t && s.pc[t] != Acquired(m)) || s.pc[t] == Released(m))
  }

  ghost predicate OwnersAgree(s: State) {
    && (forall m :: m in s.owner ==> s.owner[m] in s.pc)
    && (forall t :: t in s.pc && s.pc[t].Acquired? ==> s.pc[t].m in s.owner && s.owner[s.pc[t].m] == t)
    && (forall t :: t in s.pc && s.pc[t].Released? ==> !(s.pc[t].m in s.owner && s.owner[s.pc[t].m] == t))
  }

  ghost predicate EdgesAgree(s: State) {
    RequestsAgree(s) && HoldingsAgree(s) && forall e :: e in s.edges ==> e.0.kind != e.1.kind
  }

  ghost predicate RequestsAgree(s: State) {
    forall t, m :: (T(t), M(m)) in s.edges <==> RequestEdge(s, t, m)
  }

  ghost predicate HoldingsAgree(s: State) {
    forall m, t :: (M(m), T(t)) in s.edges <==> HoldingEdge(s, m, t)
  }

  ghost predicate Inv(s: State) {
    OwnersAgree(s) && EdgesAgree(s) && !HasCycle(s.edges)
  }

  /** The real situation, which no data structure of the program records: a thread in the native lock waits
      for its mutex, and a mutex is held by the thread inside the native lock. */
  ghost predicate RealEdge(s: State, e: (Node, Node)) {
    || (e.0.kind == NODE_THREAD && e.1.kind == NODE_MUTEX && e.0.id in s.pc && s.pc[e.0.id] == Waiting(e.1.id))
    || (e.0.kind == NODE_MUTEX && e.1.kind == NODE_THREAD && e.0.id in s.owner && s.owner[e.0.id] == e.1.id)
  }

  /** A circular wait, possibly completed by a request of t for m. */
  ghost predicate CircularWait(s: State, extra: Edges) {
    exists p :: RealCycle(s, extra, p)
  }

  ghost predicate RealCycle(s: State, extra: Edges, p: seq<Node>) {
    && |p| >= 2 && p[0] == p[|p| - 1]
    && forall i {:trigger RealStep(s, extra, p, i)} :: 0 <= i < |p| - 1 ==> RealStep(s, extra, p, i)
  }

  ghost predicate RealStep(s: State, extra: Edges, p: seq<Node>, i: nat)
    requires i + 1 < |p|
  {
    RealEdge(s, (p[i], p[i + 1])) || (p[i], p[i + 1]) in extra
  }

  // ---- the graph and the real situation have the same cycles through a request

  /** A holding on a cycle is real: its thread waits, so it has not released the mutex. */
  lemma HoldingOnCycleIsReal(s: State, t: Thread, m: Mutex, e: (Node, Node), f: (Node, Node))
    requires Inv(s) && t in s.pc && s.pc[t] == Idle && e.1 == f.0 && e.0.kind == NODE_MUTEX
    requires var g := s.edges + {(T(t), M(m))}; e in g && f in g
    ensures RealEdge(s, e)
  {
    assert e == (M(e.0.id), T(e.1.id));
    assert f == (T(f.0.id), M(f.1.id));
  }

  /** A request on a cycle is real: its mutex is held by a waiting thread, so it has not been acquired. */
  lemma RequestOnCycleIsReal(s: State, t: Thread, m: Mutex, e: (Node, Node), f: (Node, Node))
    requires Inv(s) && e.1 == f.0 && e.0.kind == NODE_THREAD && e != (T(t), M(m))
    requires e in s.edges && f in s.edges && RealEdge(s, f)
    ensures RealEdge(s, e)
  {
    assert e == (T(e.0.id), M(e.1.id));
    assert f == (M(f.0.id), T(f.1.id));
  }

  lemma GraphCycleIsReal(s: State, t: Thread, m: Mutex, p: seq<Node>)
    requires Inv(s) && t in s.pc && s.pc[t] == Idle && Cycle(s.edges + {(T(t), M(m))}, p)
    ensures CircularWait(s, {(T(t), M(m))})
  {
    var x := (T(t), M(m));
    var g := s.edges + {x};
    forall i | 0 <= i < |p| - 1 ensures RealStep(s, {x}, p, i) {
      var j := CycleGoesOn(g, p, i + 1);
      var k := CycleGoesOn(g, p, j + 1);
      assert Step(g, p, i);
      var e, f, h := (p[i], p[i + 1]), (p[j], p[j + 1]), (p[k], p[k + 1]);
      if e.0.kind == NODE_MUTEX {
        HoldingOnCycleIsReal(s, t, m, e, f);
      } else if e != x {
        HoldingOnCycleIsReal(s, t, m, f, h);
        RequestOnCycleIsReal(s, t, m, e, f);
      }
    }
    assert RealCycle(s, {x}, p);
  }

  /** In the real situation too every node of a cycle has an edge of the cycle out of it. */
  lemma RealGoesOn(s: State, extra: Edges, p: seq<Node>, i: nat) returns (j: nat)
    requires RealCycle(s, extra, p) && i < |p|
    ensures j + 1 < |p| && p[j] == p[i] && RealStep(s, extra, p, j)
  {
    j := if i + 1 < |p| then i else 0;
  }

  lemma RealCycleIsInGraph(s: State, extra: Edges, p: seq<Node>)
    requires Inv(s) && RealCycle(s, extra, p)
    requires forall e :: e in extra ==> e.0.kind == NODE_THREAD && e.0.id in s.pc && s.pc[e.0.id] == Idle
    ensures HasCycle(s.edges + extra)
  {
    var g := s.edges + extra;
    forall i | 0 <= i < |p| - 1 ensures Step(g, p, i) {
      assert RealStep(s, extra, p, i);
      var j := RealGoesOn(s, extra, p, i + 1);
      var e, f := (p[i], p[i + 1]), (p[j], p[j + 1]);
      if e.0.kind == NODE_MUTEX {
        assert e == (M(e.0.id), T(e.1.id));
      } else if e !in extra {
        assert e == (T(e.0.id), M(e.1.id));
      }
    }
    assert Cycle(g, p);
  }

  // ---- main results

  /** A request is denied exactly when it would complete a circular wait among the threads really waiting and
      the mutexes really held, whatever unrecorded and unerased holdings the graph shows at that moment. */
  lemma DenialIsExact(s: State, t: Thread, m: Mutex)
    requires Inv(s) && t in s.pc && s.pc[t] == Idle
    ensures HasCycle(s.edges + {(T(t), M(m))}) <==> CircularWait(s, {(T(t), M(m))})
  {
    var x := (T(t), M(m));
    if p :| Cycle(s.edges + {x}, p) { GraphCycleIsReal(s, t, m, p); }
    if p :| RealCycle(s, {x}, p) { RealCycleIsInGraph(s, {x}, p); }
  }

  /** No circular wait among real lock holders. */
  lemma NoCircularWait(s: State)
    requires Inv(s)
    ensures !CircularWait(s, {})
  {
    assert s.edges + {} == s.edges;
    if p :| RealCycle(s, {}, p) {
      RealCycleIsInGraph(s, {}, p);
    }
  }

  // ---- the invariant

  /** Fewer edges, no new cycle. */
  lemma StillAcyclic(g: Edges, h: Edges)
    requires !HasCycle(g) && h <= g
    ensures !HasCycle(h)
  {
    if p :| Cycle(h, p) { CycleIn(h, g, p); }
  }

  /** An edge into a node without edges out of it lies on no cycle. */
  lemma DeadEndAcyclic(g: Edges, h: Edges, x: Node, y: Node)
    requires !HasCycle(g) && h <= g + {(x, y)} && forall e :: e in h ==> e.0 != y
    ensures !HasCycle(h)
  {
    if p :| Cycle(h, p) {
      forall i | 0 <= i < |p| - 1 && Step(h, p, i) ensures (p[i], p[i + 1]) in g {
        var j := CycleGoesOn(h, p, i + 1);
        assert (p[j], p[j + 1]) in h;
      }
      CycleIn(h, g, p);
    }
  }

  lemma InitialInv(s: State)
    requires Initial(s)
    ensures Inv(s)
  {
    forall p ensures !Cycle(s.edges, p) {
      if |p| >= 2 { assert !Step(s.edges, p, 0); }
    }
  }

  lemma RequestsAfter(s: State, a: Action, t: Thread, m: Mutex, s': State)
    requires OwnersAgree(s) && RequestsAgree(s) && Next(s, a, t, m, s')
    ensures RequestsAgree(s')
  {
    hide HoldingEdge;
    forall u, n ensures (T(u), M(n)) in s'.edges <==> RequestEdge(s', u, n) {
      assert (T(u), M(n)) in s.edges <==> RequestEdge(s, u, n);
    }
  }

  lemma HoldingsAfter(s: State, a: Action, t: Thread, m: Mutex, s': State)
    requires OwnersAgree(s) && HoldingsAgree(s) && Next(s, a, t, m, s')
    ensures HoldingsAgree(s')
  {
    hide RequestEdge;
    forall n, u ensures (M(n), T(u)) in s'.edges <==> HoldingEdge(s', n, u) {
      assert (M(n), T(u)) in s.edges <==> HoldingEdge(s, n, u);
    }
  }

  lemma EdgesAfter(s: State, a: Action, t: Thread, m: Mutex, s': State)
    requires OwnersAgree(s) && EdgesAgree(s) && Next(s, a, t, m, s')
    ensures EdgesAgree(s')
  {
    hide RequestsAgree, HoldingsAgree;
    RequestsAfter(s, a, t, m, s');
    HoldingsAfter(s, a, t, m, s');
  }

  lemma OwnersAfter(s: State, a: Action, t: Thread, m: Mutex, s': State)
    requires OwnersAgree(s) && Next(s, a, t, m, s')
    ensures OwnersAgree(s')
  {
  }

  /** Every step of every thread keeps the graph in agreement with where the threads are, and acyclic. */
  lemma NextInv(s: State, a: Action, t: Thread, m: Mutex, s': State)
    requires Inv(s) && Next(s, a, t, m, s')
    ensures Inv(s')
  {
    hide OwnersAgree, EdgesAgree, HasCycle;
    OwnersAfter(s, a, t, m, s');
    EdgesAfter(s, a, t, m, s');
    match a
    case GrantRequest =>
    case DenyRequest => StillAcyclic(s.edges, s'.edges);
    case NativeLock =>
    case RecordHolding => RecordAcyclic(s, t, m, s');
    case NativeUnlock =>
    case EraseHolding => StillAcyclic(s.edges, s'.edges);
  }

  /** Recording a holding closes no cycle: its thread has no request in the graph any more. */
  lemma RecordAcyclic(s: State, t: Thread, m: Mutex, s': State)
    requires Inv(s) && Next(s, RecordHolding, t, m, s')
    ensures !HasCycle(s'.edges)
  {
    forall e | e in s'.edges ensures e.0 != T(t) {
      assert e.0 == T(t) ==> e == (T(t), M(e.1.id));
    }
    DeadEndAcyclic(s.edges, s'.edges, M(m), T(t));
  }

  /** Over every run: the graph never has a cycle and there is never a circular wait among real holders. */
  lemma {:induction false} RunIsSafe(r: seq<State>, i: nat)
    requires Run(r) && i < |r|
    ensures Inv(r[i]) && !CircularWait(r[i], {})
    decreases i
  {
    if i == 0 {
      InitialInv(r[0]);
    } else {
      RunIsSafe(r, i - 1);
      assert Moves(r[i - 1], r[i - 1 + 1]);
      var a, t, m :| Next(r[i - 1], a, t, m, r[i]);
      NextInv(r[i - 1], a, t, m, r[i]);
    }
    NoCircularWait(r[i]);
  }

  // ---- no thread set is stuck, and the system can always move on

  ghost predicate Blocked(s: State, t: Thread) {
    t in s.pc && s.pc[t].Waiting? && s.pc[t].m in s.owner
  }

  /** Whom a blocked thread waits for. */
  ghost function Holder(s: State, t: Thread): Thread {
    if Blocked(s, t) then s.owner[s.pc[t].m] else t
  }

  /** Every thread of D waits for a mutex held by a thread of D. */
  ghost predicate Deadlocked(s: State, d: set<Thread>) {
    (exists t :: t in d) && forall t {:trigger Blocked(s, t)} :: t in d ==> Blocked(s, t) && Holder(s, t) in d
  }

  /** The first n threads met when going from a thread to the holder of what it waits for. */
  lemma {:induction false} HolderChain(s: State, d: set<Thread>, n: nat) returns (ts: seq<Thread>)
    requires Deadlocked(s, d)
    ensures |ts| == n + 1 && forall i :: 0 <= i <= n ==> ts[i] in d
    ensures forall i {:trigger Holder(s, ts[i])} :: 0 <= i < n ==> ts[i + 1] == Holder(s, ts[i])
  {
    if n == 0 {
      var t :| t in d;
      ts := [t];
    } else {
      ts := HolderChain(s, d, n - 1);
      assert Blocked(s, ts[n - 1]);
      ts := ts + [Holder(s, ts[n - 1])];
    }
  }

  /** More positions than values: two positions agree. */
  lemma {:induction false} Pigeonhole(ts: seq<Thread>, d: set<Thread>) returns (i: nat, j: nat)
    requires |ts| > |d| && forall k :: 0 <= k < |ts| ==> ts[k] in d
    ensures i < j < |ts| && ts[i] == ts[j]
    decreases |ts|
  {
    var n := |ts| - 1;
    if k :| 0 <= k < n && ts[k] == ts[n] {
      i, j := k, n;
    } else {
      i, j := Pigeonhole(ts[..n], d - {ts[n]});
    }
  }

  /** Following the holders among blocked threads closes a circular wait. */
  lemma DeadlockIsCircular(s: State, d: set<Thread>)
    requires Deadlocked(s, d)
    ensures CircularWait(s, {})
  {
    var ts := HolderChain(s, d, |d|);
    var i, j := Pigeonhole(ts, d);
    var p := seq(2 * (j - i) + 1, k requires 0 <= k <= 2 * (j - i) =>
      if k % 2 == 0 then T(ts[i + k / 2]) else M(WantedBy(s, ts[i + k / 2])));
    forall k | 0 <= k < |p| - 1 ensures RealStep(s, {}, p, k) {
      var t := ts[i + k / 2];
      assert Blocked(s, t) && ts[i + k / 2 + 1] == Holder(s, t);
    }
    assert RealCycle(s, {}, p);
  }

  /** No set of threads ever waits for itself. */
  lemma NoDeadlockedThreads(s: State, d: set<Thread>)
    requires Inv(s)
    ensures !Deadlocked(s, d)
  {
    NoCircularWait(s);
    if Deadlocked(s, d) { DeadlockIsCircular(s, d); }
  }

  ghost function WantedBy(s: State, t: Thread): Mutex {
    if Blocked(s, t) then s.pc[t].m else 0
  }

  /** While some thread waits, some thread can take a step that is not a new request. */
  lemma SomeoneCanMove(s: State, t: Thread)
    requires Inv(s) && t in s.pc && s.pc[t].Waiting?
    ensures exists a, u, m, s' :: Next(s, a, u, m, s') && !a.GrantRequest? && !a.DenyRequest?
  {
    var d := set u | u in s.pc && s.pc[u].Waiting?;
    NoDeadlockedThreads(s, d);
    assert t in d;
    var u :| u in d && !(Blocked(s, u) && Holder(s, u) in d);
    var m := s.pc[u].m;
    if m !in s.owner {
      assert Next(s, NativeLock, u, m, s.(pc := s.pc[u := Acquired(m)], owner := s.owner[m := u]));
    } else {
      var o := s.owner[m];
      assert Holder(s, u) == o && o !in d;
      match s.pc[o]
      case Idle =>
        assert Next(s, NativeUnlock, o, m, s.(pc := s.pc[o := Released(m)], owner := s.owner - {m}));
      case Acquired(n) =>
        assert Next(s, RecordHolding, o, n,
          s.(pc := s.pc[o := Idle], edges := s.edges - {(T(o), M(n))} + {(M(n), T(o))}));
      case Released(n) =>
        assert Next(s, EraseHolding, o, n, s.(pc := s.pc[o := Idle], edges := s.edges - {(M(n), T(o))}));
    }
  }
}
