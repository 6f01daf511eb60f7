/** The wrapper's critical sections as steps of the locking protocol: a wait graph and, beside it, the protocol's state,
    which every section moves by exactly one step. */
module DeadlockDriver {
  import opened Digraph
  import opened LockGraph
  import opened DeadlockProtocol

  class Locker {
    const graph: Graph
    ghost var state: State

    /** The edges in the matrix are the protocol's, and the protocol's invariant holds. */
    ghost predicate Valid()
      reads this, graph, graph.adj
    {
      graph.Valid() && graph.Edges() == state.edges && Inv(state)
    }

    constructor (ghost initial: State)
      requires Initial(initial)
      ensures Valid() && state == initial && fresh(graph) && fresh(graph.adj)
    {
      graph := new Graph();
      state := initial;
      new;
      InitialInv(initial);
    }

    /** The first critical section of `my_mutex_lock`: a request of an idle thread is granted or denied as the protocol
        says. When the node table is full the program ends. */
    method RequestSection(t: Thread, m: Mutex) returns (r: Outcome)
      requires Valid() && t in state.pc && state.pc[t] == Idle
      modifies this, graph, graph.adj
      ensures Valid()
      ensures match r
        case Granted => Next(old(state), GrantRequest, t, m, state)
        case Denied => Next(old(state), DenyRequest, t, m, state)
        case GraphFull => state == old(state)
    {
      hide HasCycle, Inv;
      r := graph.Request(t, m);
      ghost var s := state;
      if r == Granted {
        state := s.(pc := s.pc[t := Waiting(m)], edges := s.edges + {(T(t), M(m))});
        NextInv(s, GrantRequest, t, m, state);
      } else if r == Denied {
        state := s.(edges := s.edges - {(T(t), M(m))});
        NextInv(s, DenyRequest, t, m, state);
      }
    }

    /** The native lock lets a waiting thread in. */
    method NativeLockStep(t: Thread, m: Mutex)
      requires Valid() && t in state.pc && state.pc[t] == Waiting(m) && m !in state.owner
      modifies this
      ensures Valid() && Next(old(state), NativeLock, t, m, state)
    {
      hide HasCycle, Inv;
      ghost var s := state;
      state := s.(pc := s.pc[t := Acquired(m)], owner := s.owner[m := t]);
      NextInv(s, NativeLock, t, m, state);
    }

    /** The second critical section of `my_mutex_lock`: both nodes are there, and the holding is recorded. */
    method RecordSection(t: Thread, m: Mutex)
      requires Valid() && t in state.pc && state.pc[t] == Acquired(m)
      modifies this, graph, graph.adj
      ensures Valid() && Next(old(state), RecordHolding, t, m, state)
    {
      hide HasCycle, Named;
      ghost var s := state;
      EdgeNodes(graph.nodes, graph.Indices(), T(t), M(m));
      var r := graph.Record(t, m);
      state := s.(pc := s.pc[t := Idle], edges := s.edges - {(T(t), M(m))} + {(M(m), T(t))});
      NextInv(s, RecordHolding, t, m, state);
    }

    /** The native unlock by the holder. */
    method NativeUnlockStep(t: Thread, m: Mutex)
      requires Valid() && t in state.pc && state.pc[t] == Idle && m in state.owner && state.owner[m] == t
      modifies this
      ensures Valid() && Next(old(state), NativeUnlock, t, m, state)
    {
      hide HasCycle, Inv;
      ghost var s := state;
      state := s.(pc := s.pc[t := Released(m)], owner := s.owner - {m});
      NextInv(s, NativeUnlock, t, m, state);
    }

    /** The critical section of `my_mutex_unlock`: both nodes are there, and the holding is erased. */
    method EraseSection(t: Thread, m: Mutex)
      requires Valid() && t in state.pc && state.pc[t] == Released(m)
      modifies this, graph, graph.adj
      ensures Valid() && Next(old(state), EraseHolding, t, m, state)
    {
      hide HasCycle, Named;
      ghost var s := state;
      EdgeNodes(graph.nodes, graph.Indices(), M(m), T(t));
      NothingMissing(graph.nodes, t, m);
      var r := graph.Erase(t, m);
      state := s.(pc := s.pc[t := Idle], edges := s.edges - {(M(m), T(t))});
      NextInv(s, EraseHolding, t, m, state);
    }
  }

  lemma EdgeNodes(nodes: seq<Node>, g: set<(nat, nat)>, a: Node, b: Node)
    ensures (a, b) in Named(nodes, g) ==> a in nodes && b in nodes
  {
  }

  lemma NothingMissing(nodes: seq<Node>, t: Thread, m: Mutex)
    ensures T(t) in nodes && M(m) in nodes ==> Missing(nodes, t, m) == 0
  {
  }
}
