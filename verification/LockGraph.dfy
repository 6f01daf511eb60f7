/** The wait graph of the deadlock-avoiding mutex: a node table, an adjacency matrix and the recursive
    cycle detector. */
module LockGraph {
  import opened Digraph

  const MAX_NODES: nat := 64

  datatype NodeType = NODE_THREAD | NODE_MUTEX
  datatype Node = Node(id: int, kind: NodeType)

  type Edges = set<(Node, Node)>

  /** What is known while the detector is inside `dfs`: `path` is the walk of the open calls, `fin` the finished
      nodes in the order they finished; the two arrays of the source record exactly these. */
  ghost predicate Marks(n: nat, g: set<(nat, nat)>, visited: seq<bool>, stack: seq<bool>, path: seq<nat>,
      fin: seq<nat>) {
    && n <= |visited| == |stack|
    && Walk(g, path) && Backward(g, fin)
    && (forall v :: 0 <= v < n ==> (stack[v] <==> v in path))
    && (forall v :: 0 <= v < n ==> (visited[v] <==> v in path || v in fin))
  }

  /** Reaching a node of the open walk again closes a cycle. */
  lemma ClosesCycle(g: set<(nat, nat)>, path: seq<nat>, next: nat)
    requires path != [] && Walk(g, path) && (path[|path| - 1], next) in g && next in path
    ensures HasCycle(g)
  {
    var k := FirstAt(path, next);
    var p := path[k..] + [next];
    forall i | 0 <= i < |p| - 1 ensures Step(g, p, i) {
      if i + 1 < |p| - 1 { assert Step(g, path, k + i); }
    }
    assert Cycle(g, p);
  }

  lemma WalkExtended(g: set<(nat, nat)>, path: seq<nat>, next: nat)
    requires Walk(g, path) && (path != [] ==> (path[|path| - 1], next) in g)
    ensures Walk(g, path + [next])
  {
    var p := path + [next];
    forall i | 0 <= i < |p| - 1 ensures Step(g, p, i) {
      if i + 1 < |path| { assert Step(g, path, i); }
    }
  }

  lemma FinishedExtended(g: set<(nat, nat)>, fin: seq<nat>, u: nat)
    requires Backward(g, fin) && forall v :: (u, v) in g ==> v in fin
    ensures Backward(g, fin + [u])
  {
    var f := fin + [u];
    forall i, v | 0 <= i < |f| && (f[i], v) in g ensures v in f[..i] {
      assert f[..i] == fin[..i];
    }
  }

  ghost function Unvisited(n: nat, visited: seq<bool>): set<nat>
    requires n <= |visited|
  {
    set v: nat | v < n && !visited[v]
  }

  lemma NothingMarked(n: nat, g: set<(nat, nat)>, visited: seq<bool>, stack: seq<bool>)
    requires n <= |visited| == |stack| && forall v :: 0 <= v < n ==> !visited[v] && !stack[v]
    ensures Marks(n, g, visited, stack, [], [])
  {
  }

  // ---- from indices to named nodes

  ghost function Named(nodes: seq<Node>, g: set<(nat, nat)>): Edges {
    set e | e in g && e.0 < |nodes| && e.1 < |nodes| :: (nodes[e.0], nodes[e.1])
  }

  lemma NamedGrows(nodes: seq<Node>, nodes': seq<Node>, g: set<(nat, nat)>)
    requires nodes <= nodes' && forall e :: e in g ==> e.0 < |nodes| && e.1 < |nodes|
    ensures Named(nodes', g) == Named(nodes, g)
  {
  }

  lemma NamedChanges(nodes: seq<Node>, g: set<(nat, nat)>, i: nat, j: nat)
    requires i < |nodes| && j < |nodes| && forall k, l :: 0 <= k < l < |nodes| ==> nodes[k] != nodes[l]
    ensures Named(nodes, g + {(i, j)}) == Named(nodes, g) + {(nodes[i], nodes[j])}
    ensures Named(nodes, g - {(i, j)}) == Named(nodes, g) - {(nodes[i], nodes[j])}
  {
  }

  lemma CycleNamed(nodes: seq<Node>, g: set<(nat, nat)>, p: seq<nat>)
    requires Cycle(g, p) && forall e :: e in g ==> e.0 < |nodes| && e.1 < |nodes|
    ensures HasCycle(Named(nodes, g))
  {
    forall i | 0 <= i < |p| ensures p[i] < |nodes| {
      assert if i + 1 < |p| then Step(g, p, i) else Step(g, p, i - 1);
    }
    var q := seq(|p|, i requires 0 <= i < |p| => nodes[p[i]]);
    forall i | 0 <= i < |q| - 1 ensures Step(Named(nodes, g), q, i) { assert Step(g, p, i); }
    assert Cycle(Named(nodes, g), q);
  }

  lemma CycleIndexed(nodes: seq<Node>, g: set<(nat, nat)>, q: seq<Node>)
    requires forall k, l :: 0 <= k < l < |nodes| ==> nodes[k] != nodes[l]
    requires Cycle(Named(nodes, g), q)
    ensures HasCycle(g)
  {
    var h := Named(nodes, g);
    forall i | 0 <= i < |q| ensures q[i] in nodes {
      assert if i + 1 < |q| then Step(h, q, i) else Step(h, q, i - 1);
    }
    var p: seq<nat> := seq(|q|, i requires 0 <= i < |q| => IndexOf(nodes, q[i]));
    forall i | 0 <= i < |p| - 1 ensures Step(g, p, i) {
      assert Step(h, q, i);
      var e :| e in g && e.0 < |nodes| && e.1 < |nodes| && (nodes[e.0], nodes[e.1]) == (q[i], q[i + 1]);
      assert e == (p[i], p[i + 1]);
    }
    assert Cycle(g, p);
  }

  /** Naming the nodes neither makes nor breaks cycles. */
  lemma SameCycles(nodes: seq<Node>, g: set<(nat, nat)>)
    requires forall k, l :: 0 <= k < l < |nodes| ==> nodes[k] != nodes[l]
    requires forall e :: e in g ==> e.0 < |nodes| && e.1 < |nodes|
    ensures HasCycle(g) <==> HasCycle(Named(nodes, g))
  {
    if p :| Cycle(g, p) { CycleNamed(nodes, g, p); }
    if q :| Cycle(Named(nodes, g), q) { CycleIndexed(nodes, g, q); }
  }

  ghost function IndexOf(nodes: seq<Node>, x: Node): (i: nat)
    requires x in nodes
    ensures i < |nodes| && nodes[i] == x
  {
    var i: nat :| i < |nodes| && nodes[i] == x;
    i
  }

  /** What a critical section reports: 0, -1, or the program's exit on a full node table. */
  datatype Outcome = Granted | Denied | GraphFull

  function Missing(nodes: seq<Node>, t: int, m: int): nat {
    (if Node(t, NODE_THREAD) in nodes then 0 else 1) + (if Node(m, NODE_MUTEX) in nodes then 0 else 1)
  }

  class Graph {
    var nodes: seq<Node>
    const adj: array2<int>

    ghost predicate Valid()
      reads this, adj
    {
      && |nodes| <= MAX_NODES == adj.Length0 == adj.Length1
      && (forall i, j :: 0 <= i < j < |nodes| ==> nodes[i] != nodes[j])
      && (forall i, j :: 0 <= i < MAX_NODES && 0 <= j < MAX_NODES && adj[i, j] != 0 ==> i < |nodes| && j < |nodes|)
    }

    /** The nonzero entries of the matrix among the first `node_count` rows and columns. */
    ghost function Indices(): (g: set<(nat, nat)>)
      requires Valid()
      reads this, adj
    {
      set i: nat, j: nat | i < |nodes| && j < |nodes| && adj[i, j] != 0 :: (i, j)
    }

    method Dfs(curr: nat, visited: array<bool>, stack: array<bool>, ghost path: seq<nat>, ghost fin: seq<nat>)
      returns (found: bool, ghost fin': seq<nat>)
      requires Valid() && curr < |nodes| && visited != stack && visited.Length == stack.Length == MAX_NODES
      requires Marks(|nodes|, Indices(), visited[..], stack[..], path, fin) && !visited[curr]
      requires path != [] ==> (path[|path| - 1], curr) in Indices()
      modifies visited, stack
      ensures found ==> HasCycle(Indices())
      ensures !found ==> Marks(|nodes|, Indices(), visited[..], stack[..], path, fin') && fin <= fin' && curr in fin'
      ensures forall v :: 0 <= v < MAX_NODES && old(visited[v]) ==> visited[v]
      decreases Unvisited(|nodes|, visited[..])
    {
      hide Walk, Backward, HasCycle;
      ghost var g, n := Indices(), |nodes|;
      ghost var unvisited := Unvisited(n, visited[..]);
      assert curr in unvisited;
      visited[curr] := true;
      stack[curr] := true;
      ghost var open := path + [curr];
      WalkExtended(g, path, curr);
      fin' := fin;

      var next := 0;
      while next < |nodes|
        invariant 0 <= next <= |nodes|
        invariant Marks(n, g, visited[..], stack[..], open, fin') && fin <= fin'
        invariant forall v :: 0 <= v < next && (curr, v) in g ==> v in fin'
        invariant forall v :: 0 <= v < MAX_NODES && old(visited[v]) ==> visited[v]
        invariant visited[curr]
      {
        if adj[curr, next] != 0 {
          if !visited[next] {
            assert Unvisited(n, visited[..]) <= unvisited - {curr};
            found, fin' := Dfs(next, visited, stack, open, fin');
            if found { return; }
          } else if stack[next] {
            ClosesCycle(g, open, next);
            found := true;
            return;
          }
        }
        next := next + 1;
      }

      stack[curr] := false;
      FinishedExtended(g, fin', curr);
      fin' := fin' + [curr];
      found := false;
    }

    /** `detect_cycle` */
    method DetectCycle() returns (found: bool)
      requires Valid()
      ensures found <==> HasCycle(Indices())
    {
      hide Walk, Backward, HasCycle;
      var visited, stack := new bool[MAX_NODES](_ => false), new bool[MAX_NODES](_ => false);
      ghost var fin: seq<nat> := [];
      ghost var g, n := Indices(), |nodes|;
      NothingMarked(n, g, visited[..], stack[..]);
      var i := 0;
      while i < |nodes|
        invariant 0 <= i <= |nodes|
        invariant Marks(n, g, visited[..], stack[..], [], fin)
        invariant forall v :: 0 <= v < i ==> v in fin
      {
        if !visited[i] {
          found, fin := Dfs(i, visited, stack, [], fin);
          if found { return; }
        }
        i := i + 1;
      }
      BackwardHasNoCycle(g, fin);
      found := false;
    }

    /** The edges between the named nodes. */
    ghost function Edges(): Edges
      requires Valid()
      reads this, adj
    {
      Named(nodes, Indices())
    }

    /** `graph_init` */
    constructor ()
      ensures Valid() && nodes == [] && Edges() == {} && fresh(adj)
    {
      nodes := [];
      adj := new int[MAX_NODES, MAX_NODES]((i, j) => 0);
    }

    /** `get_or_create_node`: -1 stands for leaving the program because the table is full. */
    method GetOrCreateNode(id: int, kind: NodeType) returns (idx: int)
      requires Valid()
      modifies `nodes
      ensures Valid() && old(nodes) <= nodes && Edges() == old(Edges())
      ensures idx == -1 <==> old(Node(id, kind) !in nodes && |nodes| == MAX_NODES)
      ensures idx != -1 ==> 0 <= idx < |nodes| && nodes[idx] == Node(id, kind)
      ensures nodes == if idx != -1 && Node(id, kind) !in old(nodes) then old(nodes) + [Node(id, kind)] else old(nodes)
    {
      for i := 0 to |nodes|
        invariant Node(id, kind) !in nodes[..i]
      {
        if nodes[i].id == id && nodes[i].kind == kind { return i; }
      }
      if |nodes| >= MAX_NODES { return -1; }
      idx := |nodes|;
      ghost var old_nodes, g := nodes, Indices();
      nodes := nodes + [Node(id, kind)];
      assert Indices() == g;
      NamedGrows(old_nodes, nodes, g);
    }

    method SetEdge(i: nat, j: nat, on: bool)
      requires Valid() && i < |nodes| && j < |nodes|
      modifies adj
      ensures Valid() && Edges() == if on then old(Edges()) + {(nodes[i], nodes[j])}
        else old(Edges()) - {(nodes[i], nodes[j])}
    {
      ghost var g := Indices();
      adj[i, j] := if on then 1 else 0;
      assert Indices() == if on then g + {(i, j)} else g - {(i, j)};
      NamedChanges(nodes, g, i, j);
    }

    /** The first critical section of `my_mutex_lock`: enter the request, and withdraw it if it closes a cycle. */
    method Request(t: int, m: int) returns (r: Outcome)
      requires Valid()
      modifies this, adj
      ensures Valid()
      ensures var e := (Node(t, NODE_THREAD), Node(m, NODE_MUTEX));
        && (r == GraphFull <==> |old(nodes)| + Missing(old(nodes), t, m) > MAX_NODES)
        && (r == GraphFull ==> Edges() == old(Edges()))
        && (r == Denied ==> HasCycle(old(Edges()) + {e}) && Edges() == old(Edges()) - {e})
        && (r == Granted ==> !HasCycle(old(Edges()) + {e}) && Edges() == old(Edges()) + {e})
    {
      hide HasCycle, Named;
      var i := GetOrCreateNode(t, NODE_THREAD);
      if i == -1 { return GraphFull; }
      var j := GetOrCreateNode(m, NODE_MUTEX);
      if j == -1 { return GraphFull; }
      SetEdge(i, j, true);
      var found := DetectCycle();
      SameCycles(nodes, Indices());
      if found {
        SetEdge(i, j, false);
        return Denied;
      }
      return Granted;
    }

    /** The second critical section of `my_mutex_lock`: the request becomes a holding. */
    method Record(t: int, m: int) returns (r: Outcome)
      requires Valid() && Node(t, NODE_THREAD) in nodes && Node(m, NODE_MUTEX) in nodes
      modifies this, adj
      ensures Valid() && r == Granted && nodes == old(nodes)
      ensures var a, b := Node(t, NODE_THREAD), Node(m, NODE_MUTEX);
        Edges() == old(Edges()) - {(a, b)} + {(b, a)}
    {
      hide Named;
      var i := GetOrCreateNode(t, NODE_THREAD);
      var j := GetOrCreateNode(m, NODE_MUTEX);
      SetEdge(i, j, false);
      SetEdge(j, i, true);
      r := Granted;
    }

    /** The critical section of `my_mutex_unlock`: the holding is erased. */
    method Erase(t: int, m: int) returns (r: Outcome)
      requires Valid()
      modifies this, adj
      ensures Valid()
      ensures r == GraphFull <==> |old(nodes)| + Missing(old(nodes), t, m) > MAX_NODES
      ensures r == GraphFull ==> Edges() == old(Edges())
      ensures r != GraphFull ==> r == Granted && Edges() == old(Edges()) - {(Node(m, NODE_MUTEX), Node(t, NODE_THREAD))}
    {
      hide Named;
      var i := GetOrCreateNode(t, NODE_THREAD);
      if i == -1 { return GraphFull; }
      var j := GetOrCreateNode(m, NODE_MUTEX);
      if j == -1 { return GraphFull; }
      SetEdge(j, i, false);
      r := Granted;
    }
  }
}
