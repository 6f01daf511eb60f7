/** The LRU cache: nodes on a doubly linked recency list and on hash chains, in place. */
module LruCache {
  import opened Lists

  /** The last use of a key moves it to the front: the recency order of a history of uses, with nothing forgotten. */
  function Recency(uses: seq<int>): seq<int> {
    if uses == [] then [] else Touch(Recency(uses[..|uses| - 1]), uses[|uses| - 1])
  }

  function Touch(l: seq<int>, key: int): seq<int> {
    [key] + if key in l then RemoveAt(l, Position(l, key)) else l
  }

  function Top(l: seq<int>, n: nat): seq<int> { if |l| <= n then l else l[..n] }

  lemma {:induction false} RecencyFacts(uses: seq<int>)
    ensures Distinct(Recency(uses)) && forall k :: k in Recency(uses) <==> k in uses
  {
    if uses != [] {
      var l := Recency(uses[..|uses| - 1]);
      var key := uses[|uses| - 1];
      RecencyFacts(uses[..|uses| - 1]);
      if key in l { RemovedOne(l, Position(l, key)); }
      assert uses == uses[..|uses| - 1] + [key];
    }
  }

  /** Using a key among the n most recent ones reorders them. */
  lemma TouchHit(l: seq<int>, n: nat, i: nat)
    requires Distinct(l) && i < |Top(l, n)|
    ensures Top(Touch(l, l[i]), n) == [l[i]] + RemoveAt(Top(l, n), i)
  {
    assert Position(l, l[i]) == i;
  }

  lemma BeyondPrefix(l: seq<int>, n: nat, key: int)
    requires n <= |l| && key in l
    ensures key in l[..n] || Position(l, key) >= n
  {
    assert Position(l, key) < n ==> l[..n][Position(l, key)] == l[Position(l, key)];
  }

  /** Using another key brings it in, and pushes out the least recent one if there were n. */
  lemma TouchMiss(l: seq<int>, n: nat, key: int)
    requires key !in Top(l, n) && n >= 1
    ensures Top(Touch(l, key), n) == [key] + if |Top(l, n)| == n then Top(l, n)[..n - 1] else Top(l, n)
  {
    if key in l {
      assert Top(l, n) == l[..n];
      assert l[..n][..n - 1] == l[..n - 1];
      BeyondPrefix(l, n, key);
    }
  }

  /** The keys used since the last use of `key`. */
  function Since(uses: seq<int>, key: int): set<int> {
    if uses == [] || uses[|uses| - 1] == key then {} else Since(uses[..|uses| - 1], key) + {uses[|uses| - 1]}
  }

  /** A touch moves one key to the front and keeps the order of the others. */
  lemma TouchPosition(l: seq<int>, x: int, y: int)
    requires Distinct(l) && Distinct(Touch(l, x)) && y in l && y != x
    ensures var l' := Touch(l, x); var p := Position(l, y);
      y in l' && Position(l', y) == if x in l && Position(l, x) < p then p else p + 1
  {
    var l' := Touch(l, x);
    var p := Position(l, y);
    var i := if x in l && Position(l, x) < p then p else p + 1;
    assert l'[i] == y;
    OnlyPosition(l', y, i);
  }

  ghost predicate Ahead(l: seq<int>, x: int, key: int) { x in l && key in l && Position(l, x) < Position(l, key) }

  lemma TouchFront(l: seq<int>, x: int)
    requires Distinct(Touch(l, x))
    ensures x in Touch(l, x) && Position(Touch(l, x), x) == 0
  {
    OnlyPosition(Touch(l, x), x, 0);
  }

  lemma RecencyStep(uses: seq<int>)
    requires uses != []
    ensures var before, u := uses[..|uses| - 1], uses[|uses| - 1];
      && Recency(uses) == Touch(Recency(before), u) && Distinct(Recency(before)) && Distinct(Recency(uses))
      && (forall k :: k in Recency(before) <==> k in before) && (forall k :: k in uses <==> k == u || k in before)
      && forall k :: k in Recency(uses) <==> k in uses
  {
    RecencyFacts(uses);
    RecencyFacts(uses[..|uses| - 1]);
    assert uses == uses[..|uses| - 1] + [uses[|uses| - 1]];
  }

  /** The keys ahead of a key are those used since its last use. */
  lemma {:induction false} InFront(uses: seq<int>, key: int, x: int)
    requires key in uses
    ensures key in Recency(uses) && (x in Since(uses, key) <==> Ahead(Recency(uses), x, key))
  {
    hide Position, Recency, Touch, Distinct;
    var before := uses[..|uses| - 1];
    var u := uses[|uses| - 1];
    RecencyStep(uses);
    var l := Recency(before);
    TouchFront(l, u);
    if u != key {
      InFront(before, key, x);
      TouchPosition(l, u, key);
      if x != u && x in l { TouchPosition(l, u, x); }
    }
  }

  lemma OnlyPosition(l: seq<int>, x: int, i: nat)
    requires Distinct(l) && i < |l| && l[i] == x
    ensures Position(l, x) == i
  {
  }

  lemma PrefixPosition(l: seq<int>, i: nat, x: int)
    requires Distinct(l) && i <= |l|
    ensures x in l[..i] <==> x in l && Position(l, x) < i
  {
    if x in l[..i] {
      var j :| 0 <= j < i && l[j] == x;
      OnlyPosition(l, x, j);
    }
    if x in l && Position(l, x) < i { assert l[..i][Position(l, x)] == x; }
  }

  /** What it means to be cached: the key was used, and fewer different keys than the capacity were used since. */
  lemma CachedIff(uses: seq<int>, capacity: nat, key: int)
    ensures key in Top(Recency(uses), capacity) <==> key in uses && |Since(uses, key)| < capacity
  {
    hide Recency, Since, Position;
    RecencyFacts(uses);
    var l := Recency(uses);
    var n := if |l| <= capacity then |l| else capacity;
    assert Top(l, capacity) == l[..n];
    PrefixPosition(l, n, key);
    if key in uses {
      var i := Position(l, key);
      forall x ensures x in l[..i] <==> x in Since(uses, key) {
        InFront(uses, key, x);
        PrefixPosition(l, i, x);
      }
      SetOfDistinct(l[..i], Since(uses, key));
    }
  }

  // ---- the doubly linked list

  const TABLE_SIZE: nat := 16

  function Hash(key: int): (h: nat)
    ensures h < TABLE_SIZE
  {
    key % 0x1_0000_0000 * 2654435761 % 0x1_0000_0000 % TABLE_SIZE
  }

  datatype Node = Node(key: int, value: int, prev: int, next: int, hnext: int)

  type Heap = map<int, Node>

  ghost predicate LinkOk(nodes: Heap, order: seq<int>, i: nat)
    requires i < |order|
  {
    && order[i] in nodes && order[i] >= 0
    && nodes[order[i]].prev == At(order, i - 1) && nodes[order[i]].next == At(order, i + 1)
  }

  /** From `head` to `tail` along `next`, and back along `prev`, the list runs through `order`. */
  ghost predicate Listed(nodes: Heap, order: seq<int>, head: int, tail: int) {
    && Distinct(order) && head == At(order, 0) && tail == At(order, |order| - 1)
    && forall i: nat {:trigger LinkOk(nodes, order, i)} :: i < |order| ==> LinkOk(nodes, order, i)
  }

  function SetPrev(nodes: Heap, n: int, p: int): Heap { if n in nodes then nodes[n := nodes[n].(prev := p)] else nodes }

  function SetNext(nodes: Heap, n: int, x: int): Heap { if n in nodes then nodes[n := nodes[n].(next := x)] else nodes }

  /** Nothing but the list links differ. */
  ghost predicate SameButLinks(nodes: Heap, nodes': Heap) {
    && nodes'.Keys == nodes.Keys
    && forall n {:trigger n in nodes'} :: n in nodes' ==>
      nodes'[n].key == nodes[n].key && nodes'[n].value == nodes[n].value && nodes'[n].hnext == nodes[n].hnext
  }

  lemma AddedFront(nodes: Heap, order: seq<int>, head: int, tail: int, n: int)
    requires Listed(nodes, order, head, tail) && n in nodes && n >= 0 && n !in order
    ensures var nodes1 := SetNext(SetPrev(nodes, n, -1), n, head);
      var nodes' := if head != -1 then SetPrev(nodes1, head, n) else nodes1;
      Listed(nodes', [n] + order, n, if tail == -1 then n else tail) && SameButLinks(nodes, nodes')
  {
    var nodes1 := SetNext(SetPrev(nodes, n, -1), n, head);
    var nodes' := if head != -1 then SetPrev(nodes1, head, n) else nodes1;
    if order != [] { assert LinkOk(nodes, order, 0) && LinkOk(nodes, order, |order| - 1); }
    forall i: nat | i < |[n] + order| ensures LinkOk(nodes', [n] + order, i) {
      if i > 0 { assert LinkOk(nodes, order, i - 1); }
    }
  }

  lemma Unlinked(nodes: Heap, order: seq<int>, head: int, tail: int, i: nat)
    requires Listed(nodes, order, head, tail) && i < |order| && order[i] in nodes
    ensures var n := nodes[order[i]];
      var nodes1 := if n.prev != -1 then SetNext(nodes, n.prev, n.next) else nodes;
      var nodes' := if n.next != -1 then SetPrev(nodes1, n.next, n.prev) else nodes1;
      Listed(nodes', RemoveAt(order, i), if n.prev != -1 then head else n.next, if n.next != -1 then tail
        else n.prev) && SameButLinks(nodes, nodes')
  {
    var n := nodes[order[i]];
    var nodes1 := if n.prev != -1 then SetNext(nodes, n.prev, n.next) else nodes;
    var nodes' := if n.next != -1 then SetPrev(nodes1, n.next, n.prev) else nodes1;
    var order' := RemoveAt(order, i);
    RemovedOne(order, i);
    assert LinkOk(nodes, order, i);
    if i > 0 { assert LinkOk(nodes, order, i - 1); }
    if i + 1 < |order| { assert LinkOk(nodes, order, i + 1); }
    forall j: nat | j < |order'| ensures LinkOk(nodes', order', j) {
      assert LinkOk(nodes, order, if j < i then j else j + 1);
    }
  }

  // ---- the hash chains

  ghost predicate ChainLinkOk(nodes: Heap, chain: seq<int>, b: nat, j: nat)
    requires j < |chain|
  {
    chain[j] in nodes && chain[j] >= 0 && Hash(nodes[chain[j]].key) == b && nodes[chain[j]].hnext == At(chain, j + 1)
  }

  /** The chain from `first` runs through `chain`, whose nodes belong to bucket b. */
  ghost predicate Chained(nodes: Heap, chain: seq<int>, b: nat, first: int) {
    && Distinct(chain) && first == At(chain, 0)
    && forall j: nat {:trigger ChainLinkOk(nodes, chain, b, j)} :: j < |chain| ==> ChainLinkOk(nodes, chain, b, j)
  }

  ghost predicate BucketOk(nodes: Heap, table: seq<int>, chains: seq<seq<int>>, b: nat)
    requires b < |table| && b < |chains|
  {
    Chained(nodes, chains[b], b, table[b])
  }

  /** Every node of `listed` is on the chain of its key's bucket, and the chains hold no other node. */
  ghost predicate Tabled(nodes: Heap, table: seq<int>, chains: seq<seq<int>>, listed: set<int>) {
    && |table| == |chains| == TABLE_SIZE
    && (forall b: nat {:trigger BucketOk(nodes, table, chains, b)} :: b < TABLE_SIZE ==>
      BucketOk(nodes, table, chains, b))
    && (forall n :: n in listed ==> n in nodes && n in chains[Hash(nodes[n].key)])
    && (forall b: nat, n :: b < TABLE_SIZE && n in chains[b] ==> n in listed)
  }

  lemma SameChains(nodes: Heap, nodes': Heap, table: seq<int>, chains: seq<seq<int>>, listed: set<int>)
    requires Tabled(nodes, table, chains, listed)
    requires forall n :: n in listed && n in nodes ==>
      n in nodes' && nodes'[n].key == nodes[n].key && nodes'[n].hnext == nodes[n].hnext
    ensures Tabled(nodes', table, chains, listed)
  {
    hide Hash;
    forall b: nat | b < TABLE_SIZE ensures BucketOk(nodes', table, chains, b) {
      assert BucketOk(nodes, table, chains, b);
      forall j: nat | j < |chains[b]| ensures ChainLinkOk(nodes', chains[b], b, j) {
        assert ChainLinkOk(nodes, chains[b], b, j) && chains[b][j] in chains[b];
      }
    }
  }

  lemma ChainInserted(nodes: Heap, table: seq<int>, chains: seq<seq<int>>, listed: set<int>, n: int)
    requires Tabled(nodes, table, chains, listed) && n in nodes && n >= 0 && n !in listed
    ensures var b := Hash(nodes[n].key); var nodes' := nodes[n := nodes[n].(hnext := table[b])];
      Tabled(nodes', table[b := n], chains[b := [n] + chains[b]], listed + {n})
  {
    hide Hash;
    var b := Hash(nodes[n].key);
    var nodes' := nodes[n := nodes[n].(hnext := table[b])];
    var table', chains' := table[b := n], chains[b := [n] + chains[b]];
    forall c: nat | c < TABLE_SIZE ensures BucketOk(nodes', table', chains', c) {
      assert BucketOk(nodes, table, chains, c);
      forall j: nat | j < |chains'[c]| ensures ChainLinkOk(nodes', chains'[c], c, j) {
        if c != b { assert ChainLinkOk(nodes, chains[c], c, j) && chains[c][j] in chains[c]; }
        else if j > 0 { assert ChainLinkOk(nodes, chains[b], b, j - 1) && chains[b][j - 1] in chains[b]; }
      }
    }
  }

  /** `*pp = (*pp)->hnext` with pp the table's slot or the predecessor's link. */
  lemma ChainRemoved(nodes: Heap, table: seq<int>, chains: seq<seq<int>>, listed: set<int>, b: nat, j: nat)
    requires Tabled(nodes, table, chains, listed) && b < TABLE_SIZE && j < |chains[b]| && chains[b][j] in nodes
      && (j > 0 ==> chains[b][j - 1] in nodes)
    ensures var n := chains[b][j]; var after := nodes[n].hnext;
      var nodes' := if j > 0 then nodes[chains[b][j - 1] := nodes[chains[b][j - 1]].(hnext := after)] else nodes;
      Tabled(nodes', if j > 0 then table else table[b := after], chains[b := RemoveAt(chains[b], j)], listed - {n})
  {
    hide Hash;
    var n := chains[b][j];
    var after := nodes[n].hnext;
    var nodes' := if j > 0 then nodes[chains[b][j - 1] := nodes[chains[b][j - 1]].(hnext := after)] else nodes;
    var table' := if j > 0 then table else table[b := after];
    var chain' := RemoveAt(chains[b], j);
    var chains' := chains[b := chain'];
    assert BucketOk(nodes, table, chains, b);
    assert ChainLinkOk(nodes, chains[b], b, j);
    RemovedOne(chains[b], j);
    forall c: nat | c < TABLE_SIZE ensures BucketOk(nodes', table', chains', c) {
      assert BucketOk(nodes, table, chains, c);
      forall i: nat | i < |chains'[c]| ensures ChainLinkOk(nodes', chains'[c], c, i) {
        if c != b {
          OtherBucket(nodes, table, chains, listed, b, c, i);
          assert j > 0 ==> ChainLinkOk(nodes, chains[b], b, j - 1);
        }
        else { assert ChainLinkOk(nodes, chains[b], b, if i < j then i else i + 1); }
      }
    }
    forall c: nat, x | c < TABLE_SIZE && x in chains'[c] ensures x in listed - {n} {
      if c != b && x == n { OtherBucket(nodes, table, chains, listed, b, c, Position(chains[c], x)); }
    }
  }

  lemma OtherBucket(nodes: Heap, table: seq<int>, chains: seq<seq<int>>, listed: set<int>, b: nat, c: nat, i: nat)
    requires Tabled(nodes, table, chains, listed) && b < TABLE_SIZE && c < TABLE_SIZE && b != c && i < |chains[c]|
    ensures ChainLinkOk(nodes, chains[c], c, i) && chains[c][i] !in chains[b]
  {
    hide Hash;
    assert BucketOk(nodes, table, chains, c) && BucketOk(nodes, table, chains, b);
    assert ChainLinkOk(nodes, chains[c], c, i);
    forall j: nat | j < |chains[b]| ensures chains[b][j] != chains[c][i] { assert ChainLinkOk(nodes, chains[b], b, j); }
  }

  // ---- the cache

  function KeyAt(nodes: Heap, n: int): int { if n in nodes then nodes[n].key else -1 }

  function KeysOf(nodes: Heap, order: seq<int>): (keys: seq<int>)
    ensures |keys| == |order| && forall i :: 0 <= i < |order| ==> keys[i] == KeyAt(nodes, order[i])
  {
    seq(|order|, i requires 0 <= i < |order| => KeyAt(nodes, order[i]))
  }

  ghost predicate ValuesOk(nodes: Heap, last: map<int, int>) {
    forall n {:trigger n in nodes} :: n in nodes ==> nodes[n].key in last && nodes[n].value == last[nodes[n].key]
  }

  class LRUCache {
    var head: int
    var tail: int
    var table: seq<int>
    var nodes: Heap
    var size: nat
    const capacity: nat

    ghost var order: seq<int>           // the nodes, the most recently used first
    ghost var chains: seq<seq<int>>     // the nodes of each bucket
    ghost var uses: seq<int>            // the keys of all puts and all successful gets so far
    ghost var last: map<int, int>       // the value of each key's last put

    /** The keys that should be cached, the most recently used first. */
    ghost function Cached(): seq<int>
      reads this
    {
      Top(Recency(uses), capacity)
    }

    ghost predicate Valid()
      reads this
    {
      && capacity >= 1 && size == |order|
      && Listed(nodes, order, head, tail) && Tabled(nodes, table, chains, nodes.Keys)
      && (forall n :: n in nodes <==> n in order)
      && KeysOf(nodes, order) == Cached() && ValuesOk(nodes, last)
    }

    constructor (capacity: nat)
      requires capacity >= 1
      ensures Valid() && uses == [] && last == map[] && this.capacity == capacity
    {
      this.capacity := capacity;
      head, tail, size := -1, -1, 0;
      table, nodes := seq(TABLE_SIZE, _ => -1), map[];
      order, chains, uses, last := [], seq(TABLE_SIZE, _ => []), [], map[];
      new;
      forall b: nat | b < TABLE_SIZE ensures BucketOk(nodes, table, chains, b) {}
    }

    /** `tableFind` */
    method TableFind(key: int) returns (n: int)
      requires Valid()
      ensures n == -1 ==> key !in Cached()
      ensures n != -1 ==> n in nodes && nodes[n].key == key && n in order
    {
      hide Listed, Hash, Recency, Top, ValuesOk;
      n := table[Hash(key)];
      ghost var i: nat := 0;
      ghost var chain := chains[Hash(key)];
      ChainAt(nodes, table, chains, nodes.Keys, Hash(key), 0);
      while n != -1
        invariant i <= |chain| && n == At(chain, i)
        invariant forall j :: 0 <= j < i ==> KeyAt(nodes, chain[j]) != key
        decreases |chain| - i
      {
        ChainAt(nodes, table, chains, nodes.Keys, Hash(key), i);
        if nodes[n].key == key { return; }
        n := nodes[n].hnext;
        i := i + 1;
      }
      ChainAt(nodes, table, chains, nodes.Keys, Hash(key), i);
      NotOnChain(nodes, table, chains, order, key);
    }

    /** `listAddFront` */
    method ListAddFront(n: int)
      requires Listed(nodes, order, head, tail) && n in nodes && n >= 0 && n !in order
      modifies this`nodes, this`head, this`tail, this`order
      ensures Listed(nodes, order, head, tail) && order == [n] + old(order) && SameButLinks(old(nodes), nodes)
    {
      hide Listed, SameButLinks;
      AddedFront(nodes, order, head, tail, n);
      nodes := SetNext(SetPrev(nodes, n, -1), n, head);
      if head != -1 { nodes := SetPrev(nodes, head, n); }
      head := n;
      if tail == -1 { tail := n; }
      order := [n] + order;
    }

    /** `listUnlink` */
    method ListUnlink(n: int)
      requires Listed(nodes, order, head, tail) && n in nodes && n in order
      modifies this`nodes, this`head, this`tail, this`order
      ensures Listed(nodes, order, head, tail) && order == RemoveAt(old(order), Position(old(order), n))
        && SameButLinks(old(nodes), nodes)
    {
      hide Listed, SameButLinks;
      Unlinked(nodes, order, head, tail, Position(order, n));
      var node := nodes[n];
      if node.prev != -1 { nodes := SetNext(nodes, node.prev, node.next); } else { head := node.next; }
      if node.next != -1 { nodes := SetPrev(nodes, node.next, node.prev); } else { tail := node.prev; }
      order := RemoveAt(order, Position(order, n));
    }

    /** `moveToFront` */
    method MoveToFront(n: int)
      requires Listed(nodes, order, head, tail) && n in nodes && n in order && n >= 0
      modifies this`nodes, this`head, this`tail, this`order
      ensures Listed(nodes, order, head, tail) && order == [n] + RemoveAt(old(order), Position(old(order), n))
        && SameButLinks(old(nodes), nodes)
    {
      if head == n {
        assert order == [n] + RemoveAt(order, 0);
        return;
      }
      RemovedOne(order, Position(order, n));
      ListUnlink(n);
      ListAddFront(n);
    }

    /** `tableInsert` */
    method TableInsert(n: int, ghost listed: set<int>)
      requires Tabled(nodes, table, chains, listed) && n in nodes && n >= 0 && n !in listed
      modifies this`nodes, this`table, this`chains
      ensures Tabled(nodes, table, chains, listed + {n})
        && nodes == old(nodes)[n := old(nodes)[n].(hnext := nodes[n].hnext)]
    {
      hide Hash;
      ChainInserted(nodes, table, chains, listed, n);
      var h := Hash(nodes[n].key);
      nodes := nodes[n := nodes[n].(hnext := table[h])];
      chains := chains[h := [n] + chains[h]];
      table := table[h := n];
    }

    /** `tableRemove`: the node n with the key leaves its chain. */
    method TableRemove(key: int, ghost n: int)
      requires Tabled(nodes, table, chains, nodes.Keys) && n in nodes && nodes[n].key == key
      requires forall m :: m in nodes && nodes[m].key == key ==> m == n
      modifies this`nodes, this`table, this`chains
      ensures Tabled(nodes, table, chains, nodes.Keys - {n}) && nodes.Keys == old(nodes.Keys)
      ensures forall m :: m in nodes ==> nodes[m] == old(nodes)[m].(hnext := nodes[m].hnext)
    {
      hide Hash, Chained;
      var h := Hash(key);
      var previous, current := -1, table[h];
      ghost var j := 0;
      ghost var chain := chains[h];
      ghost var before := nodes;
      ChainAt(nodes, table, chains, nodes.Keys, h, 0);
      while current != -1
        invariant unchanged(this)
        invariant j <= |chain| && current == At(chain, j) && previous == At(chain, j - 1)
        invariant forall i :: 0 <= i < j ==> chain[i] != n
        invariant j > 0 ==> previous in nodes && previous >= 0
        decreases |chain| - j
      {
        ChainAt(nodes, table, chains, nodes.Keys, h, j);
        if nodes[current].key == key {
          ChainRemoved(nodes, table, chains, nodes.Keys, h, j);
          chains := chains[h := RemoveAt(chain, j)];
          if previous == -1 { table := table[h := nodes[current].hnext]; }
          else { nodes := nodes[previous := nodes[previous].(hnext := nodes[current].hnext)]; }
          return;
        }
        previous, current := current, nodes[current].hnext;
        j := j + 1;
      }
      ChainAt(nodes, table, chains, nodes.Keys, h, j);
      assert false;
    }

    /** `evictLRU`: the last node of a list that is not empty is freed. */
    method EvictLRU()
      requires Valid() && size > 0
      modifies this`nodes, this`head, this`tail, this`table, this`size, this`order, this`chains
      ensures size == old(size) - 1 == |order| && Listed(nodes, order, head, tail)
        && Tabled(nodes, table, chains, nodes.Keys)
      ensures (forall n :: n in nodes <==> n in order) && ValuesOk(nodes, last)
        && nodes.Keys == old(nodes.Keys) - {old(tail)}
      ensures KeysOf(nodes, order) == old(Cached())[..old(size) - 1]
    {
      hide Hash, Listed, Tabled, Recency, Top, ValuesOk, SameButLinks;
      var victim := tail;
      ghost var nodes0, order0 := nodes, order;
      LastNode(nodes, order, head, tail);
      RecencyFacts(uses);
      UniqueKeys(nodes, order, Recency(uses), capacity, victim);
      ListUnlink(victim);
      ghost var nodes1 := nodes;
      SameTable(nodes0, nodes1, table, chains);
      TableRemove(nodes[victim].key, victim);
      ghost var nodes2 := nodes;
      nodes := nodes - {victim};
      size := size - 1;
      Evicted(nodes0, nodes1, nodes2, nodes, order0, head, tail, table, chains, victim, last);
    }

    /** A use of the key cached at node n. */
    method Reuse(n: int)
      requires Valid() && n in nodes && n in order
      modifies this`nodes, this`head, this`tail, this`order, this`uses
      ensures Valid() && uses == old(uses) + [old(nodes[n].key)]
      ensures n in nodes && nodes[n].key == old(nodes[n].key) && nodes[n].value == old(nodes[n].value)
    {
      hide Hash, Listed, Tabled, Recency, Top, ValuesOk, KeysOf, Distinct, Position, SameButLinks, RemoveAt, KeyAt;
      ghost var nodes0, order0 := nodes, order;
      ListedNode(nodes, order, head, tail, n);
      MoveToFront(n);
      MovedTable(nodes0, nodes, order0, order, table, chains, n, last);
      MovedKeys(nodes0, nodes, order0, order, n, uses, capacity);
      SameKeyAt(nodes0, nodes, n);
      uses := uses + [KeyAt(nodes, n)];
      KeyOfNode(nodes, n);
    }

    /** `put` of a key that is cached at node n. */
    method Update(n: int, value: int)
      requires Valid() && n in nodes && n in order
      modifies this
      ensures Valid() && uses == old(uses) + [old(nodes[n].key)] && last == old(last)[old(nodes[n].key) := value]
    {
      hide Hash, Listed, Tabled, Recency, Top, ValuesOk, KeysOf, Distinct, Position;
      RecencyFacts(uses);
      UniqueKeys(nodes, order, Recency(uses), capacity, n);
      ValueSet(nodes, order, head, tail, table, chains, n, value, last);
      last := last[nodes[n].key := value];
      nodes := nodes[n := nodes[n].(value := value)];
      Reuse(n);
    }

    /** The new node of `put`, once there is room. */
    method Insert(key: int, value: int, address: int)
      requires size == |order| && Listed(nodes, order, head, tail) && Tabled(nodes, table, chains, nodes.Keys)
      requires (forall n :: n in nodes <==> n in order) && ValuesOk(nodes, last)
      requires key !in KeysOf(nodes, order) && address >= 0 && address !in nodes
      modifies this`nodes, this`head, this`tail, this`table, this`size, this`order, this`chains
      ensures size == |order| && Listed(nodes, order, head, tail) && Tabled(nodes, table, chains, nodes.Keys)
      ensures (forall n :: n in nodes <==> n in order) && ValuesOk(nodes, last[key := value])
      ensures KeysOf(nodes, order) == [key] + old(KeysOf(nodes, order))
    {
      hide Hash, Listed, Tabled, ValuesOk, SameButLinks, KeysOf;
      NotAnyKey(nodes, order, key);
      ghost var nodes1, order1 := nodes, order;
      var n := address;
      nodes := nodes[n := Node(key, value, -1, -1, -1)];
      ghost var nodes2 := nodes;
      NodeAdded(nodes1, nodes2, order, head, tail, table, chains, n);
      ListAddFront(n);
      ghost var nodes3 := nodes;
      LinksChanged(nodes2, nodes3, table, chains, nodes1.Keys);
      TableInsert(n, nodes1.Keys);
      HashLinkChanged(nodes3, nodes, order, head, tail, n);
      size := size + 1;
      Inserted(nodes1, nodes2, nodes3, nodes, order1, n, key, value, last);
    }

    /** `put`: the key is used and has the value; if it is new and the cache is full, the key used least recently goes.
        malloc gives an unused address, possibly the one just freed. */
    method Put(key: int, value: int, address: int)
      requires Valid() && address >= 0
        && (address !in nodes || (address == tail && size == capacity && key !in Cached()))
      modifies this
      ensures Valid() && uses == old(uses) + [key] && last == old(last)[key := value]
    {
      hide Hash, Listed, Tabled, Recency, Top, ValuesOk, KeysOf, Position;
      var n := TableFind(key);
      if n != -1 {
        Update(n, value);
        return;
      }
      MissFacts(uses, capacity, key);
      if size == capacity { EvictLRU(); }
      Insert(key, value, address);
      uses, last := uses + [key], last[key := value];
    }

    /** `get`: the value last put for a cached key, which is used thereby; -1 for any other key. */
    method Get(key: int) returns (r: int)
      requires Valid()
      modifies this
      ensures Valid() && last == old(last)
      ensures if key in old(Cached()) then key in last && r == last[key] else r == -1
      ensures uses == if key in old(Cached()) then old(uses) + [key] else old(uses)
    {
      hide Hash, Listed, Tabled, Recency, Top, ValuesOk, SameButLinks, KeysOf, Distinct, Position;
      var n := TableFind(key);
      if n == -1 { return -1; }
      ValueAt(nodes, last, n);
      Reuse(n);
      return nodes[n].value;
    }
  }

  // ---- facts for the methods

  lemma ChainAt(nodes: Heap, table: seq<int>, chains: seq<seq<int>>, listed: set<int>, b: nat, i: nat)
    requires Tabled(nodes, table, chains, listed) && b < TABLE_SIZE
    ensures table[b] == At(chains[b], 0)
    ensures i < |chains[b]| ==> ChainLinkOk(nodes, chains[b], b, i) && chains[b][i] in listed
  {
    assert BucketOk(nodes, table, chains, b);
  }

  lemma NotOnChain(nodes: Heap, table: seq<int>, chains: seq<seq<int>>, order: seq<int>, key: int)
    requires Tabled(nodes, table, chains, nodes.Keys) && forall n :: n in order ==> n in nodes
    requires forall j :: 0 <= j < |chains[Hash(key)]| ==> KeyAt(nodes, chains[Hash(key)][j]) != key
    ensures key !in KeysOf(nodes, order)
  {
    hide Hash;
    forall i | 0 <= i < |order| ensures KeysOf(nodes, order)[i] != key { assert order[i] in nodes; }
  }

  lemma NotAnyKey(nodes: Heap, order: seq<int>, key: int)
    requires key !in KeysOf(nodes, order) && forall n :: n in nodes <==> n in order
    ensures forall n :: n in nodes ==> nodes[n].key != key
  {
    forall n | n in nodes ensures nodes[n].key != key {
      var i :| 0 <= i < |order| && order[i] == n;
      assert KeysOf(nodes, order)[i] == nodes[n].key;
    }
  }

  lemma ListedNode(nodes: Heap, order: seq<int>, head: int, tail: int, n: int)
    requires Listed(nodes, order, head, tail) && n in order
    ensures n >= 0 && Distinct(order)
  {
    assert LinkOk(nodes, order, Position(order, n));
  }

  lemma LastNode(nodes: Heap, order: seq<int>, head: int, tail: int)
    requires Listed(nodes, order, head, tail) && order != []
    ensures tail in order && tail in nodes && Position(order, tail) == |order| - 1 && order[|order| - 1] == tail
      && Distinct(order)
  {
    assert LinkOk(nodes, order, |order| - 1);
  }

  lemma SameTable(nodes: Heap, nodes': Heap, table: seq<int>, chains: seq<seq<int>>)
    requires Tabled(nodes, table, chains, nodes.Keys) && SameButLinks(nodes, nodes')
    ensures Tabled(nodes', table, chains, nodes'.Keys) && nodes'.Keys == nodes.Keys
    ensures forall n :: n in nodes ==> nodes'[n].key == nodes[n].key && nodes'[n].value == nodes[n].value
  {
    SameChains(nodes, nodes', table, chains, nodes.Keys);
  }

  lemma LinksChanged(nodes: Heap, nodes': Heap, table: seq<int>, chains: seq<seq<int>>, listed: set<int>)
    requires Tabled(nodes, table, chains, listed) && SameButLinks(nodes, nodes')
    ensures Tabled(nodes', table, chains, listed)
    ensures nodes'.Keys == nodes.Keys
      && forall n :: n in nodes ==> nodes'[n].key == nodes[n].key && nodes'[n].value == nodes[n].value
  {
    SameChains(nodes, nodes', table, chains, listed);
  }

  /** The nodes on the list have different keys. */
  lemma UniqueKeys(nodes: Heap, order: seq<int>, recency: seq<int>, capacity: nat, n: int)
    requires Distinct(recency) && KeysOf(nodes, order) == Top(recency, capacity)
      && (forall m :: m in nodes <==> m in order) && n in nodes
    ensures forall m :: m in nodes && nodes[m].key == nodes[n].key ==> m == n
  {
    var i := Position(order, n);
    forall m | m in nodes && nodes[m].key == nodes[n].key ensures m == n {
      var j := Position(order, m);
      assert KeysOf(nodes, order)[i] == KeysOf(nodes, order)[j];
    }
  }

  lemma HitFacts(uses: seq<int>, capacity: nat, key: int, i: nat)
    requires i < |Top(Recency(uses), capacity)| && Top(Recency(uses), capacity)[i] == key
    ensures Top(Recency(uses + [key]), capacity) == [key] + RemoveAt(Top(Recency(uses), capacity), i)
  {
    RecencyFacts(uses);
    assert (uses + [key])[..|uses|] == uses;
    TouchHit(Recency(uses), capacity, i);
  }

  lemma MissFacts(uses: seq<int>, capacity: nat, key: int)
    requires key !in Top(Recency(uses), capacity) && capacity >= 1
    ensures var top := Top(Recency(uses), capacity);
      Top(Recency(uses + [key]), capacity) == [key] + (if |top| == capacity then top[..capacity - 1] else top)
        && |top| <= capacity
  {
    assert (uses + [key])[..|uses|] == uses;
    TouchMiss(Recency(uses), capacity, key);
  }

  lemma ValueAt(nodes: Heap, last: map<int, int>, n: int)
    requires ValuesOk(nodes, last) && n in nodes
    ensures nodes[n].key in last && nodes[n].value == last[nodes[n].key]
  {
  }

  /** A move to the front keeps the table, the values and the nodes on the list. */
  lemma MovedTable(nodes: Heap, nodes': Heap, order: seq<int>, order': seq<int>, table: seq<int>,
      chains: seq<seq<int>>, n: int, last: map<int, int>)
    requires SameButLinks(nodes, nodes') && Distinct(order) && n in order && Tabled(nodes, table, chains, nodes.Keys)
      && ValuesOk(nodes, last)
    requires (forall m :: m in nodes <==> m in order) && order' == [n] + RemoveAt(order, Position(order, n))
    ensures Tabled(nodes', table, chains, nodes'.Keys) && ValuesOk(nodes', last) && |order'| == |order|
    ensures forall m :: m in nodes' <==> m in order'
    ensures n in nodes && n in nodes' && nodes'[n].key == nodes[n].key && nodes'[n].value == nodes[n].value
  {
    hide Tabled;
    RemovedOne(order, Position(order, n));
    SameTable(nodes, nodes', table, chains);
    forall m ensures m in order' <==> m in order {}
  }

  lemma KeyOfNode(nodes: Heap, n: int)
    requires n in nodes
    ensures KeyAt(nodes, n) == nodes[n].key
  {
  }

  lemma SameKeyAt(nodes: Heap, nodes': Heap, n: int)
    requires SameButLinks(nodes, nodes')
    ensures KeyAt(nodes', n) == KeyAt(nodes, n)
  {
  }

  /** The keys of the list follow the use. */
  lemma MovedKeys(nodes: Heap, nodes': Heap, order: seq<int>, order': seq<int>, n: int, uses: seq<int>, capacity: nat)
    requires SameButLinks(nodes, nodes') && n in order && order' == [n] + RemoveAt(order, Position(order, n))
    requires KeysOf(nodes, order) == Top(Recency(uses), capacity)
    ensures KeysOf(nodes', order') == Top(Recency(uses + [KeyAt(nodes, n)]), capacity)
  {
    hide Recency, Top, SameButLinks, KeyAt;
    var i := Position(order, n);
    var keys := KeysOf(nodes, order);
    var keys' := [KeyAt(nodes, n)] + RemoveAt(keys, i);
    forall j | 0 <= j < |order'| ensures KeysOf(nodes', order')[j] == keys'[j] { SameKeyAt(nodes, nodes', order'[j]); }
    HitFacts(uses, capacity, KeyAt(nodes, n), i);
  }

  lemma ValueSet(nodes: Heap, order: seq<int>, head: int, tail: int, table: seq<int>, chains: seq<seq<int>>, n: int,
      value: int, last: map<int, int>)
    requires Listed(nodes, order, head, tail) && Tabled(nodes, table, chains, nodes.Keys) && n in nodes
      && ValuesOk(nodes, last)
    requires forall m :: m in nodes && nodes[m].key == nodes[n].key ==> m == n
    ensures var nodes' := nodes[n := nodes[n].(value := value)];
      && Listed(nodes', order, head, tail) && Tabled(nodes', table, chains, nodes'.Keys)
        && ValuesOk(nodes', last[nodes[n].key := value])
      && nodes'.Keys == nodes.Keys && KeysOf(nodes', order) == KeysOf(nodes, order) && Distinct(order)
  {
    var nodes' := nodes[n := nodes[n].(value := value)];
    assert nodes'.Keys == nodes.Keys;
    SameChains(nodes, nodes', table, chains, nodes.Keys);
    forall i: nat | i < |order| ensures LinkOk(nodes', order, i) { assert LinkOk(nodes, order, i); }
  }

  lemma NodeAdded(nodes: Heap, nodes': Heap, order: seq<int>, head: int, tail: int, table: seq<int>,
      chains: seq<seq<int>>, n: int)
    requires Listed(nodes, order, head, tail) && Tabled(nodes, table, chains, nodes.Keys) && n !in nodes
      && n in nodes' && nodes' == nodes[n := nodes'[n]]
    ensures Listed(nodes', order, head, tail) && Tabled(nodes', table, chains, nodes.Keys)
  {
    SameChains(nodes, nodes', table, chains, nodes.Keys);
    forall i: nat | i < |order| ensures LinkOk(nodes', order, i) { assert LinkOk(nodes, order, i); }
  }

  lemma HashLinkChanged(nodes: Heap, nodes': Heap, order: seq<int>, head: int, tail: int, n: int)
    requires Listed(nodes, order, head, tail) && n in nodes && n in nodes'
      && nodes' == nodes[n := nodes[n].(hnext := nodes'[n].hnext)]
    ensures Listed(nodes', order, head, tail)
  {
    forall i: nat | i < |order| ensures LinkOk(nodes', order, i) { assert LinkOk(nodes, order, i); }
  }

  lemma Inserted(nodes1: Heap, nodes2: Heap, nodes3: Heap, nodes4: Heap, order: seq<int>, n: int, key: int,
      value: int, last: map<int, int>)
    requires n !in nodes1 && n in nodes2 && nodes2 == nodes1[n := nodes2[n]] && nodes2[n].key == key
      && nodes2[n].value == value
    requires nodes3.Keys == nodes2.Keys
      && forall m :: m in nodes2 ==> nodes3[m].key == nodes2[m].key && nodes3[m].value == nodes2[m].value
    requires n in nodes4 && nodes4 == nodes3[n := nodes3[n].(hnext := nodes4[n].hnext)]
    requires ValuesOk(nodes1, last) && (forall m :: m in nodes1 <==> m in order)
      && (forall m :: m in nodes1 ==> nodes1[m].key != key)
    ensures ValuesOk(nodes4, last[key := value]) && nodes4.Keys == nodes1.Keys + {n}
      && (forall m :: m in nodes4 <==> m in [n] + order)
    ensures KeysOf(nodes4, [n] + order) == [key] + KeysOf(nodes1, order)
  {
    forall m | m in nodes4 ensures nodes4[m].key == nodes2[m].key && nodes4[m].value == nodes2[m].value {}
    forall j | 0 <= j < |[n] + order| ensures KeysOf(nodes4, [n] + order)[j] == ([key] + KeysOf(nodes1, order))[j] {
      if j > 0 { assert order[j - 1] in order; }
    }
  }

  lemma Evicted(nodes0: Heap, nodes1: Heap, nodes2: Heap, nodes3: Heap, order: seq<int>, head: int, tail: int,
      table: seq<int>, chains: seq<seq<int>>, victim: int, last: map<int, int>)
    requires order != [] && Distinct(order) && victim == order[|order| - 1] && ValuesOk(nodes0, last)
      && (forall n :: n in nodes0 <==> n in order)
    requires SameButLinks(nodes0, nodes1) && Listed(nodes1, RemoveAt(order, |order| - 1), head, tail)
    requires nodes2.Keys == nodes1.Keys
      && (forall n :: n in nodes2 ==> nodes2[n] == nodes1[n].(hnext := nodes2[n].hnext))
    requires Tabled(nodes2, table, chains, nodes2.Keys - {victim}) && nodes3 == nodes2 - {victim}
    ensures var order' := RemoveAt(order, |order| - 1);
      && Listed(nodes3, order', head, tail) && Tabled(nodes3, table, chains, nodes3.Keys) && ValuesOk(nodes3, last)
      && (forall n :: n in nodes3 <==> n in order') && nodes3.Keys == nodes0.Keys - {victim}
      && KeysOf(nodes3, order') == KeysOf(nodes0, order)[..|order| - 1]
  {
    hide Tabled;
    var order' := RemoveAt(order, |order| - 1);
    RemovedOne(order, |order| - 1);
    SameChains(nodes2, nodes3, table, chains, nodes2.Keys - {victim});
    assert nodes3.Keys == nodes2.Keys - {victim};
    forall i: nat | i < |order'| ensures LinkOk(nodes3, order', i) {
      assert LinkOk(nodes1, order', i) && order'[i] in order';
    }
    forall i | 0 <= i < |order'| ensures KeysOf(nodes3, order')[i] == KeysOf(nodes0, order)[i] {
      assert order'[i] in order';
    }
  }
}
