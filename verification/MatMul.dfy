/** Three loop orders of matrix multiplication, over any arithmetic: addition need not be associative. */
module MatMul {
  datatype Arith<!T> = Arith(zero: T, add: (T, T) -> T, mul: (T, T) -> T)

  /** Row-major position. */
  function Index(i: nat, j: nat, n: nat): (p: nat)
    requires i < n && j < n
    ensures p < n * n
  {
    assert i * n + j < (i + 1) * n <= n * n by { RowsFit(i + 1, n, n); }
    i * n + j
  }

  lemma RowsFit(x: nat, y: nat, n: nat)
    requires x <= y
    ensures x * n <= y * n
  {
  }

  lemma IndexInjective(i: nat, j: nat, i': nat, j': nat, n: nat)
    requires i < n && j < n && i' < n && j' < n && Index(i, j, n) == Index(i', j', n)
    ensures i == i' && j == j'
  {
    if i < i' { RowAfterRow(i, j, i', j', n); }
    if i' < i { RowAfterRow(i', j', i, j, n); }
  }

  lemma RowAfterRow(i: nat, j: nat, i': nat, j': nat, n: nat)
    requires i < i' && j < n
    ensures i * n + j < i' * n + j'
  {
    RowsFit(i + 1, i', n);
    assert (i + 1) * n == i * n + n;
  }

  lemma IndexSurjective(p: nat, n: nat) returns (i: nat, j: nat)
    requires p < n * n
    ensures i < n && j < n && Index(i, j, n) == p
  {
    i, j := p / n, p % n;
    assert p == i * n + j;
    if i >= n { RowsFit(n, i, n); }
  }

  /** The first k products of row i and column j, added from the left. */
  function Dot<T>(r: Arith<T>, a: seq<T>, b: seq<T>, n: nat, i: nat, j: nat, k: nat): T
    requires |a| == n * n && |b| == n * n && i < n && j < n && k <= n
  {
    if k == 0 then r.zero
      else (r.add)(Dot(r, a, b, n, i, j, k - 1), (r.mul)(a[Index(i, k - 1, n)], b[Index(k - 1, j, n)]))
  }

  ghost predicate EntryOk<T>(r: Arith<T>, a: seq<T>, b: seq<T>, c: seq<T>, n: nat, i: nat, j: nat)
    requires |a| == n * n && |b| == n * n && |c| == n * n && i < n && j < n
  {
    c[Index(i, j, n)] == Dot(r, a, b, n, i, j, n)
  }

  /** c is the product, each entry summed in ascending order of k. */
  ghost predicate IsProduct<T>(r: Arith<T>, a: seq<T>, b: seq<T>, c: seq<T>, n: nat) {
    && |a| == n * n && |b| == n * n && |c| == n * n
    && forall i: nat, j: nat {:trigger EntryOk(r, a, b, c, n, i, j)} :: i < n && j < n ==> EntryOk(r, a, b, c, n, i, j)
  }

  lemma ProductIsUnique<T>(r: Arith<T>, a: seq<T>, b: seq<T>, c: seq<T>, c': seq<T>, n: nat)
    requires IsProduct(r, a, b, c, n) && IsProduct(r, a, b, c', n)
    ensures c == c'
  {
    forall p | 0 <= p < n * n ensures c[p] == c'[p] {
      var i, j := IndexSurjective(p, n);
      assert EntryOk(r, a, b, c, n, i, j) && EntryOk(r, a, b, c', n, i, j);
    }
  }

  // ---- the product at the positions of the arrays

  lemma PositionFits(i: nat, j: nat, n: nat)
    requires i < n && j < n
    ensures i * n + j < n * n
  {
    RowsFit(i + 1, n, n);
    assert (i + 1) * n == i * n + n;
  }

  /** The left fold, over k ascending, of `A[i*N + k] * B[k*N + j]`. */
  function Fold<T>(r: Arith<T>, a: seq<T>, b: seq<T>, n: nat, i: nat, j: nat, k: nat): T
    requires |a| == n * n && |b| == n * n && i < n && j < n && k <= n
  {
    if k == 0 then r.zero
    else
      PositionFits(i, k - 1, n);
      PositionFits(k - 1, j, n);
      (r.add)(Fold(r, a, b, n, i, j, k - 1), (r.mul)(a[i * n + (k - 1)], b[(k - 1) * n + j]))
  }

  ghost predicate FoldedAt<T>(r: Arith<T>, a: seq<T>, b: seq<T>, c: seq<T>, n: nat, i: nat, j: nat)
    requires |a| == n * n && |b| == n * n && |c| == n * n && i < n && j < n
  {
    PositionFits(i, j, n);
    c[i * n + j] == Fold(r, a, b, n, i, j, n)
  }

  /** `C[i*N + j]` is the sum of the products of row i and column j, for all i and j. */
  ghost predicate Multiplied<T>(r: Arith<T>, a: seq<T>, b: seq<T>, c: seq<T>, n: nat) {
    && |a| == n * n && |b| == n * n && |c| == n * n
    && forall i: nat, j: nat {:trigger FoldedAt(r, a, b, c, n, i, j)} :: i < n && j < n ==>
      FoldedAt(r, a, b, c, n, i, j)
  }

  lemma {:induction false} DotIsFold<T>(r: Arith<T>, a: seq<T>, b: seq<T>, n: nat, i: nat, j: nat, k: nat)
    requires |a| == n * n && |b| == n * n && i < n && j < n && k <= n
    ensures Dot(r, a, b, n, i, j, k) == Fold(r, a, b, n, i, j, k)
    decreases k
  {
    if k > 0 { DotIsFold(r, a, b, n, i, j, k - 1); }
  }

  lemma ProductIsMultiplied<T>(r: Arith<T>, a: seq<T>, b: seq<T>, c: seq<T>, n: nat)
    requires IsProduct(r, a, b, c, n)
    ensures Multiplied(r, a, b, c, n)
  {
    forall i: nat, j: nat | i < n && j < n ensures FoldedAt(r, a, b, c, n, i, j) {
      assert EntryOk(r, a, b, c, n, i, j);
      DotIsFold(r, a, b, n, i, j, n);
    }
  }

  // ---- how far each entry has got

  /** The six loop counters of the tiled order; the untiled order is one tile. */
  datatype Progress = Progress(block: nat, ii: nat, kk: nat, jj: nat, i: nat, k: nat, j: nat)

  /** How many products the entry (i, j) has accumulated. */
  function Steps(p: Progress, n: nat, i: nat, j: nat): nat {
    if i < p.ii then n
    else if i >= p.ii + p.block then 0
    else if j < p.jj then p.kk + p.block
    else if j >= p.jj + p.block then p.kk
    else if i < p.i then p.kk + p.block
    else if i > p.i then p.kk
    else if j < p.j then p.k + 1
    else p.k
  }

  ghost predicate CellOk<T>(r: Arith<T>, a: seq<T>, b: seq<T>, c: seq<T>, n: nat, p: Progress, i: nat, j: nat)
    requires |a| == n * n && |b| == n * n && |c| == n * n && i < n && j < n
  {
    Steps(p, n, i, j) <= n && c[Index(i, j, n)] == Dot(r, a, b, n, i, j, Steps(p, n, i, j))
  }

  ghost predicate Reached<T>(r: Arith<T>, a: seq<T>, b: seq<T>, c: seq<T>, n: nat, p: Progress) {
    && |a| == n * n && |b| == n * n && |c| == n * n
    && forall i: nat, j: nat {:trigger CellOk(r, a, b, c, n, p, i, j)} :: i < n && j < n ==>
      CellOk(r, a, b, c, n, p, i, j)
  }

  /** One `C[i*N + j] += a * B[k*N + j]`. */
  lemma OneProduct<T>(r: Arith<T>, a: seq<T>, b: seq<T>, c: seq<T>, n: nat, p: Progress)
    requires Reached(r, a, b, c, n, p) && p.i < n && p.j < n && p.k < n
    requires p.ii <= p.i < p.ii + p.block && p.kk <= p.k < p.kk + p.block && p.jj <= p.j < p.jj + p.block
    ensures Reached(r, a, b,
      c[Index(p.i, p.j, n) :=
      (r.add)(c[Index(p.i, p.j, n)], (r.mul)(a[Index(p.i, p.k, n)], b[Index(p.k, p.j, n)]))], n, p.(j := p.j + 1))
  {
    var c' := c[Index(p.i, p.j, n) :=
      (r.add)(c[Index(p.i, p.j, n)], (r.mul)(a[Index(p.i, p.k, n)], b[Index(p.k, p.j, n)]))];
    var p' := p.(j := p.j + 1);
    forall i: nat, j: nat | i < n && j < n ensures CellOk(r, a, b, c', n, p', i, j) {
      assert CellOk(r, a, b, c, n, p, i, j);
      if Index(i, j, n) == Index(p.i, p.j, n) { IndexInjective(i, j, p.i, p.j, n); }
    }
  }

  /** The end of one loop is the start of the next round of the loop around it. */
  lemma SameSteps<T>(r: Arith<T>, a: seq<T>, b: seq<T>, c: seq<T>, n: nat, p: Progress, p': Progress)
    requires Reached(r, a, b, c, n, p)
    requires forall i: nat, j: nat {:trigger Steps(p', n, i, j)} :: i < n && j < n ==>
      Steps(p', n, i, j) == Steps(p, n, i, j)
    ensures Reached(r, a, b, c, n, p')
  {
    forall i: nat, j: nat | i < n && j < n ensures CellOk(r, a, b, c, n, p', i, j) {
      assert CellOk(r, a, b, c, n, p, i, j);
    }
  }

  lemma StartsAtZero<T>(r: Arith<T>, a: seq<T>, b: seq<T>, c: seq<T>, n: nat, block: nat)
    requires |a| == n * n && |b| == n * n && |c| == n * n && forall x :: 0 <= x < |c| ==> c[x] == r.zero
    ensures Reached(r, a, b, c, n, Progress(block, 0, 0, 0, 0, 0, 0))
  {
    var p := Progress(block, 0, 0, 0, 0, 0, 0);
    forall i: nat, j: nat | i < n && j < n ensures CellOk(r, a, b, c, n, p, i, j) {}
  }

  lemma EndsWithProduct<T>(r: Arith<T>, a: seq<T>, b: seq<T>, c: seq<T>, n: nat, p: Progress)
    requires Reached(r, a, b, c, n, p) && p.ii >= n
    ensures IsProduct(r, a, b, c, n)
  {
    forall i: nat, j: nat | i < n && j < n ensures EntryOk(r, a, b, c, n, i, j) {
      assert CellOk(r, a, b, c, n, p, i, j);
    }
  }

  method Zero<T>(r: Arith<T>, c: array<T>)
    modifies c
    ensures forall x :: 0 <= x < c.Length ==> c[x] == r.zero
  {
    for x := 0 to c.Length
      invariant forall y :: 0 <= y < x ==> c[y] == r.zero
    {
      c[x] := r.zero;
    }
  }

  method AddProduct<T>(r: Arith<T>, a: seq<T>, b: seq<T>, c: array<T>, n: nat, x: T, ghost p: Progress, i: nat,
      k: nat, j: nat)
    requires c.Length == n * n && Reached(r, a, b, c[..], n, p) && p.i == i < n && p.j == j < n && p.k == k < n
      && x == a[Index(i, k, n)]
    requires p.ii <= p.i < p.ii + p.block && p.kk <= p.k < p.kk + p.block && p.jj <= p.j < p.jj + p.block
    modifies c
    ensures Reached(r, a, b, c[..], n, p.(j := p.j + 1))
  {
    OneProduct(r, a, b, c[..], n, p);
    ghost var was := c[..];
    c[Index(i, j, n)] := (r.add)(c[Index(i, j, n)], (r.mul)(x, b[Index(k, j, n)]));
    assert c[..] == was[Index(i, j, n) := (r.add)(was[Index(i, j, n)], (r.mul)(x, b[Index(k, j, n)]))];
  }

  /** `mul_reordered` */
  method MulReordered<T>(r: Arith<T>, a: seq<T>, b: seq<T>, c: array<T>, n: nat)
    requires |a| == n * n && |b| == n * n && c.Length == n * n
    modifies c
    ensures IsProduct(r, a, b, c[..], n) && Multiplied(r, a, b, c[..], n)
  {
    hide Reached, IsProduct, Index, Multiplied;
    Zero(r, c);
    StartsAtZero(r, a, b, c[..], n, n);
    for i := 0 to n
      invariant Reached(r, a, b, c[..], n, Progress(n, 0, 0, 0, i, 0, 0))
    {
      for k := 0 to n
        invariant Reached(r, a, b, c[..], n, Progress(n, 0, 0, 0, i, k, 0))
      {
        var x := a[Index(i, k, n)];
        for j := 0 to n
          invariant Reached(r, a, b, c[..], n, Progress(n, 0, 0, 0, i, k, j))
        {
          AddProduct(r, a, b, c, n, x, Progress(n, 0, 0, 0, i, k, j), i, k, j);
        }
        SameSteps(r, a, b, c[..], n, Progress(n, 0, 0, 0, i, k, n), Progress(n, 0, 0, 0, i, k + 1, 0));
      }
      SameSteps(r, a, b, c[..], n, Progress(n, 0, 0, 0, i, n, 0), Progress(n, 0, 0, 0, i + 1, 0, 0));
    }
    SameSteps(r, a, b, c[..], n, Progress(n, 0, 0, 0, n, 0, 0), Progress(n, n, 0, 0, 0, 0, 0));
    EndsWithProduct(r, a, b, c[..], n, Progress(n, n, 0, 0, 0, 0, 0));
    ProductIsMultiplied(r, a, b, c[..], n);
  }

  /** The three inner loops of `mul_tiled`. */
  method MulTile<T>(r: Arith<T>, a: seq<T>, b: seq<T>, c: array<T>, n: nat, block: nat, ii: nat, kk: nat, jj: nat)
    requires ii + block <= n && kk + block <= n && jj + block <= n && c.Length == n * n
    requires Reached(r, a, b, c[..], n, Progress(block, ii, kk, jj, ii, kk, jj))
    modifies c
    ensures Reached(r, a, b, c[..], n, Progress(block, ii, kk, jj + block, ii, kk, jj + block))
  {
    hide Reached, Index;
    ReachedSizes(r, a, b, c[..], n, Progress(block, ii, kk, jj, ii, kk, jj));
    for i := ii to ii + block
      invariant Reached(r, a, b, c[..], n, Progress(block, ii, kk, jj, i, kk, jj))
    {
      for k := kk to kk + block
        invariant Reached(r, a, b, c[..], n, Progress(block, ii, kk, jj, i, k, jj))
      {
        var x := a[Index(i, k, n)];
        for j := jj to jj + block
          invariant Reached(r, a, b, c[..], n, Progress(block, ii, kk, jj, i, k, j))
        {
          AddProduct(r, a, b, c, n, x, Progress(block, ii, kk, jj, i, k, j), i, k, j);
        }
        SameSteps(r, a, b, c[..], n, Progress(block, ii, kk, jj, i, k, jj + block),
          Progress(block, ii, kk, jj, i, k + 1, jj));
      }
      SameSteps(r, a, b, c[..], n, Progress(block, ii, kk, jj, i, kk + block, jj),
        Progress(block, ii, kk, jj, i + 1, kk, jj));
    }
    SameSteps(r, a, b, c[..], n, Progress(block, ii, kk, jj, ii + block, kk, jj),
      Progress(block, ii, kk, jj + block, ii, kk, jj + block));
  }

  lemma ReachedSizes<T>(r: Arith<T>, a: seq<T>, b: seq<T>, c: seq<T>, n: nat, p: Progress)
    requires Reached(r, a, b, c, n, p)
    ensures |a| == |b| == |c| == n * n
  {
  }

  ghost function Times(t: nat, block: nat): nat { t * block }

  /** `mul_tiled`, for a block size that divides the matrix size. */
  method MulTiled<T>(r: Arith<T>, a: seq<T>, b: seq<T>, c: array<T>, n: nat, block: nat, ghost tiles: nat)
    requires |a| == n * n && |b| == n * n && c.Length == n * n && block > 0 && n == Times(tiles, block)
    modifies c
    ensures IsProduct(r, a, b, c[..], n) && Multiplied(r, a, b, c[..], n)
  {
    hide Reached, IsProduct, Index, Times, Multiplied;
    NoTiles(block);
    Zero(r, c);
    StartsAtZero(r, a, b, c[..], n, block);
    var ii := 0;
    ghost var it := 0;
    while ii < n
      invariant ii == Times(it, block) <= n && it <= tiles
        && Reached(r, a, b, c[..], n, Progress(block, ii, 0, 0, ii, 0, 0))
      decreases tiles - it
    {
      OneMore(it, tiles, block);
      var kk := 0;
      ghost var kt := 0;
      while kk < n
        invariant kk == Times(kt, block) <= n && kt <= tiles
          && Reached(r, a, b, c[..], n, Progress(block, ii, kk, 0, ii, kk, 0))
        decreases tiles - kt
      {
        OneMore(kt, tiles, block);
        var jj := 0;
        ghost var jt := 0;
        while jj < n
          invariant jj == Times(jt, block) <= n && jt <= tiles
            && Reached(r, a, b, c[..], n, Progress(block, ii, kk, jj, ii, kk, jj))
          decreases tiles - jt
        {
          OneMore(jt, tiles, block);
          MulTile(r, a, b, c, n, block, ii, kk, jj);
          jj, jt := jj + block, jt + 1;
        }
        SameSteps(r, a, b, c[..], n, Progress(block, ii, kk, jj, ii, kk, jj),
          Progress(block, ii, kk + block, 0, ii, kk + block, 0));
        kk, kt := kk + block, kt + 1;
      }
      SameSteps(r, a, b, c[..], n, Progress(block, ii, kk, 0, ii, kk, 0),
        Progress(block, ii + block, 0, 0, ii + block, 0, 0));
      ii, it := ii + block, it + 1;
    }
    EndsWithProduct(r, a, b, c[..], n, Progress(block, ii, 0, 0, ii, 0, 0));
    ProductIsMultiplied(r, a, b, c[..], n);
  }

  lemma NoTiles(block: nat)
    ensures Times(0, block) == 0
  {
  }

  lemma OneMore(t: nat, tiles: nat, block: nat)
    requires Times(t, block) < Times(tiles, block) && block > 0
    ensures t < tiles && Times(t + 1, block) == Times(t, block) + block <= Times(tiles, block)
  {
    if t >= tiles { RowsFit(tiles, t, block); }
    RowsFit(t + 1, tiles, block);
  }

  /** `mul_naive` */
  method MulNaive<T>(r: Arith<T>, a: seq<T>, b: seq<T>, c: array<T>, n: nat)
    requires |a| == n * n && |b| == n * n && c.Length == n * n
    modifies c
    ensures IsProduct(r, a, b, c[..], n) && Multiplied(r, a, b, c[..], n)
  {
    hide Index, Multiplied;
    for i := 0 to n
      invariant forall i', j' {:trigger Index(i', j', n)} :: 0 <= i' < i && 0 <= j' < n ==>
        c[Index(i', j', n)] == Dot(r, a, b, n, i', j', n)
    {
      for j := 0 to n
        invariant forall i', j' {:trigger Index(i', j', n)} :: 0 <= i' < i && 0 <= j' < n ==>
          c[Index(i', j', n)] == Dot(r, a, b, n, i', j', n)
        invariant forall j' {:trigger Index(i, j', n)} :: 0 <= j' < j ==>
          c[Index(i, j', n)] == Dot(r, a, b, n, i, j', n)
      {
        var sum := r.zero;
        for k := 0 to n
          invariant sum == Dot(r, a, b, n, i, j, k)
        {
          sum := (r.add)(sum, (r.mul)(a[Index(i, k, n)], b[Index(k, j, n)]));
        }
        forall i': nat, j': nat | i' < n && j' < n && Index(i', j', n) == Index(i, j, n) ensures i' == i && j' == j {
          IndexInjective(i', j', i, j, n);
        }
        c[Index(i, j, n)] := sum;
      }
    }
    forall i: nat, j: nat | i < n && j < n ensures EntryOk(r, a, b, c[..], n, i, j) {
      assert c[Index(i, j, n)] == Dot(r, a, b, n, i, j, n);
    }
    ProductIsMultiplied(r, a, b, c[..], n);
  }

  /** The three orders fill the matrix with the same values. */
  method SameResults<T>(r: Arith<T>, a: seq<T>, b: seq<T>, c1: array<T>, c2: array<T>, c3: array<T>, n: nat,
      block: nat, ghost tiles: nat)
    requires |a| == n * n && |b| == n * n && c1.Length == n * n && c2.Length == n * n && c3.Length == n * n
    requires c1 != c2 && c2 != c3 && c1 != c3 && block > 0 && n == Times(tiles, block)
    modifies c1, c2, c3
    ensures c1[..] == c2[..] == c3[..] && Multiplied(r, a, b, c1[..], n)
  {
    hide IsProduct, Multiplied;
    MulNaive(r, a, b, c1, n);
    MulReordered(r, a, b, c2, n);
    MulTiled(r, a, b, c3, n, block, tiles);
    ProductIsUnique(r, a, b, c1[..], c2[..], n);
    ProductIsUnique(r, a, b, c2[..], c3[..], n);
  }
}
