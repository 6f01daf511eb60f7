/** Powers of two and the bitwise operators the programs apply to sizes and offsets.
    The operators are defined bit by bit, as the hardware computes them; the lemmas give
    their arithmetic meaning for the masks and block sizes the programs use. */
module Bits {

  function Pow2(k: nat): (r: nat)
    ensures r >= 1
  {
    if k == 0 then 1 else 2 * Pow2(k - 1)
  }

  /** Bitwise AND. */
  function And(a: nat, b: nat): nat
    decreases a + b
  {
    if a == 0 || b == 0 then 0
    else 2 * And(a / 2, b / 2) + (a % 2) * (b % 2)
  }

  /** Bitwise XOR. */
  function Xor(a: nat, b: nat): nat
    decreases a + b
  {
    if a == 0 then b
    else if b == 0 then a
    else 2 * Xor(a / 2, b / 2) + (a % 2 + b % 2) % 2
  }

  lemma AndOdd(h: nat, m: nat)
    ensures And(h, 2 * m + 1) == 2 * And(h / 2, m) + h % 2
  {
    assert (2 * m + 1) / 2 == m && (2 * m + 1) % 2 == 1;
  }

  lemma DoubleQuotient(h: nat, q: nat, p: nat, r: nat)
    requires h / 2 == q * p + r
    ensures h == q * (2 * p) + (2 * r + h % 2)
  {
    assert q * (2 * p) == 2 * (q * p);
  }

  lemma {:induction false} LowBits(h: nat, k: nat) returns (q: nat)
    ensures And(h, Pow2(k) - 1) < Pow2(k) && h == q * Pow2(k) + And(h, Pow2(k) - 1)
    decreases k
  {
    if k == 0 {
      q := h;
    } else {
      var p := Pow2(k - 1);
      q := LowBits(h / 2, k - 1);
      AndOdd(h, p - 1);
      DoubleQuotient(h, q, p, And(h / 2, p - 1));
    }
  }

  /** `h & (capacity - 1)` is `h % capacity` when the capacity is a power of two. */
  lemma AndMask(h: nat, k: nat)
    ensures And(h, Pow2(k) - 1) == h % Pow2(k)
  {
    var q := LowBits(h, k);
    QuotientUnique(h, Pow2(k), q, And(h, Pow2(k) - 1));
  }

  /** The remainder by an even number, one bit at a time. */
  lemma DivModOfDouble(h: nat, p: nat)
    requires p > 0
    ensures h % (2 * p) == 2 * ((h / 2) % p) + h % 2
    ensures h / (2 * p) == (h / 2) / p
  {
    var q, r := (h / 2) / p, (h / 2) % p;
    DoubleQuotient(h, q, p, r);
    QuotientUnique(h, 2 * p, q, 2 * r + h % 2);
  }

  lemma QuotientUnique(x: int, d: nat, q: int, r: nat)
    requires d > 0 && x == q * d + r && r < d
    ensures x / d == q && x % d == r
  {
    var q', r' := x / d, x % d;
    assert x == q' * d + r';
    GapBound(q, q', d, r, r');
  }

  lemma GapBound(q: int, q': int, d: nat, r: nat, r': nat)
    requires q * d + r == q' * d + r' && r < d && r' < d
    ensures q == q' && r == r'
  {
    if q' < q {
      MulGap(q', q, d);
    } else if q < q' {
      MulGap(q, q', d);
    }
  }

  lemma MulGap(a: int, b: int, d: nat)
    requires a < b
    ensures a * d + d <= b * d
  {
    assert b * d == a * d + (b - a) * d;
    assert (b - a) * d == d + (b - a - 1) * d;
  }

  lemma {:induction false} Pow2Monotone(a: nat, b: nat)
    requires a <= b
    ensures Pow2(a) <= Pow2(b)
    decreases b
  {
    if a < b { Pow2Monotone(a, b - 1); }
  }

  lemma {:induction false} Pow2Add(a: nat, b: nat)
    ensures Pow2(a + b) == Pow2(a) * Pow2(b)
    decreases b
  {
    if b > 0 { Pow2Add(a, b - 1); }
  }

  /** A larger power of two is a multiple of a smaller one. */
  lemma {:induction false} Pow2Quotient(a: nat, b: nat) returns (q: nat)
    requires a <= b
    ensures q >= 1 && Pow2(b) == q * Pow2(a)
  {
    q := Pow2(b - a);
    Pow2Add(b - a, a);
  }

  /** The low k bits are zero: `a` is a multiple of `1 << k`. */
  predicate Aligned(a: nat, k: nat) {
    k == 0 || (a % 2 == 0 && Aligned(a / 2, k - 1))
  }

  lemma {:induction false} AlignedIsMultiple(a: nat, k: nat)
    ensures Aligned(a, k) <==> a % Pow2(k) == 0
    decreases k
  {
    if k > 0 {
      AlignedIsMultiple(a / 2, k - 1);
      DivModOfDouble(a, Pow2(k - 1));
    }
  }

  /** Positions a ring's length apart share a slot. */
  lemma ModShift(p: nat, d: nat)
    requires d > 0
    ensures (p + d) % d == p % d
  {
    QuotientUnique(p + d, d, p / d + 1, p % d);
  }

  /** Counting round a ring. */
  lemma ModNext(p: nat, d: nat)
    requires d > 0
    ensures (p % d + 1) % d == (p + 1) % d
  {
    if p % d + 1 == d {
      QuotientUnique(p + 1, d, p / d + 1, 0);
      QuotientUnique(d, d, 1, 0);
    } else {
      QuotientUnique(p + 1, d, p / d, p % d + 1);
      QuotientUnique(p % d + 1, d, 0, p % d + 1);
    }
  }

  /** Positions less than a ring's length apart do not. */
  lemma ModDistinct(p: nat, q: nat, d: nat)
    requires d > 0 && p < q < p + d
    ensures p % d != q % d
  {
    var r := p % d + (q - p);
    if r < d {
      QuotientUnique(q, d, p / d, r);
    } else {
      QuotientUnique(q, d, p / d + 1, r - d);
    }
  }
}
