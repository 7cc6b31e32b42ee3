/** Finite sums of reals over integer ranges, and the laws the linear algebra of the filter rests on. */
module Sums {

  /** f(lo) + ... + f(hi-1); zero on an empty range. */
  function Sum(f: int -> real, lo: int, hi: int): real
    decreases hi - lo
  {
    if hi <= lo then 0.0 else Sum(f, lo, hi - 1) + f(hi - 1)
  }

  function RowOf(f: (int, int) -> real, i: int): int -> real { j => f(i, j) }

  function ColOf(f: (int, int) -> real, j: int): int -> real { i => f(i, j) }

  function RowSums(f: (int, int) -> real, n: int): int -> real { i => Sum(RowOf(f, i), 0, n) }

  function ColSums(f: (int, int) -> real, m: int): int -> real { j => Sum(ColOf(f, j), 0, m) }

  lemma {:induction false} SumEq(f: int -> real, g: int -> real, lo: int, hi: int)
    requires forall i :: lo <= i < hi ==> f(i) == g(i)
    ensures Sum(f, lo, hi) == Sum(g, lo, hi)
    decreases hi - lo
  {
    if lo < hi { SumEq(f, g, lo, hi - 1); }
  }

  lemma {:induction false} SumSplit(f: int -> real, lo: int, mid: int, hi: int)
    requires lo <= mid <= hi
    ensures Sum(f, lo, hi) == Sum(f, lo, mid) + Sum(f, mid, hi)
    decreases hi - mid
  {
    if mid < hi { SumSplit(f, lo, mid, hi - 1); }
  }

  /** The first term can be peeled off as well as the last. */
  lemma SumFirst(f: int -> real, lo: int, hi: int)
    requires lo < hi
    ensures Sum(f, lo, hi) == f(lo) + Sum(f, lo + 1, hi)
  {
    SumSplit(f, lo, lo + 1, hi);
    assert Sum(f, lo, lo + 1) == Sum(f, lo, lo) + f(lo);
  }

  lemma {:induction false} SumAdd(h: int -> real, f: int -> real, g: int -> real, lo: int, hi: int)
    requires forall i :: lo <= i < hi ==> h(i) == f(i) + g(i)
    ensures Sum(h, lo, hi) == Sum(f, lo, hi) + Sum(g, lo, hi)
    decreases hi - lo
  {
    if lo < hi { SumAdd(h, f, g, lo, hi - 1); }
  }

  lemma {:induction false} SumScale(h: int -> real, c: real, f: int -> real, lo: int, hi: int)
    requires forall i :: lo <= i < hi ==> h(i) == c * f(i)
    ensures Sum(h, lo, hi) == c * Sum(f, lo, hi)
    decreases hi - lo
  {
    if lo < hi {
      SumScale(h, c, f, lo, hi - 1);
      assert c * (Sum(f, lo, hi - 1) + f(hi - 1)) == c * Sum(f, lo, hi - 1) + c * f(hi - 1);
    }
  }

  lemma {:induction false} SumConst(f: int -> real, c: real, lo: int, hi: int)
    requires lo <= hi
    requires forall i :: lo <= i < hi ==> f(i) == c
    ensures Sum(f, lo, hi) == (hi - lo) as real * c
    decreases hi - lo
  {
    if lo < hi {
      SumConst(f, c, lo, hi - 1);
      assert (hi - lo) as real == (hi - 1 - lo) as real + 1.0;
    }
  }

  /** A sum with one nonzero term is that term. */
  lemma SumSingle(f: int -> real, k: int, lo: int, hi: int)
    requires lo <= k < hi
    requires forall i :: lo <= i < hi && i != k ==> f(i) == 0.0
    ensures Sum(f, lo, hi) == f(k)
  {
    SumSplit(f, lo, k, hi);
    SumFirst(f, k, hi);
    SumConst(f, 0.0, lo, k);
    SumConst(f, 0.0, k + 1, hi);
  }

  lemma {:induction false} SumMonotone(f: int -> real, g: int -> real, lo: int, hi: int)
    requires forall i :: lo <= i < hi ==> f(i) <= g(i)
    ensures Sum(f, lo, hi) <= Sum(g, lo, hi)
    decreases hi - lo
  {
    if lo < hi { SumMonotone(f, g, lo, hi - 1); }
  }

  /** Reading a range backwards does not change its sum. */
  lemma {:induction false} SumReverse(f: int -> real, g: int -> real, lo: int, hi: int, s: int)
    requires forall i :: lo <= i < hi ==> g(s - i) == f(i)
    ensures Sum(g, s - hi + 1, s - lo + 1) == Sum(f, lo, hi)
    decreases hi - lo
  {
    if lo < hi {
      SumReverse(f, g, lo, hi - 1, s);
      SumFirst(g, s - hi + 1, s - lo + 1);
      assert g(s - (hi - 1)) == f(hi - 1);
    }
  }

  /** Summing a shifted function is summing over a shifted range. */
  lemma {:induction false} SumShift(f: int -> real, g: int -> real, lo: int, hi: int, d: int)
    requires forall i :: lo <= i < hi ==> g(i) == f(i + d)
    ensures Sum(g, lo, hi) == Sum(f, lo + d, hi + d)
    decreases hi - lo
  {
    if lo < hi { SumShift(f, g, lo, hi - 1, d); }
  }

  /** Finite Fubini: rows first or columns first. */
  lemma {:induction false} SumSwap(f: (int, int) -> real, m: nat, n: nat)
    ensures Sum(RowSums(f, n), 0, m) == Sum(ColSums(f, m), 0, n)
    decreases m
  {
    if m == 0 {
      SumConst(ColSums(f, 0), 0.0, 0, n);
    } else {
      SumSwap(f, m - 1, n);
      SumAdd(ColSums(f, m), ColSums(f, m - 1), RowOf(f, m - 1), 0, n);
    }
  }

  /** b(0) <= b(1) <= ... <= b(p). */
  ghost predicate Ascending(b: int -> int, p: nat)
  {
    forall r, s :: 0 <= r <= s <= p ==> b(r) <= b(s)
  }

  /** If g(r) is the sum of f over block r, the block sums add up to the sum over the whole range. */
  lemma {:induction false} SumBlocks(f: int -> real, g: int -> real, b: int -> int, p: nat)
    requires Ascending(b, p)
    requires forall r :: 0 <= r < p ==> g(r) == Sum(f, b(r), b(r + 1))
    ensures Sum(g, 0, p) == Sum(f, b(0), b(p))
    decreases p
  {
    if p == 0 {
      assert Sum(g, 0, 0) == 0.0 == Sum(f, b(0), b(0));
    } else {
      SumBlocks(f, g, b, p - 1);
      SumSplit(f, b(0), b(p - 1), b(p));
      calc {
        Sum(g, 0, p);
        Sum(g, 0, p - 1) + g(p - 1);
        { assert g(p - 1) == Sum(f, b(p - 1), b(p)); }
        Sum(f, b(0), b(p - 1)) + Sum(f, b(p - 1), b(p));
      }
    }
  }

  /** Sum of all entries of a sequence. */
  function Entries(s: seq<real>): int -> real { i => if 0 <= i < |s| then s[i] else 0.0 }

  function Total(s: seq<real>): real { Sum(Entries(s), 0, |s|) }
}
