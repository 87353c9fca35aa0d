/** Finite sums of real-valued terms over integer ranges, with the reindexing
    facts (shift, reversal, cyclic rotation, exchange of a double sum) that the
    energy identity of the Hamiltonian rests on. */
module Sums {

  /** The sum of f(k) for lo <= k < hi; zero on an empty range. */
  function Sum(lo: int, hi: int, f: int -> real): real
    decreases hi - lo
  {
    if lo >= hi then 0.0 else Sum(lo, hi - 1, f) + f(hi - 1)
  }

  /** Sums of two term functions that agree on the range are equal. */
  lemma {:induction false} SumExt(lo: int, hi: int, f: int -> real, g: int -> real)
    requires forall k :: lo <= k < hi ==> f(k) == g(k)
    ensures Sum(lo, hi, f) == Sum(lo, hi, g)
    decreases hi - lo
  {
    if lo < hi {
      SumExt(lo, hi - 1, f, g);
    }
  }

  /** A sum whose terms all vanish is zero. */
  lemma {:induction false} SumOfZeros(lo: int, hi: int, f: int -> real)
    requires forall k :: lo <= k < hi ==> f(k) == 0.0
    ensures Sum(lo, hi, f) == 0.0
    decreases hi - lo
  {
    if lo < hi {
      SumOfZeros(lo, hi - 1, f);
    }
  }

  /** Peeling off the first term. */
  lemma {:induction false} SumFront(lo: int, hi: int, f: int -> real)
    requires lo < hi
    ensures Sum(lo, hi, f) == f(lo) + Sum(lo + 1, hi, f)
    decreases hi - lo
  {
    if lo + 1 < hi {
      SumFront(lo, hi - 1, f);
    }
  }

  /** A range splits at any point inside it. */
  lemma {:induction false} SumSplit(lo: int, mid: int, hi: int, f: int -> real)
    requires lo <= mid <= hi
    ensures Sum(lo, hi, f) == Sum(lo, mid, f) + Sum(mid, hi, f)
    decreases hi - mid
  {
    if mid < hi {
      SumSplit(lo, mid, hi - 1, f);
    }
  }

  /** Termwise addition. */
  lemma {:induction false} SumAdd(lo: int, hi: int, f: int -> real, g: int -> real, h: int -> real)
    requires forall k :: lo <= k < hi ==> h(k) == f(k) + g(k)
    ensures Sum(lo, hi, h) == Sum(lo, hi, f) + Sum(lo, hi, g)
    decreases hi - lo
  {
    if lo < hi {
      SumAdd(lo, hi - 1, f, g, h);
    }
  }

  /** A constant factor comes out of the sum. */
  lemma {:induction false} SumScale(lo: int, hi: int, c: real, f: int -> real, g: int -> real)
    requires forall k :: lo <= k < hi ==> g(k) == c * f(k)
    ensures Sum(lo, hi, g) == c * Sum(lo, hi, f)
    decreases hi - lo
  {
    if lo < hi {
      SumScale(lo, hi - 1, c, f, g);
    }
  }

  /** Reindexing by a constant offset: k |-> k + c. */
  lemma {:induction false} SumShift(lo: int, hi: int, c: int, f: int -> real, g: int -> real)
    requires forall k :: lo <= k < hi ==> g(k) == f(k + c)
    ensures Sum(lo, hi, g) == Sum(lo + c, hi + c, f)
    decreases hi - lo
  {
    if lo < hi {
      SumShift(lo, hi - 1, c, f, g);
    }
  }

  /** Reindexing by a reflection: k |-> c - k maps [lo, hi) onto [c - hi + 1, c - lo + 1). */
  lemma {:induction false} SumReverse(lo: int, hi: int, c: int, f: int -> real, g: int -> real)
    requires forall k :: lo <= k < hi ==> g(k) == f(c - k)
    ensures Sum(lo, hi, g) == Sum(c - hi + 1, c - lo + 1, f)
    decreases hi - lo
  {
    if lo < hi {
      SumReverse(lo, hi - 1, c, f, g);
      SumFront(c - hi + 1, c - lo + 1, f);
    }
  }

  /** Reindexing by a cyclic rotation of [0, n): k |-> (k + c) mod n. */
  lemma {:induction false} SumRotate(n: int, c: int, f: int -> real, g: int -> real)
    requires 0 <= c < n
    requires forall k :: 0 <= k < n ==> g(k) == f(if k + c < n then k + c else k + c - n)
    ensures Sum(0, n, g) == Sum(0, n, f)
  {
    SumSplit(0, n - c, n, g);
    SumShift(0, n - c, c, f, g);
    SumShift(n - c, n, c - n, f, g);
    SumSplit(0, c, n, f);
  }

  /** Row i of a double-indexed family summed over its first m columns. */
  function RowSums(F: int -> int -> real, m: int): int -> real
  {
    i => Sum(0, m, F(i))
  }

  /** The family with its two indices exchanged. */
  function Transpose(F: int -> int -> real): int -> int -> real
  {
    j => i => F(i)(j)
  }

  /** The sum of F(i)(j) over 0 <= i < n and 0 <= j < m, row by row. */
  function DoubleSum(n: int, m: int, F: int -> int -> real): real
  {
    Sum(0, n, RowSums(F, m))
  }

  /** The order of a finite double sum can be exchanged. */
  lemma {:induction false} SumSwap(n: int, m: int, F: int -> int -> real)
    ensures DoubleSum(n, m, F) == DoubleSum(m, n, Transpose(F))
    decreases n
  {
    if n > 0 {
      SumSwap(n - 1, m, F);
      forall j | 0 <= j < m
        ensures RowSums(Transpose(F), n)(j) == RowSums(Transpose(F), n - 1)(j) + F(n - 1)(j)
      {
        assert Transpose(F)(j)(n - 1) == F(n - 1)(j);
      }
      SumAdd(0, m, RowSums(Transpose(F), n - 1), F(n - 1), RowSums(Transpose(F), n));
    } else {
      forall j | 0 <= j < m ensures RowSums(Transpose(F), n)(j) == 0.0 {
        assert RowSums(Transpose(F), n)(j) == Sum(0, n, Transpose(F)(j));
      }
      SumOfZeros(0, m, RowSums(Transpose(F), n));
    }
  }

  /** Double sums of term families that agree on the rectangle are equal. */
  lemma DoubleSumExt(n: int, m: int, F: int -> int -> real, G: int -> int -> real)
    requires forall i, j :: 0 <= i < n && 0 <= j < m ==> F(i)(j) == G(i)(j)
    ensures DoubleSum(n, m, F) == DoubleSum(n, m, G)
  {
    forall i | 0 <= i < n
      ensures RowSums(F, m)(i) == RowSums(G, m)(i)
    {
      SumExt(0, m, F(i), G(i));
    }
    SumExt(0, n, RowSums(F, m), RowSums(G, m));
  }

  /** The double sum of a pointwise sum of families is the sum of their double sums. */
  lemma DoubleSumAdd(n: int, m: int, F: int -> int -> real, G: int -> int -> real, H: int -> int -> real)
    requires forall i, j :: 0 <= i < n && 0 <= j < m ==> H(i)(j) == F(i)(j) + G(i)(j)
    ensures DoubleSum(n, m, H) == DoubleSum(n, m, F) + DoubleSum(n, m, G)
  {
    forall i | 0 <= i < n
      ensures RowSums(H, m)(i) == RowSums(F, m)(i) + RowSums(G, m)(i)
    {
      SumAdd(0, m, F(i), G(i), H(i));
    }
    SumAdd(0, n, RowSums(F, m), RowSums(G, m), RowSums(H, m));
  }

  /** A double sum is the sum of its row sums, whatever family names them. */
  lemma DoubleSumByRows(n: int, m: int, F: int -> int -> real, r: int -> real)
    requires forall i :: 0 <= i < n ==> r(i) == Sum(0, m, F(i))
    ensures DoubleSum(n, m, F) == Sum(0, n, r)
  {
    forall i | 0 <= i < n
      ensures RowSums(F, m)(i) == r(i)
    {
    }
    SumExt(0, n, RowSums(F, m), r);
  }
}
