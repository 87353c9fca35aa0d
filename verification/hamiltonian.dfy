/** The diagonal of the Sherrington-Kirkpatrick zz Hamiltonian (JZZ_SK_ME and JZZ_SK of
    tfim.py). For each basis state it sums, shift by shift, the reduced couplings
    G[shift-1][i] times spin i times the spin `shift` places behind it; for an even
    number of spins the antipodal shift is weighted 1/2, because its row holds each
    antipodal coupling twice. The central result is that this equals the pair energy
    sum over a < b of J[a][b] s_a s_b of the dense matrix J = makeJij(G). */
module Hamiltonian {
  import opened Sums
  import opened IsingBasis
  import opened Couplings

  /** Spin k as a real, 0 outside the vector. */
  function Sp(s: seq<int>, k: int): real
  {
    if 0 <= k < |s| then s[k] as real else 0.0
  }

  /** M[a][b], 0 outside the matrix. */
  function Entry(M: seq<seq<real>>, a: int, b: int): real
  {
    if 0 <= a < |M| && 0 <= b < |M[a]| then M[a][b] else 0.0
  }

  /** The index k - d brought back into [0, n) for -n <= k - d < n. */
  function Wrap(x: int, n: int): int
  {
    if x < 0 then x + n else x
  }

  // ---------------------------------------------------------------------------
  // The pair energy of a dense coupling matrix
  // ---------------------------------------------------------------------------

  /** J[a][b] s_a s_b. */
  function Coupling(J: seq<seq<real>>, s: seq<int>, a: int, b: int): real
  {
    Entry(J, a, b) * Sp(s, a) * Sp(s, b)
  }

  /** The family J[a][b] s_a s_b over all ordered pairs. */
  function Term(J: seq<seq<real>>, s: seq<int>): int -> int -> real
  {
    a => b => Coupling(J, s, a, b)
  }

  /** The same family kept only above the diagonal. */
  function Upper(J: seq<seq<real>>, s: seq<int>): int -> int -> real
  {
    a => b => if a < b then Coupling(J, s, a, b) else 0.0
  }

  /** The same family kept only below the diagonal. */
  function Lower(J: seq<seq<real>>, s: seq<int>): int -> int -> real
  {
    a => b => if a > b then Coupling(J, s, a, b) else 0.0
  }

  /** sum over a < b < n of J[a][b] s_a s_b: each coupled pair counted once. */
  function PairEnergy(J: seq<seq<real>>, s: seq<int>, n: nat): real
  {
    DoubleSum(n, n, Upper(J, s))
  }

  /** With symmetric couplings and no self-coupling, the sum over all ordered pairs
      counts every pair twice. */
  lemma FullIsTwicePair(J: seq<seq<real>>, s: seq<int>, n: nat)
    requires Square(J, n) && Symmetric(J, n) && ZeroDiagonal(J, n)
    ensures DoubleSum(n, n, Term(J, s)) == 2.0 * PairEnergy(J, s, n)
  {
    var T, U, L := Term(J, s), Upper(J, s), Lower(J, s);
    forall a, b | 0 <= a < n && 0 <= b < n
      ensures T(a)(b) == U(a)(b) + L(a)(b)
      ensures L(a)(b) == Transpose(U)(a)(b)
    {
      assert Entry(J, a, b) == Entry(J, b, a);
      if a == b {
        assert Entry(J, a, a) == 0.0;
      }
    }
    DoubleSumAdd(n, n, U, L, T);
    DoubleSumExt(n, n, L, Transpose(U));
    SumSwap(n, n, U);
  }

  // ---------------------------------------------------------------------------
  // Regrouping the ordered pairs by their cyclic distance
  // ---------------------------------------------------------------------------

  /** The coupling term of spin k with the spin d places behind it on the ring. */
  function DistanceTerm(J: seq<seq<real>>, s: seq<int>, n: int, k: int, d: int): real
  {
    Coupling(J, s, k, Wrap(k - d, n))
  }

  /** The band d: for each spin k, its term with the spin d places behind it. */
  function Band(J: seq<seq<real>>, s: seq<int>, n: int, d: int): int -> real
  {
    k => DistanceTerm(J, s, n, k, d)
  }

  /** d => the sum of band d. */
  function BandSums(J: seq<seq<real>>, s: seq<int>, n: int): int -> real
  {
    d => Sum(0, n, Band(J, s, n, d))
  }

  /** Row a of the ordered-pair family, indexed by distance instead of column. */
  function ByDistance(J: seq<seq<real>>, s: seq<int>, n: int): int -> int -> real
  {
    a => d => DistanceTerm(J, s, n, a, d)
  }

  /** d => a - d (mod n) runs through every column once, so re-indexing a row by
      distance keeps its sum. */
  lemma RowByDistance(J: seq<seq<real>>, s: seq<int>, n: int, a: int)
    requires 0 <= a < n
    ensures Sum(0, n, Term(J, s)(a)) == Sum(0, n, ByDistance(J, s, n)(a))
  {
    var f := Term(J, s)(a);
    var r := ByDistance(J, s, n)(a);
    var q := e => r(n - 1 - e);
    SumReverse(0, n, n - 1, r, q);
    forall e | 0 <= e < n
      ensures q(e) == f(if e + a + 1 < n then e + a + 1 else e + a + 1 - n)
    {
      assert q(e) == Coupling(J, s, a, Wrap(a - (n - 1 - e), n));
      assert Wrap(a - (n - 1 - e), n) == if e + a + 1 < n then e + a + 1 else e + a + 1 - n;
    }
    if a == n - 1 {
      SumExt(0, n, q, f);
    } else {
      SumRotate(n, a + 1, f, q);
    }
  }

  /** Column d of the family re-indexed by distance is band d. */
  lemma ColumnsAreBands(J: seq<seq<real>>, s: seq<int>, n: nat)
    ensures DoubleSum(n, n, Transpose(ByDistance(J, s, n))) == Sum(0, n, BandSums(J, s, n))
  {
    var C := Transpose(ByDistance(J, s, n));
    forall d | 0 <= d < n
      ensures BandSums(J, s, n)(d) == Sum(0, n, C(d))
    {
      forall k | 0 <= k < n
        ensures C(d)(k) == Band(J, s, n, d)(k)
      {
      }
      SumExt(0, n, C(d), Band(J, s, n, d));
    }
    DoubleSumByRows(n, n, C, BandSums(J, s, n));
  }

  /** The sum over all ordered pairs is the sum of the n bands. */
  lemma FullByBands(J: seq<seq<real>>, s: seq<int>, n: nat)
    ensures DoubleSum(n, n, Term(J, s)) == Sum(0, n, BandSums(J, s, n))
  {
    var T, B := Term(J, s), ByDistance(J, s, n);
    forall a | 0 <= a < n
      ensures RowSums(B, n)(a) == Sum(0, n, T(a))
    {
      RowByDistance(J, s, n, a);
    }
    DoubleSumByRows(n, n, T, RowSums(B, n));
    SumSwap(n, n, B);
    ColumnsAreBands(J, s, n);
  }

  /** Band n - d is band d read from the other end of each coupling. */
  lemma BandMirror(J: seq<seq<real>>, s: seq<int>, n: nat, d: int)
    requires Square(J, n) && Symmetric(J, n) && 1 <= d < n
    ensures BandSums(J, s, n)(n - d) == BandSums(J, s, n)(d)
  {
    var f := Band(J, s, n, d);
    var g := Band(J, s, n, n - d);
    forall k | 0 <= k < n
      ensures g(k) == f(if k + d < n then k + d else k + d - n)
    {
      var m := if k + d < n then k + d else k + d - n;
      assert Wrap(k - (n - d), n) == m;
      assert Wrap(m - d, n) == k;
      assert g(k) == Coupling(J, s, k, m);
      assert f(m) == Coupling(J, s, m, k);
      assert Entry(J, k, m) == J[k][m] == J[m][k] == Entry(J, m, k);
    }
    SumRotate(n, d, f, g);
  }

  /** Band 0 holds the self-couplings only. */
  lemma BandZero(J: seq<seq<real>>, s: seq<int>, n: nat)
    requires Square(J, n) && ZeroDiagonal(J, n)
    ensures BandSums(J, s, n)(0) == 0.0
  {
    forall k | 0 <= k < n
      ensures Band(J, s, n, 0)(k) == 0.0
    {
      assert Wrap(k - 0, n) == k;
      assert Band(J, s, n, 0)(k) == Coupling(J, s, k, k);
      assert Entry(J, k, k) == 0.0;
    }
    SumOfZeros(0, n, Band(J, s, n, 0));
  }

  /** A sum over 0 .. n-1 whose term at 0 vanishes and whose terms at d and n - d agree
      is twice its first half, plus the middle term when n is even. */
  lemma {:induction false} MirrorFold(T: int -> real, n: int)
    requires n > 0 && T(0) == 0.0
    requires forall d :: 1 <= d < n ==> T(n - d) == T(d)
    ensures Sum(0, n, T) == 2.0 * Sum(1, (n - 1) / 2 + 1, T) + (if n % 2 == 0 then T(n / 2) else 0.0)
  {
    var H := (n - 1) / 2;
    SumFront(0, n, T);
    SumSplit(1, H + 1, n, T);
    SumSplit(H + 1, n - H, n, T);
    var m := e => T(n - e);
    forall e | 1 <= e < H + 1
      ensures m(e) == T(e)
    {
      assert T(n - e) == T(e);
    }
    SumReverse(1, H + 1, n, T, m);
    SumExt(1, H + 1, m, T);
    if n % 2 == 0 {
      assert n - H == H + 2 && H + 1 == n / 2;
      SumFront(H + 1, H + 2, T);
      assert Sum(H + 2, H + 2, T) == 0.0;
    } else {
      assert n - H == H + 1;
    }
  }

  /** The pair energy is the sum of the bands d = 1 .. (n-1)/2, plus half the
      antipodal band n/2 when n is even. */
  lemma PairEnergyByBands(J: seq<seq<real>>, s: seq<int>, n: nat)
    requires Square(J, n) && Symmetric(J, n) && ZeroDiagonal(J, n)
    ensures PairEnergy(J, s, n) ==
      Sum(1, (n - 1) / 2 + 1, BandSums(J, s, n)) +
      (if n % 2 == 0 && n > 0 then 0.5 * BandSums(J, s, n)(n / 2) else 0.0)
  {
    var T := BandSums(J, s, n);
    FullIsTwicePair(J, s, n);
    FullByBands(J, s, n);
    if n > 0 {
      BandZero(J, s, n);
      forall d | 1 <= d < n
        ensures T(n - d) == T(d)
      {
        BandMirror(J, s, n, d);
      }
      MirrorFold(T, n);
    }
  }

  // ---------------------------------------------------------------------------
  // The shift form of JZZ_SK_ME
  // ---------------------------------------------------------------------------

  /** The summands of np.dot(J[shift-1,:] * shift_state, state) for shift d, where
      shift_state[i] is state[i - d (mod n)]. */
  function ShiftSummands(G: seq<seq<real>>, s: seq<int>, n: int, d: int): int -> real
  {
    i => ShiftSummand(G, s, n, d, i)
  }

  /** G[d-1][i] * shift_state[i] * state[i]. */
  function ShiftSummand(G: seq<seq<real>>, s: seq<int>, n: int, d: int, i: int): real
  {
    Entry(G, d - 1, i) * Sp(s, Wrap(i - d, n)) * Sp(s, i)
  }

  function ShiftTerm(G: seq<seq<real>>, s: seq<int>, n: int, d: int): real
  {
    Sum(0, n, ShiftSummands(G, s, n, d))
  }

  /** 1/2 for the antipodal shift N/2 of an even ring, 1 otherwise. */
  function Weight(n: int, d: int): real
  {
    if n % 2 == 0 && d == n / 2 then 0.5 else 1.0
  }

  function WeightedShiftTerms(G: seq<seq<real>>, s: seq<int>, n: int): int -> real
  {
    d => Weight(n, d) * ShiftTerm(G, s, n, d)
  }

  /** JZZ[b] for the spin vector s of basis state b: the weighted shift terms for
      shift = 1 .. N/2. */
  function ShiftEnergy(G: seq<seq<real>>, s: seq<int>, n: nat): real
  {
    Sum(1, n / 2 + 1, WeightedShiftTerms(G, s, n))
  }

  /** The coupling of spin k with the spin d <= N/2 places behind it is G[d-1][k]. */
  lemma DenseOnBand(G: seq<seq<real>>, n: nat, d: int, k: int)
    requires Reduced(G, n) && HalfDuplicated(G, n) && 1 <= d <= n / 2 && 0 <= k < n
    ensures Entry(DenseSpec(G, n), k, Wrap(k - d, n)) == Entry(G, d - 1, k)
  {
    var c := Wrap(k - d, n);
    assert 0 <= c < n && c != k && Gap(n, k, c) == d;
    if 2 * d == n && c > k {
      assert c == k + n / 2 && d - 1 == n / 2 - 1;
      assert G[d - 1][c] == G[d - 1][k];
    }
    assert DenseEntry(G, n, k, c) == G[d - 1][k];
  }

  lemma BandSummand(G: seq<seq<real>>, s: seq<int>, n: nat, d: int, k: int)
    requires Reduced(G, n) && HalfDuplicated(G, n) && 1 <= d <= n / 2 && 0 <= k < n
    ensures Band(DenseSpec(G, n), s, n, d)(k) == ShiftSummands(G, s, n, d)(k)
  {
    var c := Wrap(k - d, n);
    var e := Entry(G, d - 1, k);
    assert Entry(DenseSpec(G, n), k, c) == e by {
      DenseOnBand(G, n, d, k);
    }
    var x, y := Sp(s, k), Sp(s, c);
    assert Band(DenseSpec(G, n), s, n, d)(k) == Coupling(DenseSpec(G, n), s, k, c) == e * x * y;
    assert ShiftSummands(G, s, n, d)(k) == ShiftSummand(G, s, n, d, k) == e * y * x;
  }

  /** For shifts up to N/2, band d of makeJij's matrix is shift term d of G; at the
      antipodal shift this needs the half-duplicated last row. */
  lemma BandIsShiftTerm(G: seq<seq<real>>, s: seq<int>, n: nat, d: int)
    requires Reduced(G, n) && HalfDuplicated(G, n) && 1 <= d <= n / 2
    ensures BandSums(DenseSpec(G, n), s, n)(d) == ShiftTerm(G, s, n, d)
  {
    var J := DenseSpec(G, n);
    forall k | 0 <= k < n
      ensures Band(J, s, n, d)(k) == ShiftSummands(G, s, n, d)(k)
    {
      BandSummand(G, s, n, d, k);
    }
    SumExt(0, n, Band(J, s, n, d), ShiftSummands(G, s, n, d));
  }

  /** JZZ_SK_ME computes the pair energy sum over a < b of J[a][b] s_a s_b of the dense
      matrix makeJij(G), for any half-duplicated reduced G and any spin vector. */
  lemma ShiftEnergyIsPairEnergy(G: seq<seq<real>>, s: seq<int>, n: nat)
    requires Reduced(G, n) && HalfDuplicated(G, n)
    ensures ShiftEnergy(G, s, n) == PairEnergy(DenseSpec(G, n), s, n)
  {
    if n > 0 {
      var J := DenseSpec(G, n);
      DenseIsSymmetric(G, n);
      PairEnergyByBands(J, s, n);
      var H := (n - 1) / 2;
      var W := WeightedShiftTerms(G, s, n);
      var T := BandSums(J, s, n);
      forall d | 1 <= d < H + 1
        ensures W(d) == T(d)
      {
        BandIsShiftTerm(G, s, n, d);
      }
      SumExt(1, H + 1, W, T);
      if n % 2 == 0 {
        assert H + 1 == n / 2;
        SumSplit(1, H + 1, n / 2 + 1, W);
        SumFront(n / 2, n / 2 + 1, W);
        BandIsShiftTerm(G, s, n, n / 2);
      } else {
        assert H == n / 2;
      }
    }
  }

  /** Flipping every spin leaves each term s_i s_j, and so the energy, unchanged. */
  lemma ShiftEnergyEven(G: seq<seq<real>>, s: seq<int>, t: seq<int>, n: nat)
    requires |t| == |s| && forall k :: 0 <= k < |s| ==> t[k] == -s[k]
    ensures ShiftEnergy(G, t, n) == ShiftEnergy(G, s, n)
  {
    forall d | 1 <= d < n / 2 + 1
      ensures WeightedShiftTerms(G, t, n)(d) == WeightedShiftTerms(G, s, n)(d)
    {
      forall i | 0 <= i < n
        ensures ShiftSummands(G, t, n, d)(i) == ShiftSummands(G, s, n, d)(i)
      {
        var c := Wrap(i - d, n);
        assert Sp(t, c) == -Sp(s, c) && Sp(t, i) == -Sp(s, i);
      }
      SumExt(0, n, ShiftSummands(G, t, n, d), ShiftSummands(G, s, n, d));
    }
    SumExt(1, n / 2 + 1, WeightedShiftTerms(G, t, n), WeightedShiftTerms(G, s, n));
  }

  /** Basis states b and 2^N - 1 - b are each other's global spin flip, so they have
      the same diagonal energy: the ground states come in pairs. */
  lemma GlobalFlipEnergy(G: seq<seq<real>>, n: nat, b: nat)
    requires n >= 1 && b < Pow2(n)
    ensures ShiftEnergy(G, SpinState(n, Pow2(n) - 1 - b), n) == ShiftEnergy(G, SpinState(n, b), n)
  {
    SpinStateComplement(n, b);
    ShiftEnergyEven(G, SpinState(n, b), SpinState(n, Pow2(n) - 1 - b), n);
  }
}
