/** Jij_instance of tfim.py: a random reduced coupling matrix G (N/2 rows of N columns)
    for the Sherrington-Kirkpatrick model. The outputs of NumPy's random generator are
    inputs here: the shuffled bond pool of the balanced bimodal branch, the coin of
    np.random.choice and the (already scaled) normal samples, each indexed by position. */
module Generator {
  import opened Wrappers
  import opened Couplings
  import IsingBasis

  datatype Distribution = Bimodal | Normal | Unrecognised

  datatype GenError =
    | UnboundCouplings   // no branch matched `dist`, so `Jij` is unbound at the return
    | NoLastRow          // N = 0: the last row Jij[-1] does not exist

  /** The random draws the generator consumes. */
  datatype Draws = Draws(shuffled: seq<int>, coin: (int, int) -> bool, normal: (int, int) -> real)

  /** num_of_bonds = (N*(N-1))//2, the number of pairs of N spins, summed as
      0 + 1 + ... + (N-1) so that reasoning about it stays linear; NumBondsFormula
      gives the closed form. */
  function NumBonds(n: nat): nat
  {
    if n == 0 then 0 else NumBonds(n - 1) + (n - 1)
  }

  function Repeat(v: int, k: nat): (r: seq<int>)
    ensures |r| == k && multiset(r)[v] == k
    ensures forall w :: w != v ==> multiset(r)[w] == 0
  {
    if k == 0 then [] else Repeat(v, k - 1) + [v]
  }

  /** The balanced pool a1 + a2 as written: one extra -1 unless N % 4 == 0. */
  function BalancedPool(n: nat): seq<int>
  {
    var nb := NumBonds(n);
    Repeat(-1, if n % 4 == 0 then nb / 2 else nb / 2 + 1) + Repeat(1, nb / 2)
  }

  /** The pool with as many -1 as +1 bonds, plus one -1 when the number of bonds is odd. */
  function EvenSplitPool(n: nat): seq<int>
  {
    var nb := NumBonds(n);
    Repeat(-1, nb - nb / 2) + Repeat(1, nb / 2)
  }

  /** Python's a[lo:hi] for 0 <= lo <= hi: clamped to the end of a. */
  function Slice(a: seq<int>, lo: nat, hi: nat): (r: seq<int>)
    requires lo <= hi
    ensures |r| <= hi - lo
    ensures forall i :: 0 <= i < |r| ==> lo + i < |a| && r[i] == a[lo + i]
    ensures hi <= |a| ==> |r| == hi - lo
  {
    if lo >= |a| then [] else if hi <= |a| then a[lo..hi] else a[lo..]
  }

  /** N*j, written as repeated addition so that the index reasoning stays linear. */
  function Offset(n: nat, j: nat): nat
  {
    if j == 0 then 0 else Offset(n, j - 1) + n
  }

  /** a[N*j : N*(j+1)]. */
  function Chunk(a: seq<int>, n: nat, j: nat): seq<int>
  {
    Slice(a, Offset(n, j), Offset(n, j + 1))
  }

  /** [a[N*j : N*(j+1)] for j in range(N//2)]. */
  function Chunks(a: seq<int>, n: nat): (rows: seq<seq<int>>)
    ensures |rows| == n / 2
  {
    seq(n / 2, j requires 0 <= j => Chunk(a, n, j))
  }

  /** The last of a non-empty list of rows (Jij[-1]). */
  function LastRow(rows: seq<seq<int>>): seq<int>
    requires |rows| > 0
  {
    rows[|rows| - 1]
  }

  /** Position (j, i) of an N/2 x N reduced matrix holds a coupling of its own, rather
      than the copy in the second half of the last row of an even ring. */
  predicate IsLogical(n: nat, j: int, i: int)
  {
    0 <= j < n / 2 && 0 <= i < n && (n % 2 == 1 || j < n / 2 - 1 || i < n / 2)
  }

  /** The value the choice or normal branch draws for position (j, i). */
  function Drawn(dist: Distribution, draws: Draws, j: int, i: int): real
  {
    if dist == Bimodal then (if draws.coin(j, i) then 1.0 else -1.0) else draws.normal(j, i)
  }

  // ---------------------------------------------------------------------------
  // Counting bonds
  // ---------------------------------------------------------------------------

  lemma {:induction false} NumBondsFormula(n: nat)
    ensures 2 * NumBonds(n) == n * (n - 1)
    ensures NumBonds(n) == n * (n - 1) / 2
  {
    if n > 0 {
      NumBondsFormula(n - 1);
      assert (n - 1) * (n - 2) + 2 * (n - 1) == n * (n - 1) by {
        assert (n - 1) * (n - 2) == (n - 1) * n - 2 * (n - 1);
      }
    }
  }

  /** Four more spins add 4N + 6 pairs. */
  lemma NumBondsFourMore(n: nat)
    ensures NumBonds(n + 4) == NumBonds(n) + 4 * n + 6
  {
    assert NumBonds(n + 4) == NumBonds(n + 3) + n + 3;
    assert NumBonds(n + 3) == NumBonds(n + 2) + n + 2;
    assert NumBonds(n + 2) == NumBonds(n + 1) + n + 1;
  }

  /** The reduced rows hold every bond once: for odd N, (N-1)/2 full rows; for even N,
      N/2 - 1 full rows and half of the last. */
  lemma LogicalBonds(n: nat)
    ensures n % 2 == 1 ==> n * (n / 2) == NumBonds(n)
    ensures n % 2 == 0 && n >= 2 ==> n * (n / 2 - 1) + n / 2 == NumBonds(n)
  {
    NumBondsFormula(n);
    var h := n / 2;
    if n % 2 == 1 {
      assert n - 1 == 2 * h;
      assert n * (n - 1) == 2 * (n * h);
    } else if n >= 2 {
      assert n == 2 * h;
      assert n * (n - 1) == 2 * (n * (h - 1) + h);
    }
  }

  /** The number of bonds is even exactly when N % 4 is 0 or 1. */
  lemma {:induction false} BondParity(n: nat)
    ensures NumBonds(n) % 2 == 0 <==> n % 4 == 0 || n % 4 == 1
  {
    if n >= 4 {
      BondParity(n - 4);
      NumBondsFourMore(n - 4);
      var x := NumBonds(n - 4);
      DivMod(NumBonds(n), 2, x / 2 + 2 * (n - 4) + 3, x % 2);
      DivMod(n, 4, (n - 4) / 4 + 1, (n - 4) % 4);
    } else {
      assert NumBonds(1) == 0 && NumBonds(2) == 1 && NumBonds(3) == 3;
    }
  }

  /** Quotient and remainder are determined by x == d * q + r with 0 <= r < d. */
  lemma DivMod(x: int, d: int, q: int, r: int)
    requires d >= 1 && x == d * q + r && 0 <= r < d
    ensures x / d == q && x % d == r
  {
    IsingBasis.DivUnique(x, d, q, r);
  }

  /** The as-written pool holds num_of_bonds/2 bonds +1 and one more -1 unless N % 4 == 0;
      with N % 4 == 0 both signs have exactly num_of_bonds/2 bonds and nothing is left
      over. */
  lemma BalancedPoolCounts(n: nat)
    ensures multiset(BalancedPool(n))[1] == NumBonds(n) / 2
    ensures multiset(BalancedPool(n))[-1] == NumBonds(n) / 2 + (if n % 4 == 0 then 0 else 1)
    ensures n % 4 == 0 ==>
      |BalancedPool(n)| == NumBonds(n) && multiset(BalancedPool(n))[-1] == multiset(BalancedPool(n))[1]
  {
    var nb := NumBonds(n);
    var neg := if n % 4 == 0 then nb / 2 else nb / 2 + 1;
    assert BalancedPool(n) == Repeat(-1, neg) + Repeat(1, nb / 2);
    assert multiset(BalancedPool(n)) == multiset(Repeat(-1, neg)) + multiset(Repeat(1, nb / 2));
    if n % 4 == 0 {
      BondParity(n);
    }
  }

  /** The corrected pool holds exactly num_of_bonds bonds, half of them +1 (rounded
      down) and the rest -1. */
  lemma EvenSplitCounts(n: nat)
    ensures |EvenSplitPool(n)| == NumBonds(n)
    ensures multiset(EvenSplitPool(n))[1] == NumBonds(n) / 2
    ensures multiset(EvenSplitPool(n))[-1] == NumBonds(n) - NumBonds(n) / 2
    ensures forall v :: v != 1 && v != -1 ==> multiset(EvenSplitPool(n))[v] == 0
  {
    var nb := NumBonds(n);
    assert multiset(EvenSplitPool(n)) == multiset(Repeat(-1, nb - nb / 2)) + multiset(Repeat(1, nb / 2));
  }

  /** Except for N % 4 == 1 the as-written pool is the even split. */
  lemma PoolsAgree(n: nat)
    requires n % 4 != 1
    ensures BalancedPool(n) == EvenSplitPool(n)
  {
    BondParity(n);
    var nb := NumBonds(n);
    if n % 4 == 0 {
      assert nb - nb / 2 == nb / 2;
    } else {
      assert nb - nb / 2 == nb / 2 + 1;
    }
  }

  /** For N % 4 == 1 the as-written pool has one bond more than there are pairs, so the
      reshape drops its last element. */
  lemma BalancedPoolOverfull(n: nat)
    requires n % 4 == 1
    ensures |BalancedPool(n)| == NumBonds(n) + 1
    ensures n * (n / 2) == NumBonds(n)
  {
    BondParity(n);
    ModFourIsOdd(n);
    LogicalBonds(n);
  }

  lemma ModFourIsOdd(n: nat)
    requires n % 4 == 1
    ensures n % 2 == 1
  {
    var q := n / 4;
    assert n == 4 * q + 1;
    DivMod(n, 2, 2 * q, 1);
  }

  /** When N % 4 == 1 and the permutation leaves the as-written pool in order, the
      num_of_bonds entries the reshape keeps hold two more -1 bonds than +1 bonds
      (for N = 5: six -1 and four +1). */
  lemma UnshuffledPoolUnbalanced(n: nat)
    requires n % 4 == 1 && n >= 5
    ensures |BalancedPool(n)| == NumBonds(n) + 1
    ensures multiset(BalancedPool(n)[..NumBonds(n)])[-1] == NumBonds(n) / 2 + 1
    ensures multiset(BalancedPool(n)[..NumBonds(n)])[1] == NumBonds(n) / 2 - 1
  {
    BalancedPoolOverfull(n);
    BondParity(n);
    var nb := NumBonds(n);
    NumBondsAtLeastTen(n);
    var h := nb / 2;
    assert nb == 2 * h && h >= 5;
    var neg, pos := Repeat(-1, h + 1), Repeat(1, h - 1);
    assert BalancedPool(n) == neg + Repeat(1, h);
    assert Repeat(1, (h - 1) + 1) == pos + [1];
    assert neg + (pos + [1]) == (neg + pos) + [1];
    assert |neg + pos| == nb;
    assert BalancedPool(n)[..nb] == neg + pos;
    assert multiset(neg + pos) == multiset(neg) + multiset(pos);
  }

  // ---------------------------------------------------------------------------
  // The generator
  // ---------------------------------------------------------------------------

  lemma {:induction false} NumBondsAtLeastTen(n: nat)
    requires n >= 5
    ensures NumBonds(n) >= 10
  {
    if n > 5 {
      NumBondsAtLeastTen(n - 1);
    } else {
      assert NumBonds(5) == 10;
    }
  }

  /** The pool fills the logical positions: exactly for even N (the short last row is
      then completed by its copy), at least for odd N. */
  predicate PoolFits(a: seq<int>, n: nat)
  {
    (n % 2 == 1 ==> |a| >= NumBonds(n)) && (n % 2 == 0 ==> |a| == NumBonds(n))
  }

  lemma {:induction false} OffsetIsProduct(n: nat, j: nat)
    ensures Offset(n, j) == n * j
  {
    if j > 0 {
      OffsetIsProduct(n, j - 1);
    }
  }

  lemma {:induction false} OffsetMonotone(n: nat, j: nat, k: nat)
    requires j <= k
    ensures Offset(n, j) <= Offset(n, k)
    decreases k
  {
    if j < k {
      OffsetMonotone(n, j, k - 1);
    }
  }

  /** The N/2 - 1 full rows before the last one end N/2 short of num_of_bonds for even N;
      for odd N the N/2 rows end exactly at num_of_bonds. */
  lemma RowsEnd(n: nat)
    requires n >= 1
    ensures n % 2 == 1 ==> Offset(n, n / 2) == NumBonds(n)
    ensures n % 2 == 0 ==> Offset(n, n / 2 - 1) + n / 2 == NumBonds(n)
  {
    LogicalBonds(n);
    if n % 2 == 1 {
      OffsetIsProduct(n, n / 2);
    } else {
      OffsetIsProduct(n, n / 2 - 1);
    }
  }

  /** Row j of the chunked pool has N entries, except the last row of an even ring,
      which has N/2. */
  lemma ChunkLength(a: seq<int>, n: nat, j: int)
    requires n >= 1 && PoolFits(a, n) && 0 <= j < n / 2
    ensures |Chunks(a, n)[j]| == if n % 2 == 0 && j == n / 2 - 1 then n / 2 else n
  {
    RowsEnd(n);
    var h := n / 2;
    var lo, hi := Offset(n, j), Offset(n, j + 1);
    assert Chunks(a, n)[j] == Chunk(a, n, j);
    if n % 2 == 0 && j == h - 1 {
      assert |a| == lo + h;
    } else if n % 2 == 0 {
      OffsetMonotone(n, j + 1, h - 1);
    } else {
      OffsetMonotone(n, j + 1, h);
    }
  }

  /** Entry i of row j of the chunked pool is a[N*j + i]. */
  lemma ChunkEntries(a: seq<int>, n: nat, j: int)
    requires 0 <= j < n / 2
    ensures forall i :: 0 <= i < |Chunks(a, n)[j]| ==>
      Offset(n, j) + i < |a| && Chunks(a, n)[j][i] == a[Offset(n, j) + i]
  {
    assert Chunks(a, n)[j] == Chunk(a, n, j);
  }

  /** Row j, column i of the reshape reads entry N*j + i, and that entry determines
      (j, i) again. */
  lemma PositionOfIndex(n: nat, j: nat, i: int)
    requires 0 <= i < n
    ensures (Offset(n, j) + i) / n == j && (Offset(n, j) + i) % n == i
  {
    OffsetIsProduct(n, j);
    IsingBasis.DivUnique(Offset(n, j) + i, n, j, i);
  }

  /** Every entry k < num_of_bonds of the pool lands at a logical position,
      (k / N, k % N): the reshape uses the whole pool. With PositionOfIndex, that
      position is the only one reading entry k, so nothing is used twice. */
  lemma PoolPositions(n: nat, k: int)
    requires n >= 1 && 0 <= k < NumBonds(n)
    ensures IsLogical(n, k / n, k % n) && Offset(n, k / n) + k % n == k
  {
    var j, i := k / n, k % n;
    assert k == n * j + i && 0 <= i < n;
    OffsetIsProduct(n, j);
    LogicalPosition(n, j, i);
  }

  /** A position of row j and column i < N that comes before num_of_bonds is logical. */
  lemma LogicalPosition(n: nat, j: nat, i: int)
    requires n >= 1 && 0 <= i < n && Offset(n, j) + i < NumBonds(n)
    ensures IsLogical(n, j, i)
  {
    var h := n / 2;
    RowsEnd(n);
    if j >= h {
      OffsetMonotone(n, h, j);
      assert false;
    }
  }

  /** G holds the pool a row by row at its logical positions: position (j, i) holds
      a[N*j + i]. */
  ghost predicate HoldsPool(G: array2<real>, a: seq<int>, n: nat)
    reads G
  {
    G.Length0 == n / 2 && G.Length1 == n &&
    forall j, i :: IsLogical(n, j, i) ==> Offset(n, j) + i < |a| && G[j, i] == a[Offset(n, j) + i] as real
  }

  /** G holds the draws of the choice or normal branch at its logical positions. */
  ghost predicate HoldsDraws(G: array2<real>, dist: Distribution, draws: Draws, n: nat)
    reads G
  {
    G.Length0 == n / 2 && G.Length1 == n &&
    forall j, i :: IsLogical(n, j, i) ==> G[j, i] == Drawn(dist, draws, j, i)
  }

  /** The chunked pool, its short last row extended by a copy of itself for even N, is
      N/2 full rows holding the pool in reading order. */
  lemma ExtendedChunks(a: seq<int>, n: nat, rows: seq<seq<int>>)
    requires n >= 1 && PoolFits(a, n)
    requires n % 2 == 1 ==> rows == Chunks(a, n)
    requires n % 2 == 0 ==> rows == Chunks(a, n)[n / 2 - 1 := LastRow(Chunks(a, n)) + LastRow(Chunks(a, n))]
    ensures |rows| == n / 2 && forall j :: 0 <= j < n / 2 ==> |rows[j]| == n
    ensures forall j, i :: IsLogical(n, j, i) ==> Offset(n, j) + i < |a| && rows[j][i] == a[Offset(n, j) + i]
    ensures n % 2 == 0 ==> forall k :: n / 2 <= k < n ==> LastRow(rows)[k] == LastRow(rows)[k - n / 2]
  {
    var h := n / 2;
    forall j | 0 <= j < h
      ensures |rows[j]| == n
      ensures forall i :: IsLogical(n, j, i) ==> Offset(n, j) + i < |a| && rows[j][i] == a[Offset(n, j) + i]
    {
      ExtendedRow(a, n, rows, j);
    }
    if n % 2 == 0 {
      ExtendedLastRow(a, n, rows);
    }
  }

  /** For even N the extended last row is the short last chunk twice. */
  lemma ExtendedLastRow(a: seq<int>, n: nat, rows: seq<seq<int>>)
    requires n >= 2 && n % 2 == 0 && PoolFits(a, n)
    requires rows == Chunks(a, n)[n / 2 - 1 := LastRow(Chunks(a, n)) + LastRow(Chunks(a, n))]
    ensures |LastRow(rows)| == n
    ensures forall k :: n / 2 <= k < n ==> LastRow(rows)[k] == LastRow(rows)[k - n / 2]
  {
    ChunkLength(a, n, n / 2 - 1);
    var c := LastRow(Chunks(a, n));
    assert LastRow(rows) == c + c;
  }

  /** One row of the extended chunks: N entries, the logical ones read from the pool. */
  lemma ExtendedRow(a: seq<int>, n: nat, rows: seq<seq<int>>, j: int)
    requires n >= 1 && PoolFits(a, n) && 0 <= j < n / 2
    requires n % 2 == 1 ==> rows == Chunks(a, n)
    requires n % 2 == 0 ==> rows == Chunks(a, n)[n / 2 - 1 := LastRow(Chunks(a, n)) + LastRow(Chunks(a, n))]
    ensures |rows[j]| == n
    ensures forall i :: IsLogical(n, j, i) ==> Offset(n, j) + i < |a| && rows[j][i] == a[Offset(n, j) + i]
  {
    ChunkLength(a, n, j);
    ChunkEntries(a, n, j);
    if n % 2 == 0 && j == n / 2 - 1 {
      assert rows[j] == Chunks(a, n)[j] + Chunks(a, n)[j];
    } else {
      assert rows[j] == Chunks(a, n)[j];
    }
  }

  /** The balanced branch: reshape the shuffled pool into N/2 rows of N and, for even N,
      extend the short last row by a copy of itself. */
  method ReshapePool(a: seq<int>, n: nat) returns (G: array2<real>)
    requires n >= 1 && PoolFits(a, n)
    ensures fresh(G) && HoldsPool(G, a, n)
    ensures Reduced(Rows(G), n) && HalfDuplicated(Rows(G), n)
  {
    var h := n / 2;
    var rows := Chunks(a, n);
    if n % 2 == 0 {
      rows := rows[h - 1 := rows[h - 1] + rows[h - 1]];
    }
    ExtendedChunks(a, n, rows);
    G := new real[h, n]((j, i) requires 0 <= j < h && 0 <= i < n => rows[j][i] as real);
    if n % 2 == 0 {
      var last := h - 1;
      ghost var row := Rows(G)[last];
      forall i, k | 0 <= i < h && k == i + h
        ensures row[k] == row[i]
      {
        assert row[k] == G[last, k] && row[i] == G[last, i];
        assert G[last, k] == LastRow(rows)[k] as real;
      }
    }
  }

  /** The choice and normal branches: draw an N/2 x N matrix and, for even N, copy the
      first half of the last row over its second half. */
  method DrawMatrix(n: nat, dist: Distribution, draws: Draws) returns (G: array2<real>)
    requires n >= 1
    ensures fresh(G) && HoldsDraws(G, dist, draws, n)
    ensures Reduced(Rows(G), n) && HalfDuplicated(Rows(G), n)
  {
    var h := n / 2;
    G := new real[h, n]((j, i) => Drawn(dist, draws, j, i));
    if n % 2 == 0 {
      var last := h - 1;
      CopyFirstHalf(G, last, h);
      ghost var row := Rows(G)[last];
      forall i, k | 0 <= i < h && k == i + h
        ensures row[k] == row[i]
      {
        assert row[k] == G[last, k] && row[i] == G[last, i];
      }
    }
  }

  /** Jij[-1, N//2:] = Jij[-1, :N//2]: the second half of row `last` becomes a copy of
      its first half; every other entry keeps its value. */
  method CopyFirstHalf(G: array2<real>, last: nat, h: nat)
    requires last < G.Length0 && G.Length1 == 2 * h
    modifies G
    ensures forall j, i :: 0 <= j < G.Length0 && 0 <= i < G.Length1 ==>
      G[j, i] == if j == last && i >= h then old(G[j, i - h]) else old(G[j, i])
  {
    forall k | h <= k < 2 * h {
      G[last, k] := G[last, k - h];
    }
  }

  /** Jij_instance: for a known distribution and N >= 1 a fresh N/2 x N matrix whose
      logical positions hold the draws in order (for the balanced branch, the shuffled
      pool a1 + a2 read row by row, its last entry left unread when N % 4 == 1) and whose
      last row, for even N, repeats its first half. */
  method JijInstance(n: nat, dist: Distribution, even: bool, draws: Draws)
    returns (r: Result<array2<real>, GenError>)
    requires dist == Bimodal && even ==> multiset(draws.shuffled) == multiset(BalancedPool(n))
    ensures r.Err? <==> dist == Unrecognised || n == 0
    ensures r.Err? ==> r.error == if dist == Unrecognised then UnboundCouplings else NoLastRow
    ensures r.Ok? ==> fresh(r.value) && Reduced(Rows(r.value), n) && HalfDuplicated(Rows(r.value), n)
    ensures r.Ok? && dist == Bimodal && even ==> HoldsPool(r.value, draws.shuffled, n)
    ensures r.Ok? && !(dist == Bimodal && even) ==> HoldsDraws(r.value, dist, draws, n)
  {
    if dist == Unrecognised {
      return Err(UnboundCouplings);
    }
    if n == 0 {
      return Err(NoLastRow);
    }
    var G: array2<real>;
    if dist == Bimodal && even {
      assert |draws.shuffled| == |multiset(draws.shuffled)| == |BalancedPool(n)|;
      if n % 4 == 1 {
        BalancedPoolOverfull(n);
        ModFourIsOdd(n);
      } else {
        PoolsAgree(n);
        EvenSplitCounts(n);
      }
      G := ReshapePool(draws.shuffled, n);
    } else {
      G := DrawMatrix(n, dist, draws);
    }
    return Ok(G);
  }
}
