/** The three coupling layouts of SGViz.py and the conversions between them.

    The reduced layout G (N/2 rows of N columns) is the one tfim.py builds: G[j][i] is
    the coupling between spin i and the spin j+1 places behind it on the ring. For even
    N the last row couples antipodal spins, so each of those couplings appears twice.
    The dense layout J (N x N) holds the coupling of spins a and b at J[a][b] and J[b][a].
    The bond configuration is a string of digits, the last one for the first pair of
    combinations(range(N), 2). */
module Couplings {
  import opened Wrappers
  import opened Pairs
  import IsingBasis

  /** The matrix m as a sequence of rows. */
  function Rows(m: array2<real>): (r: seq<seq<real>>)
    reads m
    ensures |r| == m.Length0
    ensures forall i :: 0 <= i < |r| ==> |r[i]| == m.Length1
    ensures forall i, j :: 0 <= i < m.Length0 && 0 <= j < m.Length1 ==> r[i][j] == m[i, j]
  {
    seq(m.Length0, i requires 0 <= i < m.Length0 reads m =>
      seq(m.Length1, j requires 0 <= j < m.Length1 reads m => m[i, j]))
  }

  /** G has the reduced rows 0 .. n/2-1, each covering the columns 0 .. n-1. */
  predicate Reduced(G: seq<seq<real>>, n: nat)
  {
    |G| >= n / 2 && forall j :: 0 <= j < n / 2 ==> |G[j]| >= n
  }

  /** J covers the n x n block of a dense coupling matrix. */
  predicate Square(J: seq<seq<real>>, n: nat)
  {
    |J| >= n && forall a :: 0 <= a < n ==> |J[a]| >= n
  }

  predicate Symmetric(J: seq<seq<real>>, n: nat)
    requires Square(J, n)
  {
    forall a, b :: 0 <= a < n && 0 <= b < n ==> J[a][b] == J[b][a]
  }

  predicate ZeroDiagonal(J: seq<seq<real>>, n: nat)
    requires Square(J, n)
  {
    forall a :: 0 <= a < n ==> J[a][a] == 0.0
  }

  /** For even n the second half of the last reduced row repeats its first half, as
      tfim.py's generator leaves it: both halves hold the antipodal couplings. */
  predicate HalfDuplicated(G: seq<seq<real>>, n: nat)
    requires Reduced(G, n)
  {
    n % 2 == 0 && n >= 2 ==> RepeatsHalf(G[n / 2 - 1], n / 2)
  }

  /** The entries h .. 2h-1 of the row repeat its entries 0 .. h-1. */
  predicate RepeatsHalf(row: seq<real>, h: nat)
    requires |row| >= 2 * h
  {
    forall i, j :: 0 <= i < h && j == i + h ==> row[j] == row[i]
  }

  /** The column (i - j + N - 1) % N that the reduced entry G[j][i] couples spin i to. */
  function Partner(n: nat, j: int, i: int): int
    requires n > 0
  {
    (i - j + n - 1) % n
  }

  /** How many places spin b lies behind spin a on the ring of n spins. */
  function Gap(n: nat, a: int, b: int): int
  {
    if a > b then a - b else a - b + n
  }

  /** The reduced entry G[j][i] couples spin i with a different spin j+1 places behind it. */
  lemma PartnerGap(n: nat, j: int, i: int)
    requires 0 <= j < n / 2 && 0 <= i < n
    ensures 0 <= Partner(n, j, i) < n && Partner(n, j, i) != i
    ensures Partner(n, j, i) == if i > j then i - j - 1 else i - j - 1 + n
    ensures Gap(n, i, Partner(n, j, i)) == j + 1
    ensures Gap(n, Partner(n, j, i), i) == n - j - 1
  {
    var x := i - j + n - 1;
    if x < n {
      ModBelow(x, n);
    } else {
      ModOnce(x, n);
    }
  }

  lemma ModBelow(x: int, n: int)
    requires 0 <= x < n
    ensures x % n == x
  {
  }

  lemma ModOnce(x: int, n: int)
    requires 0 < n <= x < 2 * n
    ensures x % n == x - n
  {
    IsingBasis.DivUnique(x, n, 1, x - n);
  }

  /** Only one spin lies j+1 places behind spin i. */
  lemma GapDeterminesPartner(n: nat, j: int, i: int, b: int)
    requires 0 <= j < n / 2 && 0 <= i < n && 0 <= b < n && b != i
    requires Gap(n, i, b) == j + 1
    ensures b == Partner(n, j, i)
  {
    PartnerGap(n, j, i);
  }

  /** The dense coupling of spins a and b that makeJij leaves: the reduced entry that
      holds it, and for antipodal spins of an even ring the one written last. */
  function DenseEntry(G: seq<seq<real>>, n: nat, a: int, b: int): real
    requires Reduced(G, n) && 0 <= a < n && 0 <= b < n
  {
    if a == b then 0.0
    else
      var d := Gap(n, a, b);
      if 2 * d < n then G[d - 1][a]
      else if 2 * d > n then G[n - d - 1][b]
      else G[d - 1][if a < b then b else a]
  }

  function DenseSpec(G: seq<seq<real>>, n: nat): (J: seq<seq<real>>)
    requires Reduced(G, n)
    ensures Square(J, n) && |J| == n
    ensures forall a, b :: 0 <= a < n && 0 <= b < n ==> J[a][b] == DenseEntry(G, n, a, b)
  {
    seq(n, a requires 0 <= a < n => seq(n, b requires 0 <= b < n => DenseEntry(G, n, a, b)))
  }

  /** The reduced layout JijtoG reads off a dense matrix. */
  function ReducedSpec(J: seq<seq<real>>, n: nat): (G: seq<seq<real>>)
    requires Square(J, n)
    ensures Reduced(G, n) && |G| == n / 2
    ensures forall j :: 0 <= j < n / 2 ==> |G[j]| == n
  {
    seq(n / 2, j requires 0 <= j < n / 2 =>
      seq(n, i requires 0 <= i < n => PartnerGap(n, j, i); J[i][Partner(n, j, i)]))
  }

  /** Iteration (j, i) of makeJij's double loop runs before iteration (jl, il). */
  predicate Done(jl: int, il: int, j: int, i: int)
  {
    j < jl || (j == jl && i < il)
  }

  /** The entry (a, b) of makeJij's matrix once the iterations before (jl, il) have run:
      iteration (d-1, a) writes it as Jij[i][c], iteration (n-d-1, b) as Jij[c][i]. */
  function PartialEntry(G: seq<seq<real>>, n: nat, jl: int, il: int, a: int, b: int): real
    requires Reduced(G, n) && 0 <= a < n && 0 <= b < n
  {
    if a == b then 0.0
    else
      var d := Gap(n, a, b);
      var w1 := 2 * d <= n && Done(jl, il, d - 1, a);
      var w2 := 2 * d >= n && Done(jl, il, n - d - 1, b);
      if w1 && w2 then G[d - 1][if a < b then b else a]
      else if w1 then G[d - 1][a]
      else if w2 then G[n - d - 1][b]
      else 0.0
  }

  lemma PartialStep(G: seq<seq<real>>, n: nat, j: int, i: int, a: int, b: int)
    requires Reduced(G, n) && 0 <= j < n / 2 && 0 <= i < n && 0 <= a < n && 0 <= b < n
    ensures PartialEntry(G, n, j, i + 1, a, b) ==
      if (a == i && b == Partner(n, j, i)) || (a == Partner(n, j, i) && b == i) then G[j][i]
      else PartialEntry(G, n, j, i, a, b)
  {
    var c := Partner(n, j, i);
    PartnerGap(n, j, i);
    if a != b {
      if a == i && b != c && Gap(n, a, b) == j + 1 {
        GapDeterminesPartner(n, j, i, b);
      }
    }
  }

  lemma PartialComplete(G: seq<seq<real>>, n: nat, a: int, b: int)
    requires Reduced(G, n) && 0 <= a < n && 0 <= b < n
    ensures PartialEntry(G, n, n / 2, 0, a, b) == DenseEntry(G, n, a, b)
  {
  }

  /** J holds makeJij's matrix as it stands before iteration (jl, il). */
  predicate WrittenBefore(J: array2<real>, g: seq<seq<real>>, n: nat, jl: int, il: int)
    requires J.Length0 == n && J.Length1 == n && Reduced(g, n)
    reads J
  {
    forall a, b :: 0 <= a < n && 0 <= b < n ==> J[a, b] == PartialEntry(g, n, jl, il, a, b)
  }

  /** makeJij(G, N): spread the reduced couplings over a symmetric N x N matrix. */
  method MakeJij(G: array2<real>, n: nat) returns (J: array2<real>)
    requires n / 2 <= G.Length0 && (n < 2 || n <= G.Length1)
    ensures fresh(J) && J.Length0 == n && J.Length1 == n
    ensures Rows(J) == DenseSpec(Rows(G), n)
  {
    ghost var g := Rows(G);
    J := new real[n, n]((_, _) => 0.0);
    var j := 0;
    while j < n / 2
      invariant 0 <= j <= n / 2
      invariant WrittenBefore(J, g, n, j, 0)
    {
      WriteShift(J, G, g, n, j);
      j := j + 1;
    }
    forall a | 0 <= a < n
      ensures Rows(J)[a] == DenseSpec(g, n)[a]
    {
      forall b | 0 <= b < n {
        PartialComplete(g, n, a, b);
      }
    }
  }

  /** The inner loop of makeJij for one row j of G: for every spin i the chained
      assignment Jij[i][c] = Jij[c][i] = G[j][i], c being Partner(N, j, i). */
  method WriteShift(J: array2<real>, G: array2<real>, ghost g: seq<seq<real>>, n: nat, j: nat)
    requires J != G && J.Length0 == n && J.Length1 == n && j < n / 2
    requires n / 2 <= G.Length0 && n <= G.Length1 && g == Rows(G)
    requires WrittenBefore(J, g, n, j, 0)
    modifies J
    ensures WrittenBefore(J, g, n, j + 1, 0)
  {
    var i := 0;
    while i < n
      invariant 0 <= i <= n
      invariant WrittenBefore(J, g, n, j, i)
    {
      WriteSpin(J, G, g, n, j, i);
      i := i + 1;
    }
  }

  /** One step of the inner loop: Jij[i][c] = Jij[c][i] = G[j][i], c being
      Partner(N, j, i). */
  method WriteSpin(J: array2<real>, G: array2<real>, ghost g: seq<seq<real>>, n: nat, j: nat, i: nat)
    requires J != G && J.Length0 == n && J.Length1 == n && j < n / 2 && i < n
    requires n / 2 <= G.Length0 && n <= G.Length1 && g == Rows(G)
    requires WrittenBefore(J, g, n, j, i)
    modifies J
    ensures WrittenBefore(J, g, n, j, i + 1)
  {
    var c := (i - j + n - 1) % n;
    PartnerGap(n, j, i);
    WriteBoth(J, i, c, G[j, i]);
    forall a, b | 0 <= a < n && 0 <= b < n
      ensures J[a, b] == PartialEntry(g, n, j, i + 1, a, b)
    {
      assert old(J[a, b]) == PartialEntry(g, n, j, i, a, b);
      PartialStep(g, n, j, i, a, b);
    }
  }

  /** The chained assignment Jij[a][b] = Jij[b][a] = v: both mirrored entries become v
      and nothing else changes. */
  method WriteBoth(J: array2<real>, a: nat, b: nat, v: real)
    requires a < J.Length0 && b < J.Length1 && b < J.Length0 && a < J.Length1
    modifies J
    ensures forall x, y :: 0 <= x < J.Length0 && 0 <= y < J.Length1 ==>
      J[x, y] == if (x == a && y == b) || (x == b && y == a) then v else old(J[x, y])
  {
    J[a, b] := v;
    J[b, a] := v;
  }

  /** JijtoG(Jij, N): read the reduced couplings back off a dense matrix. */
  method JijToG(J: array2<real>, n: nat) returns (G: array2<real>)
    requires n < 2 || (n <= J.Length0 && n <= J.Length1)
    ensures fresh(G) && G.Length0 == n / 2 && G.Length1 == n
    ensures n >= 2 ==> Rows(G) == ReducedSpec(Rows(J), n)
  {
    G := new real[n / 2, n];
    ghost var r := if n >= 2 then ReducedSpec(Rows(J), n) else [];
    var j := 0;
    while j < n / 2
      invariant 0 <= j <= n / 2
      invariant forall j', i :: 0 <= j' < j && 0 <= i < n ==> G[j', i] == r[j'][i]
    {
      var i := 0;
      while i < n
        invariant 0 <= i <= n
        invariant forall j', i' :: 0 <= j' < j && 0 <= i' < n ==> G[j', i'] == r[j'][i']
        invariant forall i' :: 0 <= i' < i ==> G[j, i'] == r[j][i']
      {
        PartnerGap(n, j, i);
        G[j, i] := J[i, (i - j + n - 1) % n];
        i := i + 1;
      }
      j := j + 1;
    }
    if n >= 2 {
      forall j' | 0 <= j' < n / 2
        ensures Rows(G)[j'] == r[j']
      {
      }
    }
  }

  /** makeJij always yields a symmetric coupling matrix with no self-coupling. */
  lemma DenseIsSymmetric(G: seq<seq<real>>, n: nat)
    requires Reduced(G, n)
    ensures Symmetric(DenseSpec(G, n), n) && ZeroDiagonal(DenseSpec(G, n), n)
  {
    var J := DenseSpec(G, n);
    forall a, b | 0 <= a < n && 0 <= b < n
      ensures J[a][b] == J[b][a]
    {
      if a != b {
        assert Gap(n, b, a) == n - Gap(n, a, b);
      }
    }
  }

  /** The reduced entry that JijtoG reads back after makeJij: the one put in, except
      that for antipodal spins the copy written last replaces the other. */
  lemma ReducedOfDense(G: seq<seq<real>>, n: nat, j: int, i: int)
    requires Reduced(G, n) && 0 <= j < n / 2 && 0 <= i < n
    ensures ReducedSpec(DenseSpec(G, n), n)[j][i] ==
      if 2 * (j + 1) == n && Partner(n, j, i) > i then G[j][Partner(n, j, i)] else G[j][i]
  {
    PartnerGap(n, j, i);
  }

  /** JijtoG after makeJij gives back the reduced couplings exactly when the last row
      of an even ring is half-duplicated: makeJij keeps one of each antipodal pair. */
  lemma ReducedRoundTrip(G: seq<seq<real>>, n: nat)
    requires Reduced(G, n) && n >= 1
    ensures HalfDuplicated(G, n) <==>
      forall j, i :: 0 <= j < n / 2 && 0 <= i < n ==> ReducedSpec(DenseSpec(G, n), n)[j][i] == G[j][i]
  {
    var R := ReducedSpec(DenseSpec(G, n), n);
    if HalfDuplicated(G, n) {
      forall j, i | 0 <= j < n / 2 && 0 <= i < n
        ensures R[j][i] == G[j][i]
      {
        ReducedOfDense(G, n, j, i);
        PartnerGap(n, j, i);
        if 2 * (j + 1) == n && Partner(n, j, i) > i {
          assert n % 2 == 0 && j == n / 2 - 1 && Partner(n, j, i) == i + n / 2;
        }
      }
    } else {
      var h := n / 2;
      var i, j :| 0 <= i < h && j == i + h && G[h - 1][j] != G[h - 1][i];
      ReducedOfDense(G, n, h - 1, i);
      PartnerGap(n, h - 1, i);
      assert R[h - 1][i] != G[h - 1][i];
    }
  }

  /** Whatever makeJij is given, JijtoG reads off a half-duplicated reduced matrix. */
  lemma ReducedIsHalfDuplicated(J: seq<seq<real>>, n: nat)
    requires Square(J, n) && Symmetric(J, n)
    ensures HalfDuplicated(ReducedSpec(J, n), n)
  {
    if n % 2 == 0 && n >= 2 {
      var h := n / 2;
      var row := ReducedSpec(J, n)[h - 1];
      forall i, j | 0 <= i < h && j == i + h
        ensures row[j] == row[i]
      {
        PartnerGap(n, h - 1, i);
        PartnerGap(n, h - 1, j);
      }
    }
  }

  /** makeJij after JijtoG gives back every symmetric matrix with zero diagonal. */
  lemma DenseRoundTrip(J: seq<seq<real>>, n: nat)
    requires Square(J, n) && Symmetric(J, n) && ZeroDiagonal(J, n)
    ensures forall a, b :: 0 <= a < n && 0 <= b < n ==> DenseSpec(ReducedSpec(J, n), n)[a][b] == J[a][b]
  {
    var G := ReducedSpec(J, n);
    forall a, b | 0 <= a < n && 0 <= b < n
      ensures DenseEntry(G, n, a, b) == J[a][b]
    {
      if a != b {
        var d := Gap(n, a, b);
        if 2 * d <= n {
          PartnerGap(n, d - 1, a);
          GapDeterminesPartner(n, d - 1, a, b);
        }
        if 2 * d >= n {
          assert Gap(n, b, a) == n - d;
          PartnerGap(n, n - d - 1, b);
          GapDeterminesPartner(n, n - d - 1, b, a);
        }
      }
    }
  }

  // ---------------------------------------------------------------------------
  // Bond configurations (BCtoJij)
  // ---------------------------------------------------------------------------

  /** What BCtoJij raises: int() of a character that is not a decimal digit raises
      ValueError; a string with fewer digits than there are pairs runs off the end
      of BCA, an IndexError. */
  datatype CodecError = NotADigit | TooFewBonds

  /** An ASCII decimal digit; the other Unicode decimal digits int() accepts are not modelled. */
  predicate IsDigit(ch: char)
  {
    '0' <= ch <= '9'
  }

  predicate AllDigits(bc: string)
  {
    forall k :: 0 <= k < |bc| ==> IsDigit(bc[k])
  }

  /** [int(i) for i in BC]: the digit values, or ValueError at the first non-digit. */
  function DigitValues(bc: string): (r: Result<seq<int>, CodecError>)
    ensures r.Ok? <==> AllDigits(bc)
    ensures r.Err? ==> r.error == NotADigit
    ensures r.Ok? ==> |r.value| == |bc| && forall k :: 0 <= k < |bc| ==> r.value[k] == bc[k] as int - '0' as int
  {
    if |bc| == 0 then Ok([])
    else if !IsDigit(bc[0]) then Err(NotADigit)
    else
      match DigitValues(bc[1..])
      case Err(e) => Err(e)
      case Ok(rest) => Ok([bc[0] as int - '0' as int] + rest)
  }

  /** BCA.reverse(). */
  function Reversed(s: seq<int>): (r: seq<int>)
    ensures |r| == |s| && forall k :: 0 <= k < |s| ==> r[k] == s[|s| - 1 - k]
  {
    if |s| == 0 then [] else [s[|s| - 1]] + Reversed(s[..|s| - 1])
  }

  /** The coupling BCtoJij gives spins a and b from the digits d of the configuration:
      -1 + 2*digit, the digit of their pair counted from the end of the string. */
  function BondEntry(n: nat, d: seq<int>, a: int, b: int): real
    requires 0 <= a < n && 0 <= b < n && |d| >= |Combinations2(n)|
  {
    if a == b then 0.0
    else
      CombinationsAt(n);
      var k := if a < b then PairIndex(n, a, b) else PairIndex(n, b, a);
      (-1 + 2 * d[|d| - 1 - k]) as real
  }

  function BondMatrix(n: nat, d: seq<int>): (J: seq<seq<real>>)
    requires |d| >= |Combinations2(n)|
    ensures Square(J, n) && |J| == n
    ensures forall a, b :: 0 <= a < n && 0 <= b < n ==> J[a][b] == BondEntry(n, d, a, b)
  {
    seq(n, a requires 0 <= a < n => seq(n, b requires 0 <= b < n => BondEntry(n, d, a, b)))
  }

  /** The entry (a, b) once the loop of BCtoJij has handled the first i pairs. */
  function BondsBefore(n: nat, bca: seq<int>, i: int, a: int, b: int): real
    requires 0 <= a < n && 0 <= b < n && 0 <= i <= |bca|
  {
    if a == b then 0.0
    else
      var k := if a < b then PairIndex(n, a, b) else PairIndex(n, b, a);
      if k < i then (-1 + 2 * bca[k]) as real else 0.0
  }

  /** BCtoJij(N, BC): the dense couplings of a bond configuration string. */
  method BCtoJij(n: nat, bc: string) returns (r: Result<array2<real>, CodecError>)
    ensures r.Err? <==> !AllDigits(bc) || |bc| < |Combinations2(n)|
    ensures r.Err? ==> r.error == if AllDigits(bc) then TooFewBonds else NotADigit
    ensures r.Ok? ==> fresh(r.value) && r.value.Length0 == n && r.value.Length1 == n
    ensures r.Ok? ==> |bc| >= |Combinations2(n)| && DigitValues(bc).Ok? &&
                      Rows(r.value) == BondMatrix(n, DigitValues(bc).value)
  {
    var clauses := Combinations2(n);
    var parsed := DigitValues(bc);
    if parsed.Err? {
      return Err(parsed.error);
    }
    var bca := Reversed(parsed.value);
    var J := new real[n, n]((_, _) => 0.0);
    var i := 0;
    while i < |clauses|
      invariant 0 <= i <= |clauses| && i <= |bca|
      invariant forall a, b :: 0 <= a < n && 0 <= b < n ==> J[a, b] == BondsBefore(n, bca, i, a, b)
    {
      if i >= |bca| {
        return Err(TooFewBonds);
      }
      var clause := clauses[i];
      CombinationsMembers(n);
      CombinationsIndexInverse(n, i);
      label before:
      J[clause.0, clause.1] := (-1 + 2 * bca[i]) as real;
      J[clause.1, clause.0] := (-1 + 2 * bca[i]) as real;
      forall a, b | 0 <= a < n && 0 <= b < n
        ensures J[a, b] == BondsBefore(n, bca, i + 1, a, b)
      {
        BondStep(n, bca, i, a, b);
      }
      i := i + 1;
    }
    forall a | 0 <= a < n
      ensures Rows(J)[a] == BondMatrix(n, parsed.value)[a]
    {
      forall b | 0 <= b < n
        ensures J[a, b] == BondEntry(n, parsed.value, a, b)
      {
        CombinationsAt(n);
      }
    }
    return Ok(J);
  }

  lemma BondStep(n: nat, bca: seq<int>, i: int, a: int, b: int)
    requires 0 <= a < n && 0 <= b < n && 0 <= i < |bca| && i < |Combinations2(n)|
    ensures BondsBefore(n, bca, i + 1, a, b) ==
      if (a, b) == Combinations2(n)[i] || (b, a) == Combinations2(n)[i] then (-1 + 2 * bca[i]) as real
      else BondsBefore(n, bca, i, a, b)
  {
    CombinationsMembers(n);
    CombinationsIndexInverse(n, i);
    CombinationsAt(n);
  }

  /** BCtoJij's couplings are symmetric, with no self-coupling. */
  lemma BondsAreSymmetric(n: nat, d: seq<int>)
    requires |d| >= |Combinations2(n)|
    ensures Symmetric(BondMatrix(n, d), n) && ZeroDiagonal(BondMatrix(n, d), n)
  {
  }

  /** The k-th pair of combinations(range(N), 2) takes the k-th digit from the end. */
  lemma BondOfPair(n: nat, d: seq<int>, k: int)
    requires |d| >= |Combinations2(n)| && 0 <= k < |Combinations2(n)|
    ensures 0 <= Combinations2(n)[k].0 < Combinations2(n)[k].1 < n
    ensures BondMatrix(n, d)[Combinations2(n)[k].0][Combinations2(n)[k].1] == (-1 + 2 * d[|d| - 1 - k]) as real
  {
    CombinationsMembers(n);
    CombinationsIndexInverse(n, k);
  }

  /** A configuration of 0s and 1s gives couplings of -1 (digit 0) and +1 (digit 1). */
  lemma BinaryBondsAreUnit(n: nat, bc: string, a: int, b: int)
    requires forall k :: 0 <= k < |bc| ==> bc[k] == '0' || bc[k] == '1'
    requires |bc| >= |Combinations2(n)| && 0 <= a < n && 0 <= b < n && a != b
    ensures DigitValues(bc).Ok?
    ensures BondMatrix(n, DigitValues(bc).value)[a][b] == 1.0 || BondMatrix(n, DigitValues(bc).value)[a][b] == -1.0
  {
    assert AllDigits(bc);
    var d := DigitValues(bc).value;
    CombinationsAt(n);
    var k := if a < b then PairIndex(n, a, b) else PairIndex(n, b, a);
    var idx := |d| - 1 - k;
    assert bc[idx] == '0' || bc[idx] == '1';
    assert d[idx] == 0 || d[idx] == 1;
    assert BondMatrix(n, d)[a][b] == (-1 + 2 * d[idx]) as real;
  }

  /** Loading a configuration the way SGViz.py does (G = JijtoG(BCtoJij(N, BC))) and
      spreading G out again with makeJij gives back BCtoJij's couplings. */
  lemma LoadedBondsRoundTrip(n: nat, d: seq<int>)
    requires |d| >= |Combinations2(n)|
    ensures forall a, b :: 0 <= a < n && 0 <= b < n ==>
      DenseSpec(ReducedSpec(BondMatrix(n, d), n), n)[a][b] == BondMatrix(n, d)[a][b]
  {
    BondsAreSymmetric(n, d);
    DenseRoundTrip(BondMatrix(n, d), n);
  }
}
