/** The bond tallies of SGViz.py's drawBonds: every pair i < j of the configuration is
    visited in the order of combinations(range(N), 2); a bond whose value
    int(J[i][j] * s_i * s_j) is -1 is unsatisfied, any other satisfied, and each bond
    increments the counter of both its spins. The labels show each counter sum halved. */
module BondCount {
  import opened Pairs
  import opened Couplings

  /** Python's int() of a float: truncation toward zero. */
  function Trunc(x: real): int
  {
    if x >= 0.0 then x.Floor else -((-x).Floor)
  }

  /** J[i][j] * (2 * config[i] - 1) * (2 * config[j] - 1). */
  function Alignment(jij: real, ci: int, cj: int): real
  {
    jij * ((2 * ci - 1) as real) * ((2 * cj - 1) as real)
  }

  /** Entry (a, b) of the coupling rows, 0 outside them. */
  function Bond(g: seq<seq<real>>, a: int, b: int): real
  {
    if 0 <= a < |g| && 0 <= b < |g[a]| then g[a][b] else 0.0
  }

  /** Bit k of the configuration, 0 outside it. */
  function Bit(c: seq<int>, k: int): int
  {
    if 0 <= k < |c| then c[k] else 0
  }

  /** int(J[i][j] * s_i * s_j) == -1: the bond is drawn dashed. */
  predicate Dashed(jij: real, ci: int, cj: int)
  {
    Trunc(Alignment(jij, ci, cj)) == -1
  }

  /** The bond (a, b) is drawn dashed and counted as unsatisfied. */
  predicate Unsatisfied(g: seq<seq<real>>, c: seq<int>, a: int, b: int)
  {
    Dashed(Bond(g, a, b), Bit(c, a), Bit(c, b))
  }

  /** Counter k plus one. */
  function Bump(t: seq<int>, k: int): (r: seq<int>)
    ensures |r| == |t|
  {
    if 0 <= k < |t| then t[k := t[k] + 1] else t
  }

  /** The counters after the pairs ps, each pair that is unsatisfied (want) or satisfied
      (!want) incrementing both of its spins. */
  function Tally(ps: seq<Pair>, n: nat, g: seq<seq<real>>, c: seq<int>, want: bool): (t: seq<int>)
    ensures |t| == n
  {
    if |ps| == 0 then seq(n, _ => 0)
    else
      var t := Tally(ps[..|ps| - 1], n, g, c, want);
      var p := ps[|ps| - 1];
      if Unsatisfied(g, c, p.0, p.1) == want then Bump(Bump(t, p.0), p.1) else t
  }

  /** How many pairs of ps are unsatisfied (want) or satisfied (!want). */
  function Matching(ps: seq<Pair>, g: seq<seq<real>>, c: seq<int>, want: bool): nat
  {
    if |ps| == 0 then 0
    else
      var p := ps[|ps| - 1];
      Matching(ps[..|ps| - 1], g, c, want) + (if Unsatisfied(g, c, p.0, p.1) == want then 1 else 0)
  }

  /** sum(list). */
  function Total(t: seq<int>): int
  {
    if |t| == 0 then 0 else Total(t[..|t| - 1]) + t[|t| - 1]
  }

  // ---------------------------------------------------------------------------
  // Properties of the tallies
  // ---------------------------------------------------------------------------

  /** int(x) is -1 exactly for -2 < x <= -1. */
  lemma TruncIsMinusOne(x: real)
    ensures Trunc(x) == -1 <==> -2.0 < x <= -1.0
  {
  }

  /** For a coupling of +1 or -1 and 0/1 spins, a bond is unsatisfied exactly when
      J s_i s_j is -1: a ferromagnetic bond between unlike spins or an
      antiferromagnetic bond between like ones. */
  lemma UnitBondUnsatisfied(jij: real, ci: int, cj: int)
    requires jij == 1.0 || jij == -1.0
    requires (ci == 0 || ci == 1) && (cj == 0 || cj == 1)
    ensures Trunc(Alignment(jij, ci, cj)) == -1 <==> Alignment(jij, ci, cj) == -1.0
    ensures Trunc(Alignment(jij, ci, cj)) == -1 <==> (jij == 1.0 <==> ci != cj)
  {
  }

  lemma {:induction false} TotalBump(t: seq<int>, k: int)
    requires 0 <= k < |t|
    ensures Total(Bump(t, k)) == Total(t) + 1
  {
    var r := Bump(t, k);
    if k == |t| - 1 {
      assert r[..|r| - 1] == t[..|t| - 1];
    } else {
      assert r[..|r| - 1] == Bump(t[..|t| - 1], k);
      TotalBump(t[..|t| - 1], k);
    }
  }

  lemma {:induction false} TotalOfZeros(n: nat)
    ensures Total(seq(n, _ => 0)) == 0
  {
    if n > 0 {
      assert seq(n, _ => 0)[..n - 1] == seq(n - 1, _ => 0);
      TotalOfZeros(n - 1);
    }
  }

  /** Each counted bond adds one to two counters, so a counter sum is twice the number of
      bonds counted: the halved sum on the label is that number. */
  lemma {:induction false} TallyTotal(ps: seq<Pair>, n: nat, g: seq<seq<real>>, c: seq<int>, want: bool)
    requires forall k :: 0 <= k < |ps| ==> 0 <= ps[k].0 < n && 0 <= ps[k].1 < n
    ensures Total(Tally(ps, n, g, c, want)) == 2 * Matching(ps, g, c, want)
  {
    if |ps| == 0 {
      TotalOfZeros(n);
    } else {
      var t := Tally(ps[..|ps| - 1], n, g, c, want);
      var p := ps[|ps| - 1];
      TallyTotal(ps[..|ps| - 1], n, g, c, want);
      if Unsatisfied(g, c, p.0, p.1) == want {
        TotalBump(t, p.0);
        TotalBump(Bump(t, p.0), p.1);
      }
    }
  }

  /** Every pair is either unsatisfied or satisfied. */
  lemma {:induction false} MatchingSplit(ps: seq<Pair>, g: seq<seq<real>>, c: seq<int>)
    ensures Matching(ps, g, c, true) + Matching(ps, g, c, false) == |ps|
  {
    if |ps| > 0 {
      MatchingSplit(ps[..|ps| - 1], g, c);
    }
  }

  // ---------------------------------------------------------------------------
  // The loop of drawBonds
  // ---------------------------------------------------------------------------

  /** The pairs visited before (i, j): all rows before i and row i up to column j. */
  function Visited(n: nat, i: nat, j: int): seq<Pair>
    requires i < n && i + 1 <= j <= n
  {
    PairsBefore(n, i) + Row(i, n)[..j - i - 1]
  }

  lemma VisitedStep(n: nat, i: nat, j: int)
    requires i < n && i + 1 <= j < n
    ensures Visited(n, i, j + 1) == Visited(n, i, j) + [(i, j)]
  {
    assert Row(i, n)[..j - i] == Row(i, n)[..j - i - 1] + [(i, j)];
  }

  lemma VisitedRow(n: nat, i: nat)
    requires i < n
    ensures Visited(n, i, i + 1) == PairsBefore(n, i)
    ensures Visited(n, i, n) == PairsBefore(n, i + 1)
  {
    assert Row(i, n)[..n - i - 1] == Row(i, n);
  }

  /** Visiting one more pair bumps both of its counters in the tally it belongs to. */
  lemma TallySnoc(ps: seq<Pair>, p: Pair, n: nat, g: seq<seq<real>>, c: seq<int>, want: bool)
    ensures Tally(ps + [p], n, g, c, want) ==
      if Unsatisfied(g, c, p.0, p.1) == want then Bump(Bump(Tally(ps, n, g, c, want), p.0), p.1)
      else Tally(ps, n, g, c, want)
  {
    assert (ps + [p])[..|ps|] == ps;
  }

  /** counter[i] += 1; counter[j] += 1. */
  method BumpPair(t: array<int>, i: nat, j: nat)
    requires i < t.Length && j < t.Length
    modifies t
    ensures t[..] == Bump(Bump(old(t[..]), i), j)
  {
    t[i] := t[i] + 1;
    t[j] := t[j] + 1;
  }

  /** One step of the inner loop: visiting (i, j) bumps both counters of the tally the
      bond belongs to and leaves the other tally alone. */
  lemma RowStep(n: nat, i: nat, j: nat, g: seq<seq<real>>, c: seq<int>, dashed: bool)
    requires i < j < n && dashed == Unsatisfied(g, c, i, j)
    ensures Tally(Visited(n, i, j + 1), n, g, c, dashed) ==
      Bump(Bump(Tally(Visited(n, i, j), n, g, c, dashed), i), j)
    ensures Tally(Visited(n, i, j + 1), n, g, c, !dashed) == Tally(Visited(n, i, j), n, g, c, !dashed)
  {
    VisitedStep(n, i, j);
    TallySnoc(Visited(n, i, j), (i, j), n, g, c, dashed);
    TallySnoc(Visited(n, i, j), (i, j), n, g, c, !dashed);
  }

  /** The inner loop for spin i: visits the pairs (i, j), j = i+1 .. N-1. */
  method CountRow(n: nat, J: seq<seq<real>>, config: seq<int>, i: nat,
                  ubond: array<int>, sbond: array<int>)
    requires i < n && Square(J, n) && |config| >= n
    requires ubond.Length == n && sbond.Length == n && ubond != sbond
    requires ubond[..] == Tally(PairsBefore(n, i), n, J, config, true)
    requires sbond[..] == Tally(PairsBefore(n, i), n, J, config, false)
    modifies ubond, sbond
    ensures ubond[..] == Tally(PairsBefore(n, i + 1), n, J, config, true)
    ensures sbond[..] == Tally(PairsBefore(n, i + 1), n, J, config, false)
  {
    VisitedRow(n, i);
    for j := i + 1 to n
      invariant ubond[..] == Tally(Visited(n, i, j), n, J, config, true)
      invariant sbond[..] == Tally(Visited(n, i, j), n, J, config, false)
    {
      var dashed := Dashed(J[i][j], config[i], config[j]);
      RowStep(n, i, j, J, config, dashed);
      if dashed {
        BumpPair(ubond, i, j);
      } else {
        BumpPair(sbond, i, j);
      }
    }
  }

  /** drawBonds' counting: the per-spin counters of unsatisfied and satisfied bonds, and
      the two label values sum(counters) // 2, which together count every pair once. */
  method CountBonds(n: nat, J: seq<seq<real>>, config: seq<int>)
    returns (ubond: array<int>, sbond: array<int>, unsatisfied: int, satisfied: int)
    requires Square(J, n) && |config| >= n
    ensures fresh(ubond) && fresh(sbond)
    ensures ubond[..] == Tally(Combinations2(n), n, J, config, true)
    ensures sbond[..] == Tally(Combinations2(n), n, J, config, false)
    ensures unsatisfied == Matching(Combinations2(n), J, config, true)
    ensures satisfied == Matching(Combinations2(n), J, config, false)
    ensures 2 * (unsatisfied + satisfied) == n * (n - 1)
  {
    ubond := new int[n](_ => 0);
    sbond := new int[n](_ => 0);
    assert ubond[..] == Tally(PairsBefore(n, 0), n, J, config, true);
    for i := 0 to n
      invariant ubond[..] == Tally(PairsBefore(n, i), n, J, config, true)
      invariant sbond[..] == Tally(PairsBefore(n, i), n, J, config, false)
    {
      CountRow(n, J, config, i, ubond, sbond);
    }
    var ps := Combinations2(n);
    CombinationsMembers(n);
    CombinationsLength(n);
    TallyTotal(ps, n, J, config, true);
    TallyTotal(ps, n, J, config, false);
    MatchingSplit(ps, J, config);
    unsatisfied := Total(ubond[..]) / 2;
    satisfied := Total(sbond[..]) / 2;
  }
}
