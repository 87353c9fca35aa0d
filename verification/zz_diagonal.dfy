/** The loops of JZZ_SK_ME and the diagonal matrix of JZZ_SK (tfim.py): for every basis
    state b the spin vector is rotated by each shift 1 .. N/2 into a scratch vector,
    and the dot product of the reduced coupling row with the rotated vector and the
    state is accumulated, with weight 1/2 at the antipodal shift of an even ring. */
module ZzDiagonal {
  import opened Sums
  import opened IsingBasis
  import opened Couplings
  import opened Hamiltonian

  /** Entry i of a real vector, 0 outside it. */
  function At(row: seq<real>, i: int): real
  {
    if 0 <= i < |row| then row[i] else 0.0
  }

  /** row[i] * sh[i] * st[i]. */
  function DotSummand(row: seq<real>, sh: seq<int>, st: seq<int>, i: int): real
  {
    At(row, i) * Sp(sh, i) * Sp(st, i)
  }

  function DotSummands(row: seq<real>, sh: seq<int>, st: seq<int>): int -> real
  {
    i => DotSummand(row, sh, st, i)
  }

  /** np.dot(row * sh, st) over the length of st. */
  function Dot(row: seq<real>, sh: seq<int>, st: seq<int>): real
  {
    Sum(0, |st|, DotSummands(row, sh, st))
  }

  /** sh is shift_state for shift d: position i holds the spin d places behind i. */
  predicate IsShifted(sh: seq<int>, st: seq<int>, n: nat, d: int)
  {
    0 <= d <= n && |sh| == n && |st| == n &&
    forall i :: 0 <= i < n ==> sh[i] == st[Wrap(i - d, n)]
  }

  /** With shift_state rotated by d, the dot product of shift d is the shift term d. */
  lemma DotIsShiftTerm(G: seq<seq<real>>, sh: seq<int>, st: seq<int>, n: nat, d: int)
    requires 1 <= d <= |G| && IsShifted(sh, st, n, d)
    ensures Dot(G[d - 1], sh, st) == ShiftTerm(G, st, n, d)
  {
    forall i | 0 <= i < n
      ensures DotSummands(G[d - 1], sh, st)(i) == ShiftSummands(G, st, n, d)(i)
    {
      assert DotSummands(G[d - 1], sh, st)(i) == DotSummand(G[d - 1], sh, st, i);
      assert ShiftSummands(G, st, n, d)(i) == ShiftSummand(G, st, n, d, i);
      assert At(G[d - 1], i) == Entry(G, d - 1, i);
      assert Sp(sh, i) == Sp(st, Wrap(i - d, n));
    }
    SumExt(0, n, DotSummands(G[d - 1], sh, st), ShiftSummands(G, st, n, d));
  }

  /** Fills shift_state with state rotated by d places (the two slice assignments). */
  method Rotate(shiftState: array<int>, state: seq<int>, n: nat, d: int)
    requires shiftState.Length == n && |state| == n && 1 <= d < n
    modifies shiftState
    ensures IsShifted(shiftState[..], state, n, d)
  {
    forall k | d <= k < n {
      shiftState[k] := state[k - d];
    }
    forall k | 0 <= k < d {
      shiftState[k] := state[n - d + k];
    }
    forall i | 0 <= i < n
      ensures shiftState[..][i] == state[Wrap(i - d, n)]
    {
    }
  }

  /** The shift loop of JZZ_SK_ME for one basis state: adds the weighted dot products of
      shifts 1 .. N/2 into jzz[b]; the other entries are left as they were. */
  method AddShiftTerms(jzz: array<real>, b: int, shiftState: array<int>, state: seq<int>,
                       n: nat, g: seq<seq<real>>)
    requires 0 <= b < jzz.Length && shiftState.Length == n
    requires n < 2 || (n / 2 <= |g| && |state| == n)
    modifies jzz, shiftState
    ensures jzz[b] == old(jzz[b]) + ShiftEnergy(g, state, n)
    ensures forall c :: 0 <= c < jzz.Length && c != b ==> jzz[c] == old(jzz[c])
  {
    ghost var W := WeightedShiftTerms(g, state, n);
    for shift := 1 to n / 2 + 1
      invariant jzz[b] == old(jzz[b]) + Sum(1, shift, W)
      invariant forall c :: 0 <= c < jzz.Length && c != b ==> jzz[c] == old(jzz[c])
    {
      Rotate(shiftState, state, n, shift);
      var dot := Dot(g[shift - 1], shiftState[..], state);
      DotIsShiftTerm(g, shiftState[..], state, n, shift);
      if n % 2 == 0 && shift == n / 2 {
        jzz[b] := jzz[b] + 0.5 * dot;
      } else {
        jzz[b] := jzz[b] + dot;
      }
      assert W(shift) == Weight(n, shift) * ShiftTerm(g, state, n, shift);
    }
  }

  /** JZZ_SK_ME: entry b is the shift energy of spin_state(b), for every basis state. */
  method JzzSkMe(n: nat, G: array2<real>) returns (jzz: array<real>)
    requires n < 2 || (n / 2 <= G.Length0 && G.Length1 == n)
    ensures fresh(jzz) && jzz.Length == Pow2(n)
    ensures forall b :: 0 <= b < jzz.Length ==> jzz[b] == ShiftEnergy(Rows(G), SpinState(n, b), n)
  {
    jzz := new real[Pow2(n)](_ => 0.0);
    var shiftState := new int[n](_ => 0);
    var g := Rows(G);
    for b := 0 to jzz.Length
      invariant forall c :: 0 <= c < b ==> jzz[c] == ShiftEnergy(g, SpinState(n, c), n)
      invariant forall c :: b <= c < jzz.Length ==> jzz[c] == 0.0
    {
      var state := SpinState(n, b);
      if n >= 1 {
        StateShape(n, b);
      }
      AddShiftTerms(jzz, b, shiftState, state, n, g);
    }
  }

  /** JZZ_SK: the diagonal sparse matrix holding JZZ_SK_ME, as (row, column, value)
      entries; for a half-duplicated reduced G each value is the pair energy of the
      dense couplings makeJij(G). */
  method JzzSk(n: nat, G: array2<real>) returns (entries: seq<(int, int, real)>)
    requires n < 2 || (n / 2 <= G.Length0 && G.Length1 == n)
    ensures |entries| == Pow2(n)
    ensures forall b :: 0 <= b < |entries| ==>
      entries[b] == (b, b, ShiftEnergy(Rows(G), SpinState(n, b), n))
    ensures Reduced(Rows(G), n) && HalfDuplicated(Rows(G), n) ==>
      forall b :: 0 <= b < |entries| ==>
        entries[b].2 == PairEnergy(DenseSpec(Rows(G), n), SpinState(n, b), n)
  {
    var me := JzzSkMe(n, G);
    entries := seq(me.Length, b requires 0 <= b < me.Length reads me => (b, b, me[b]));
    if Reduced(Rows(G), n) && HalfDuplicated(Rows(G), n) {
      forall b | 0 <= b < |entries|
        ensures entries[b].2 == PairEnergy(DenseSpec(Rows(G), n), SpinState(n, b), n)
      {
        ShiftEnergyIsPairEnergy(Rows(G), SpinState(n, b), n);
      }
    }
  }
}
