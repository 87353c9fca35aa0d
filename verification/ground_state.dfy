/** The ground-state selection of SGViz.py's window set-up: the energies are the negated
    diagonal of JZZ_SK, the ground states every basis index of least energy in
    ascending order (np.where(ea == ea.min())), and the configuration shown first the
    bits of the smallest of them. */
module GroundState {
  import opened IsingBasis
  import opened Couplings
  import opened Hamiltonian

  /** ea = -diag: the energy of every basis state. */
  function Negated(diag: seq<real>): (ea: seq<real>)
    ensures |ea| == |diag|
  {
    seq(|diag|, k requires 0 <= k < |diag| => -diag[k])
  }

  /** ea.min(): NumPy raises on an empty array, hence the precondition. */
  function MinOf(s: seq<real>): (m: real)
    requires |s| > 0
    ensures exists k :: 0 <= k < |s| && s[k] == m
    ensures forall k :: 0 <= k < |s| ==> m <= s[k]
  {
    if |s| == 1 then s[0]
    else
      var m := MinOf(s[..|s| - 1]);
      if s[|s| - 1] < m then s[|s| - 1] else m
  }

  /** np.where(s == v)[0]: the positions holding v, in ascending order. */
  function Where(s: seq<real>, v: real): (r: seq<nat>)
    ensures forall i, j :: 0 <= i < j < |r| ==> r[i] < r[j]
    ensures forall i :: 0 <= i < |r| ==> r[i] < |s| && s[r[i]] == v
    ensures forall k :: 0 <= k < |s| && s[k] == v ==> k in r
  {
    if |s| == 0 then []
    else Where(s[..|s| - 1], v) + (if s[|s| - 1] == v then [|s| - 1] else [])
  }

  /** gs: the basis indices of least energy. */
  function GroundStates(diag: seq<real>): seq<nat>
    requires |diag| > 0
  {
    var ea := Negated(diag);
    Where(ea, MinOf(ea))
  }

  /** gs is ascending and holds exactly the indices whose energy is the least; it is
      never empty. */
  lemma GroundStatesAreMinimal(diag: seq<real>)
    requires |diag| > 0
    ensures var gs := GroundStates(diag);
      |gs| > 0 &&
      (forall i, j :: 0 <= i < j < |gs| ==> gs[i] < gs[j]) &&
      (forall k :: 0 <= k < |diag| ==> (k in gs <==> forall b :: 0 <= b < |diag| ==> -diag[k] <= -diag[b]))
  {
    var ea := Negated(diag);
    var m := MinOf(ea);
    var gs := Where(ea, m);
    var k0 :| 0 <= k0 < |ea| && ea[k0] == m;
    assert k0 in gs;
    forall k | 0 <= k < |diag|
      ensures k in gs <==> forall b :: 0 <= b < |diag| ==> -diag[k] <= -diag[b]
    {
      assert ea[k] == -diag[k] && ea[k0] == -diag[k0];
      if k in gs {
        forall b | 0 <= b < |diag|
          ensures -diag[k] <= -diag[b]
        {
          assert ea[b] == -diag[b];
        }
      }
    }
  }

  /** cnfg = gs[0] is the smallest index of least energy: every index before it has a
      greater energy than some basis state. */
  lemma FirstGroundStateIsLeast(diag: seq<real>)
    requires |diag| > 0
    ensures |GroundStates(diag)| > 0
    ensures forall k :: 0 <= k < GroundStates(diag)[0] ==> exists b :: 0 <= b < |diag| && -diag[b] < -diag[k]
  {
    GroundStatesAreMinimal(diag);
    var gs := GroundStates(diag);
    forall k | 0 <= k < gs[0]
      ensures exists b :: 0 <= b < |diag| && -diag[b] < -diag[k]
    {
      assert gs[0] < |diag|;
      assert k !in gs;
    }
  }

  /** The configuration shown first: bin(cnfg)[2:].zfill(N) as digits, cnfg = gs[0]. */
  function Configuration(n: nat, diag: seq<real>): seq<int>
    requires |diag| > 0
  {
    GroundStatesAreMinimal(diag);
    State(n, GroundStates(diag)[0])
  }

  /** With the diagonal of JZZ_SK over the 2^N basis states, the configuration shown is
      an N-bit vector whose basis index is cnfg, and its spins have the greatest pair
      energy sum over a < b of J[a][b] s_a s_b of the dense couplings, that is the least
      energy. */
  lemma ConfigurationIsGroundState(G: seq<seq<real>>, n: nat, diag: seq<real>)
    requires n >= 1 && Reduced(G, n) && HalfDuplicated(G, n)
    requires |diag| == Pow2(n)
    requires forall b :: 0 <= b < |diag| ==> diag[b] == ShiftEnergy(G, SpinState(n, b), n)
    ensures |Configuration(n, diag)| == n && IsBits(Configuration(n, diag))
    ensures Index(Configuration(n, diag)) == GroundStates(diag)[0]
    ensures forall b :: 0 <= b < Pow2(n) ==>
      PairEnergy(DenseSpec(G, n), SpinState(n, b), n) <=
      PairEnergy(DenseSpec(G, n), SpinState(n, GroundStates(diag)[0]), n)
  {
    GroundStatesAreMinimal(diag);
    var gs := GroundStates(diag);
    var c := gs[0];
    StateShape(n, c);
    IndexOfState(n, c);
    forall b | 0 <= b < Pow2(n)
      ensures PairEnergy(DenseSpec(G, n), SpinState(n, b), n) <=
              PairEnergy(DenseSpec(G, n), SpinState(n, c), n)
    {
      ShiftEnergyIsPairEnergy(G, SpinState(n, b), n);
      ShiftEnergyIsPairEnergy(G, SpinState(n, c), n);
    }
  }

  /** Ground states come in pairs: the global flip 2^N - 1 - k of a ground state k is one
      as well. */
  lemma GroundStatesComeInPairs(G: seq<seq<real>>, n: nat, diag: seq<real>, k: nat)
    requires n >= 1 && |diag| == Pow2(n)
    requires forall b :: 0 <= b < |diag| ==> diag[b] == ShiftEnergy(G, SpinState(n, b), n)
    requires k in GroundStates(diag)
    ensures Pow2(n) - 1 - k in GroundStates(diag)
  {
    GroundStatesAreMinimal(diag);
    assert k < |diag|;
    GlobalFlipEnergy(G, n, k);
  }
}
