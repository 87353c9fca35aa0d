/** The lattice description of tfim.py (class Lattice): the linear size of each axis,
    the boundary condition, and the derived spin count N, dimensionality D and number
    of nearest-neighbour links. */
module Lattice {

  /** np.prod(L); 1 for no axes. */
  function Product(L: seq<nat>): nat
  {
    if |L| == 0 then 1 else Product(L[..|L| - 1]) * L[|L| - 1]
  }

  /** sum(L). */
  function Total(L: seq<nat>): nat
  {
    if |L| == 0 then 0 else Total(L[..|L| - 1]) + L[|L| - 1]
  }

  predicate PositiveSizes(L: seq<nat>)
  {
    forall i :: 0 <= i < |L| ==> L[i] >= 1
  }

  datatype Lattice = Lattice(L: seq<nat>, PBC: bool)
  {
    /** The number of spins N. */
    function N(): nat
    {
      Product(L)
    }

    /** The spatial dimensionality D. */
    function D(): nat
    {
      |L|
    }

    /** N_links as tfim.py computes it: D*N, less 1 for an open chain, less sum(L) for
        an open lattice of two or more axes. */
    function NLinks(): int
    {
      D() * N() - (if PBC then 0 else if D() == 1 then 1 else Total(L))
    }

    /** The link count with the open-boundary deduction D*N - (sum over axes of the
        cross-section N / L_d), which is what sum(L) equals when D <= 2. */
    function CorrectedNLinks(): int
    {
      D() * N() - (if PBC then 0 else CrossSections(L))
    }
  }

  /** The sum, over the axes d, of the product of the other axes' sizes. */
  function CrossSections(L: seq<nat>): nat
  {
    if |L| == 0 then 0 else L[|L| - 1] * CrossSections(L[..|L| - 1]) + Product(L[..|L| - 1])
  }

  /** Reference count of nearest-neighbour links in an open L_1 x ... x L_D grid, built
      one axis at a time: an axis of length x stacks x copies of the smaller grid and
      joins consecutive copies by one link per site of the smaller grid. */
  function OpenGridLinks(L: seq<nat>): int
  {
    if |L| == 0 then 0
    else
      var x := L[|L| - 1];
      x * OpenGridLinks(L[..|L| - 1]) + (x - 1) * Product(L[..|L| - 1])
  }

  /** The one-dimensional lattice the visualiser builds, Lattice([N]): N spins on a ring
      of N links, or N - 1 links when the boundary is open. */
  lemma ChainLattice(n: nat, pbc: bool)
    ensures Lattice([n], pbc).N() == n && Lattice([n], pbc).D() == 1
    ensures Lattice([n], pbc).NLinks() == if pbc then n else n - 1
  {
    assert [n][..0] == [];
    assert Product([n]) == Product([]) * n;
  }

  /** With open boundaries the corrected count is the number of links of the grid. */
  lemma {:induction false} CorrectedCountsOpenLinks(L: seq<nat>)
    requires PositiveSizes(L)
    ensures Lattice(L, false).CorrectedNLinks() == OpenGridLinks(L)
    decreases |L|
  {
    if |L| > 0 {
      var init, x := L[..|L| - 1], L[|L| - 1];
      assert PositiveSizes(init);
      CorrectedCountsOpenLinks(init);
      var P, C, d := Product(init), CrossSections(init), |init|;
      assert OpenGridLinks(init) == d * P - C;
      assert OpenGridLinks(L) == x * (d * P - C) + (x - 1) * P;
      assert Product(L) == P * x && CrossSections(L) == x * C + P;
      LayerAlgebra(d, P, C, x);
    }
  }

  /** (d+1)*(P*x) - (x*C + P) == x*(d*P - C) + (x-1)*P */
  lemma LayerAlgebra(d: int, P: int, C: int, x: int)
    ensures (d + 1) * (P * x) - (x * C + P) == x * (d * P - C) + (x - 1) * P
  {
    assert (d + 1) * (P * x) == x * (d * P) + x * P;
    assert x * (d * P - C) == x * (d * P) - x * C;
    assert (x - 1) * P == x * P - P;
  }

  /** For one or two axes the source's formula and the corrected one agree. */
  lemma SourceAgreesUpToTwoAxes(L: seq<nat>, pbc: bool)
    requires 1 <= |L| <= 2
    ensures Lattice(L, pbc).NLinks() == Lattice(L, pbc).CorrectedNLinks()
  {
    if |L| == 1 {
      assert L[..0] == [];
    } else {
      assert L[..1] == [L[0]] && L[..1][..0] == [];
      assert Product(L[..1]) == L[0] && Total(L[..1]) == L[0];
      assert CrossSections(L[..1]) == 1;
      assert Total(L) == L[0] + L[1];
      assert CrossSections(L) == L[1] + L[0];
    }
  }

  /** The source's open-boundary formula overcounts from three axes on: an open
      2 x 2 x 2 cube has 12 links, but D*N - sum(L) gives 18. */
  lemma SourceOvercountsOpenCube()
    ensures Lattice([2, 2, 2], false).NLinks() == 18
    ensures OpenGridLinks([2, 2, 2]) == 12
    ensures Lattice([2, 2, 2], false).CorrectedNLinks() == 12
  {
    var L := [2, 2, 2];
    assert L[..2] == [2, 2] && L[..2][..1] == [2] && L[..2][..1][..0] == [];
    assert Product([2]) == 2 && Product([2, 2]) == 4 && Product(L) == 8;
    assert Total([2]) == 2 && Total([2, 2]) == 4 && Total(L) == 6;
    assert OpenGridLinks([2]) == 1 && OpenGridLinks([2, 2]) == 4;
    assert CrossSections([2]) == 1 && CrossSections([2, 2]) == 4 && CrossSections(L) == 12;
  }
}
