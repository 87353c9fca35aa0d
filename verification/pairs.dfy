/** The canonical list of spin pairs: itertools.combinations(range(N), 2), which
    SGFrustration.py calls bond_list_maker and SGViz.py's BCtoJij calls clause_list.
    Pair k of the list is the k-th bond of a bond configuration. */
module Pairs {

  type Pair = (int, int)

  /** The pairs that begin with spin a, in increasing second spin: (a, a+1) .. (a, n-1). */
  function Row(a: int, n: nat): (r: seq<Pair>)
    requires 0 <= a < n
    ensures |r| == n - a - 1
  {
    seq(n - a - 1, k requires 0 <= k < n - a - 1 => (a, a + 1 + k))
  }

  /** The pairs whose first spin is below a, row after row. */
  function PairsBefore(n: nat, a: nat): seq<Pair>
    requires a <= n
  {
    if a == 0 then [] else PairsBefore(n, a - 1) + Row(a - 1, n)
  }

  /** combinations(range(n), 2). */
  function Combinations2(n: nat): seq<Pair>
  {
    PairsBefore(n, n)
  }

  /** The position of the pair (a, b), a < b, in Combinations2(n). */
  function PairIndex(n: nat, a: nat, b: int): int
    requires a < n
  {
    |PairsBefore(n, a)| + (b - a - 1)
  }

  /** Lexicographic order of pairs, the order combinations emits them in. */
  predicate PairLess(p: Pair, q: Pair)
  {
    p.0 < q.0 || (p.0 == q.0 && p.1 < q.1)
  }

  predicate StrictlyIncreasing(ps: seq<Pair>)
  {
    forall i, j :: 0 <= i < j < |ps| ==> PairLess(ps[i], ps[j])
  }

  /** bond_list_maker(N): each pair as a two-element list [a, b]. */
  function BondListMaker(n: nat): (r: seq<seq<int>>)
    ensures |r| * 2 == n * (n - 1)
    ensures forall k :: 0 <= k < |r| ==> |r[k]| == 2 && 0 <= r[k][0] < r[k][1] < n
    ensures forall a, b :: 0 <= a < b < n ==>
              0 <= PairIndex(n, a, b) < |r| && r[PairIndex(n, a, b)] == [a, b]
  {
    var ps := Combinations2(n);
    CombinationsLength(n);
    CombinationsMembers(n);
    CombinationsAt(n);
    seq(|ps|, k requires 0 <= k < |ps| => [ps[k].0, ps[k].1])
  }

  lemma {:induction false} PairsBeforeLength(n: nat, a: nat)
    requires a <= n
    ensures |PairsBefore(n, a)| * 2 == a * (2 * n - a - 1)
  {
    if a > 0 {
      PairsBeforeLength(n, a - 1);
      assert |PairsBefore(n, a)| == |PairsBefore(n, a - 1)| + (n - a);
      assert (a - 1) * (2 * n - a) + 2 * (n - a) == a * (2 * n - a - 1);
    }
  }

  /** combinations(range(n), 2) has n(n-1)/2 pairs. */
  lemma CombinationsLength(n: nat)
    ensures |Combinations2(n)| * 2 == n * (n - 1)
  {
    PairsBeforeLength(n, n);
  }

  lemma {:induction false} PairsBeforeMembers(n: nat, a: nat)
    requires a <= n
    ensures forall k :: 0 <= k < |PairsBefore(n, a)| ==>
              0 <= PairsBefore(n, a)[k].0 < a && PairsBefore(n, a)[k].0 < PairsBefore(n, a)[k].1 < n
  {
    if a > 0 {
      PairsBeforeMembers(n, a - 1);
    }
  }

  /** Every listed pair is (a, b) with 0 <= a < b < n. */
  lemma CombinationsMembers(n: nat)
    ensures forall k :: 0 <= k < |Combinations2(n)| ==>
              0 <= Combinations2(n)[k].0 < Combinations2(n)[k].1 < n
  {
    PairsBeforeMembers(n, n);
  }

  lemma {:induction false} PairsBeforeAt(n: nat, a: nat, x: nat, y: int)
    requires a <= n && x < a && x < y < n
    ensures 0 <= PairIndex(n, x, y) < |PairsBefore(n, a)|
    ensures PairsBefore(n, a)[PairIndex(n, x, y)] == (x, y)
  {
    if x < a - 1 {
      PairsBeforeAt(n, a - 1, x, y);
    } else {
      assert PairsBefore(n, a) == PairsBefore(n, x) + Row(x, n);
    }
  }

  /** Every pair 0 <= a < b < n is listed, at position PairIndex(n, a, b). */
  lemma CombinationsAt(n: nat)
    ensures forall a, b :: 0 <= a < b < n ==>
              0 <= PairIndex(n, a, b) < |Combinations2(n)| && Combinations2(n)[PairIndex(n, a, b)] == (a, b)
  {
    forall a, b | 0 <= a < b < n
      ensures 0 <= PairIndex(n, a, b) < |Combinations2(n)| && Combinations2(n)[PairIndex(n, a, b)] == (a, b)
    {
      PairsBeforeAt(n, n, a, b);
    }
  }

  lemma {:induction false} PairsBeforeIncreasing(n: nat, a: nat)
    requires a <= n
    ensures StrictlyIncreasing(PairsBefore(n, a))
  {
    if a > 0 {
      PairsBeforeIncreasing(n, a - 1);
      PairsBeforeMembers(n, a - 1);
    }
  }

  /** The pairs come in strictly increasing lexicographic order, so none repeats. */
  lemma CombinationsIncreasing(n: nat)
    ensures StrictlyIncreasing(Combinations2(n))
  {
    PairsBeforeIncreasing(n, n);
  }

  /** PairIndex inverts the listing: the pair at position k sits at PairIndex of itself. */
  lemma CombinationsIndexInverse(n: nat, k: int)
    requires 0 <= k < |Combinations2(n)|
    ensures 0 <= Combinations2(n)[k].0 < n
    ensures PairIndex(n, Combinations2(n)[k].0, Combinations2(n)[k].1) == k
  {
    var ps := Combinations2(n);
    CombinationsMembers(n);
    CombinationsAt(n);
    CombinationsIncreasing(n);
    var j := PairIndex(n, ps[k].0, ps[k].1);
    assert ps[j] == ps[k];
  }
}
