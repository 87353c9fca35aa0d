/** The basis of the Hilbert space of an N-spin Ising model (class IsingBasis of
    tfim.py): the bijection between a basis index k in [0, 2^N) and the N-bit 0/1
    configuration with spin 0 as the most significant bit, the ±1 spin vector
    derived from it, and the single-spin flip that updates a configuration in place. */
module IsingBasis {

  /** 2^n: the basis size M of n spins. */
  function Pow2(n: nat): (r: nat)
    ensures r >= 1
  {
    if n == 0 then 1 else 2 * Pow2(n - 1)
  }

  predicate IsBits(v: seq<int>)
  {
    forall i :: 0 <= i < |v| ==> v[i] == 0 || v[i] == 1
  }

  /** The digits of bin(k)[2:]: most significant first, a single 0 for k == 0. */
  function BinDigits(k: nat): (r: seq<int>)
    ensures |r| >= 1 && IsBits(r)
    ensures |r| > 1 ==> r[0] == 1
  {
    if k < 2 then [k] else BinDigits(k / 2) + [k % 2]
  }

  /** str.zfill(n) on a digit string: zeros on the left up to width n, never a truncation. */
  function ZFill(v: seq<int>, n: nat): seq<int>
  {
    if |v| >= n then v else seq(n - |v|, _ => 0) + v
  }

  /** IsingBasis.state(k): bin(k)[2:].zfill(N) as a vector of digits. */
  function State(n: nat, k: nat): seq<int>
  {
    ZFill(BinDigits(k), n)
  }

  /** IsingBasis.spin_state(k): 2*state(k) - 1, entry by entry. */
  function SpinState(n: nat, k: nat): (r: seq<int>)
    ensures |r| == |State(n, k)|
    ensures forall i :: 0 <= i < |r| ==> (r[i] == 1 || r[i] == -1) && (r[i] == 1 <==> State(n, k)[i] == 1)
  {
    var st := State(n, k);
    StateIsBits(n, k);
    seq(|st|, i requires 0 <= i < |st| => 2 * st[i] - 1)
  }

  /** The n-bit big-endian expansion of k: the reference definition State is compared with. */
  function Bits(n: nat, k: nat): seq<int>
  {
    if n == 0 then [] else Bits(n - 1, k / 2) + [k % 2]
  }

  /** The value of a digit vector read as a base-2 numeral, most significant digit first. */
  function FromBits(v: seq<int>): int
  {
    if |v| == 0 then 0 else 2 * FromBits(v[..|v| - 1]) + v[|v| - 1]
  }

  /** IsingBasis.index(state): int(''.join(state), 2), on a non-empty 0/1 vector. */
  function Index(v: seq<int>): (k: nat)
    requires |v| >= 1 && IsBits(v)
    ensures k < Pow2(|v|)
  {
    BitsRoundTrip(v);
    FromBits(v)
  }

  // ---------------------------------------------------------------------------
  // State agrees with the fixed-width expansion

  lemma StateIsBits(n: nat, k: nat)
    ensures |State(n, k)| >= 1 && IsBits(State(n, k))
  {
  }

  lemma {:induction false} BitsOfZero(m: nat)
    ensures Bits(m, 0) == seq(m, _ => 0)
  {
    if m > 0 {
      BitsOfZero(m - 1);
    }
  }

  lemma {:induction false} BitsShape(n: nat, k: nat)
    ensures |Bits(n, k)| == n && IsBits(Bits(n, k))
  {
    if n > 0 {
      BitsShape(n - 1, k / 2);
    }
  }

  lemma ZFillSnoc(v: seq<int>, b: int, n: nat)
    requires n >= 1
    ensures ZFill(v + [b], n) == ZFill(v, n - 1) + [b]
  {
    if |v| + 1 < n {
      assert seq(n - |v| - 1, _ => 0) + (v + [b]) == (seq(n - 1 - |v|, _ => 0) + v) + [b];
    }
  }

  lemma {:induction false} BinDigitsLength(n: nat, k: nat)
    requires k < Pow2(n)
    ensures |BinDigits(k)| <= if n == 0 then 1 else n
  {
    if k >= 2 {
      BinDigitsLength(n - 1, k / 2);
    }
  }

  /** For 0 <= k < 2^n (n >= 1), state(k) is exactly the n-bit expansion of k. */
  lemma {:induction false} StateIsFixedWidth(n: nat, k: nat)
    requires n >= 1 && k < Pow2(n)
    ensures State(n, k) == Bits(n, k)
  {
    if k < 2 {
      BitsOfZero(n - 1);
      assert k / 2 == 0;
    } else {
      StateIsFixedWidth(n - 1, k / 2);
      ZFillSnoc(BinDigits(k / 2), k % 2, n);
    }
  }

  /** Division is determined by quotient and remainder. */
  lemma DivUnique(x: int, d: int, q: int, r: int)
    requires d >= 1 && x == d * q + r && 0 <= r < d
    ensures x / d == q
  {
    var q', r' := x / d, x % d;
    assert d * q' + r' == d * q + r;
    assert d * (q - q') == r' - r;
    if q > q' {
      MulMonotone(d, q - q');
    } else if q < q' {
      MulMonotone(d, q' - q);
    }
  }

  lemma MulMonotone(d: int, t: int)
    requires d >= 1 && t >= 1
    ensures d * t >= d
  {
  }

  lemma DivTwice(k: nat, p: nat)
    requires p >= 1
    ensures k / 2 / p == k / (2 * p)
  {
    var q, r := k / (2 * p), k % (2 * p);
    var pq := p * q;
    assert k == 2 * pq + r by {
      assert k == (2 * p) * q + r;
    }
    assert r == 2 * (r / 2) + r % 2;
    DivUnique(k, 2, pq + r / 2, r % 2);
    assert 0 <= r / 2 < p;
    DivUnique(pq + r / 2, p, q, r / 2);
  }

  /** Bit i of the n-bit expansion is digit n-1-i of k in base 2. */
  lemma {:induction false} BitsAt(n: nat, k: nat, i: nat)
    requires i < n
    ensures |Bits(n, k)| == n
    ensures Bits(n, k)[i] == (k / Pow2(n - 1 - i)) % 2
  {
    BitsShape(n, k);
    if i < n - 1 {
      BitsAt(n - 1, k / 2, i);
      BitsShape(n - 1, k / 2);
      assert Pow2(n - 1 - i) == 2 * Pow2(n - 2 - i);
      DivTwice(k, Pow2(n - 2 - i));
    }
  }

  /** state(k) has N entries, each 0 or 1, and entry i is bit N-1-i of k. */
  lemma StateShape(n: nat, k: nat)
    requires n >= 1 && k < Pow2(n)
    ensures |State(n, k)| == n && IsBits(State(n, k))
    ensures forall i :: 0 <= i < n ==> State(n, k)[i] == (k / Pow2(n - 1 - i)) % 2
  {
    StateIsFixedWidth(n, k);
    BitsShape(n, k);
    forall i | 0 <= i < n ensures State(n, k)[i] == (k / Pow2(n - 1 - i)) % 2 {
      BitsAt(n, k, i);
    }
  }

  /** With no spins, state(0) is still the one-digit vector [0]: zfill(0) keeps bin's "0". */
  lemma StateOfNoSpins()
    ensures State(0, 0) == [0]
  {
  }

  /** An index at or beyond 2^n yields a vector longer than n: zfill does not truncate. */
  lemma {:induction false} StateTooLong(n: nat, k: nat)
    requires k >= Pow2(n)
    ensures |State(n, k)| > n
  {
    if n > 0 {
      StateTooLong(n - 1, k / 2);
      ZFillSnoc(BinDigits(k / 2), k % 2, n);
    }
  }

  // ---------------------------------------------------------------------------
  // index and state are inverse to each other

  lemma {:induction false} FromBitsOfBits(n: nat, k: nat)
    requires k < Pow2(n)
    ensures FromBits(Bits(n, k)) == k
  {
    if n > 0 {
      FromBitsOfBits(n - 1, k / 2);
      assert Bits(n, k)[..n - 1] == Bits(n - 1, k / 2) by { BitsShape(n - 1, k / 2); }
    }
  }

  lemma {:induction false} BitsRoundTrip(v: seq<int>)
    requires IsBits(v)
    ensures 0 <= FromBits(v) < Pow2(|v|)
    ensures Bits(|v|, FromBits(v)) == v
  {
    if |v| > 0 {
      var init := v[..|v| - 1];
      BitsRoundTrip(init);
      assert v == init + [v[|v| - 1]];
    }
  }

  lemma {:induction false} FromBitsLeadingZeros(m: nat, v: seq<int>)
    ensures FromBits(seq(m, _ => 0) + v) == FromBits(v)
    decreases |v|
  {
    if |v| == 0 {
      BitsOfZero(m);
      FromBitsOfBits(m, 0);
      assert seq(m, _ => 0) + v == seq(m, _ => 0);
    } else {
      var w := seq(m, _ => 0) + v;
      assert w[..|w| - 1] == seq(m, _ => 0) + v[..|v| - 1];
      FromBitsLeadingZeros(m, v[..|v| - 1]);
    }
  }

  lemma {:induction false} FromBinDigits(k: nat)
    ensures FromBits(BinDigits(k)) == k
  {
    if k >= 2 {
      FromBinDigits(k / 2);
      var d := BinDigits(k);
      assert d[..|d| - 1] == BinDigits(k / 2);
    }
  }

  /** index(state(k)) == k, for every k >= 0 and every width. */
  lemma IndexOfState(n: nat, k: nat)
    ensures Index(State(n, k)) == k
  {
    FromBinDigits(k);
    var d := BinDigits(k);
    if |d| < n {
      FromBitsLeadingZeros(n - |d|, d);
    }
  }

  /** state(index(v)) == v for every non-empty 0/1 vector v of width n. */
  lemma StateOfIndex(v: seq<int>)
    requires |v| >= 1 && IsBits(v)
    ensures State(|v|, Index(v)) == v
  {
    BitsRoundTrip(v);
    StateIsFixedWidth(|v|, FromBits(v));
  }

  // ---------------------------------------------------------------------------
  // The complementary index M-1-k flips every spin

  lemma {:induction false} BitsComplement(n: nat, k: nat)
    requires k < Pow2(n)
    ensures |Bits(n, Pow2(n) - 1 - k)| == n == |Bits(n, k)|
    ensures forall i :: 0 <= i < n ==> Bits(n, Pow2(n) - 1 - k)[i] == 1 - Bits(n, k)[i]
  {
    BitsShape(n, k);
    BitsShape(n, Pow2(n) - 1 - k);
    if n > 0 {
      var c := Pow2(n) - 1 - k;
      assert c / 2 == Pow2(n - 1) - 1 - k / 2 && c % 2 == 1 - k % 2;
      BitsComplement(n - 1, k / 2);
    }
  }

  /** spin_state(M-1-k) is spin_state(k) with every spin reversed. */
  lemma SpinStateComplement(n: nat, k: nat)
    requires n >= 1 && k < Pow2(n)
    ensures |SpinState(n, Pow2(n) - 1 - k)| == n == |SpinState(n, k)|
    ensures forall i :: 0 <= i < n ==> SpinState(n, Pow2(n) - 1 - k)[i] == -SpinState(n, k)[i]
  {
    StateIsFixedWidth(n, k);
    StateIsFixedWidth(n, Pow2(n) - 1 - k);
    BitsComplement(n, k);
  }

  // ---------------------------------------------------------------------------
  // flip

  /** The position Python addresses with state[i], negative i counting from the end. */
  function Position(len: nat, i: int): (p: nat)
    requires -(len as int) <= i < len
    ensures p < len
  {
    if i < 0 then i + len else i
  }

  /** The vector after state[i] = (state[i] + 1) % 2. */
  function Flipped(v: seq<int>, i: int): seq<int>
    requires -|v| <= i < |v|
  {
    var p := Position(|v|, i);
    v[p := (v[p] + 1) % 2]
  }

  /** IsingBasis.flip: toggles entry i of the caller's vector in place. */
  method Flip(state: array<int>, i: int)
    requires -state.Length <= i < state.Length
    modifies state
    ensures state[..] == Flipped(old(state[..]), i)
  {
    var p := Position(state.Length, i);
    state[p] := (state[p] + 1) % 2;
  }

  /** On a 0/1 vector, flip toggles exactly the addressed entry and keeps a 0/1 vector. */
  lemma FlipToggles(v: seq<int>, i: int)
    requires IsBits(v) && -|v| <= i < |v|
    ensures |Flipped(v, i)| == |v| && IsBits(Flipped(v, i))
    ensures Flipped(v, i)[Position(|v|, i)] == 1 - v[Position(|v|, i)]
    ensures forall q :: 0 <= q < |v| && q != Position(|v|, i) ==> Flipped(v, i)[q] == v[q]
  {
  }

  /** Flipping the same spin twice restores a 0/1 vector. */
  lemma FlipTwice(v: seq<int>, i: int)
    requires IsBits(v) && -|v| <= i < |v|
    ensures Flipped(Flipped(v, i), i) == v
  {
    FlipToggles(v, i);
  }

  lemma {:induction false} FromBitsUpdate(v: seq<int>, p: nat, x: int)
    requires p < |v|
    ensures FromBits(v[p := x]) == FromBits(v) + (x - v[p]) * Pow2(|v| - 1 - p)
  {
    var w := v[p := x];
    if p < |v| - 1 {
      assert w[..|w| - 1] == v[..|v| - 1][p := x];
      FromBitsUpdate(v[..|v| - 1], p, x);
      assert Pow2(|v| - 1 - p) == 2 * Pow2(|v| - 2 - p);
    } else {
      assert w[..|w| - 1] == v[..|v| - 1];
    }
  }

  lemma FromBitsToggle(v: seq<int>, p: nat)
    requires p < |v| && (v[p] == 0 || v[p] == 1)
    ensures FromBits(v[p := 1 - v[p]]) == if v[p] == 0 then FromBits(v) + Pow2(|v| - 1 - p) else FromBits(v) - Pow2(|v| - 1 - p)
  {
    var P := Pow2(|v| - 1 - p);
    var F := FromBits(v);
    if v[p] == 0 {
      FromBitsUpdate(v, p, 1);
      assert FromBits(v[p := 1]) == F + (1 - 0) * P;
    } else {
      FromBitsUpdate(v, p, 0);
      assert FromBits(v[p := 0]) == F + (0 - 1) * P;
    }
  }

  /** Flipping bit i of a 0/1 vector moves its index by the weight of that bit. */
  lemma FlipBitsIndex(v: seq<int>, i: nat)
    requires |v| >= 1 && IsBits(v) && i < |v|
    ensures IsBits(Flipped(v, i))
    ensures Index(Flipped(v, i)) == if v[i] == 0 then Index(v) + Pow2(|v| - 1 - i) else Index(v) - Pow2(|v| - 1 - i)
  {
    var w := Flipped(v, i);
    assert w == v[i := 1 - v[i]] by {
      assert Position(|v|, i) == i;
    }
    FromBitsToggle(v, i);
  }

  /** Flipping spin i of state(k) moves the index by 2^(N-1-i): up when the spin was 0, down when it was 1. */
  lemma FlipIndex(n: nat, k: nat, i: nat)
    requires n >= 1 && k < Pow2(n) && i < n
    ensures |State(n, k)| == n
    ensures Index(Flipped(State(n, k), i)) == if State(n, k)[i] == 0 then k + Pow2(n - 1 - i) else k - Pow2(n - 1 - i)
  {
    var v := State(n, k);
    assert |v| == n && IsBits(v) by {
      StateIsFixedWidth(n, k);
      BitsShape(n, k);
    }
    IndexOfState(n, k);
    FlipBitsIndex(v, i);
    var P := Pow2(n - 1 - i);
    if v[i] == 0 {
      assert Index(Flipped(v, i)) == k + P;
    } else {
      assert Index(Flipped(v, i)) == k - P;
    }
  }
}
