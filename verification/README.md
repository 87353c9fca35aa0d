# Exact enumeration of a Sherrington-Kirkpatrick spin glass, modelled in Dafny

This project models the computational core of QiskitSG, a small toolkit for fully
connected Ising spin glasses:

- `tfim.py`:
  - the `Lattice` description and its derived fields;
  - the `IsingBasis` (the index ↔ bit-vector ↔ ±1 spin-vector correspondence, and `flip`);
  - the diagonal energy `JZZ_SK_ME` / `JZZ_SK`;
  - the coupling generator `Jij_instance`.
- `SGViz.py`:
  - the coupling formats `makeJij`, `JijtoG` and `BCtoJij`;
  - the ground-state selection of the window set-up;
  - the bond tallies of `drawBonds`.
- `SGFrustration.py`:
  - `bond_list_maker`;
  - the loop that groups the measured outcomes by their bond part.

Couplings come in two shapes:

- the *reduced* form G. It has N/2 rows of N columns. Row j holds the bonds between spins
  that are j+1 places apart on a ring.
- the *dense* N×N matrix J.

The central theorem is `Hamiltonian.ShiftEnergyIsPairEnergy`. For a reduced G whose last
row repeats its first half (even N), the shift-by-shift energy that `JZZ_SK_ME` accumulates
equals Σ_{a<b} J_ab s_a s_b over the dense couplings J = makeJij(G). Each pair is counted
once. `ZzDiagonal.JzzSkMe` is the imperative loop, proved to compute that energy for every
basis state.

Modules:

- `Sums`: finite real sums and their reindexing lemmas.
- `IsingBasis`, `Lattice`: the basis and the lattice.
- `Pairs`: `itertools.combinations(range(N), 2)`.
- `Couplings`: makeJij, JijtoG, BCtoJij.
- `Hamiltonian`: the energy as a function.
- `ZzDiagonal`: JZZ_SK_ME and JZZ_SK.
- `Generator`: Jij_instance.
- `GroundState`, `BondCount`: the two pieces of SGViz's window logic.
- `Frustration`: the consolidation loop.
- `Wrappers`: the `Result` type for operations that raise.

Array-filling loops are methods over `array`/`array2`. Each is proved against a closed-form
function on sequences, and the properties are lemmas about that function. Couplings and
energies are exact `real` numbers.

## Model

| member | source | states |
|---|---|---|
| IsingBasis.BinDigits | tfim.py:44 | bin(k)[2:] is a non-empty string of 0s and 1s that starts with 1 whenever it has more than one digit |
| IsingBasis.StateShape | tfim.py:42-44 | for N ≥ 1 and 0 ≤ k < 2^N, state(k) has N entries, all 0 or 1, and entry i is (k / 2^(N-1-i)) % 2 |
| IsingBasis.StateIsBits | tfim.py:42-44 | state(k) is a non-empty 0/1 vector for every k |
| IsingBasis.StateOfNoSpins | tfim.py:44 | with N = 0, state(0) is [0], because zfill never truncates |
| IsingBasis.StateTooLong | tfim.py:44 | for k ≥ 2^N, state(k) is longer than N, so the index range is a real precondition |
| IsingBasis.SpinState | tfim.py:46-48 | spin_state(k) has the length of state(k); every entry is ±1 and is +1 exactly where state(k) is 1 |
| IsingBasis.IndexOfState | tfim.py:42-52 | index(state(k)) == k for every k |
| IsingBasis.StateOfIndex | tfim.py:42-52 | state(index(v)) == v for every non-empty 0/1 vector v, using N = len(v) |
| IsingBasis.BitsRoundTrip | tfim.py:50-52 | the base-2 value of a bit vector v lies in [0, 2^len(v)) and its len(v)-bit expansion gives v back |
| IsingBasis.Index | tfim.py:50-52 | index(v) < 2^len(v) |
| IsingBasis.BitsComplement | tfim.py:42-44 | the N-bit expansion Bits(N, 2^N-1-k) is the bitwise complement of Bits(N, k), which is state(k) for N ≥ 1 (StateIsFixedWidth); at N = 0 state(0) is [0] instead |
| IsingBasis.SpinStateComplement | tfim.py:46-48 | for N ≥ 1, spin_state(2^N-1-k) == -spin_state(k) entrywise |
| IsingBasis.Flip | tfim.py:54-56 | flip replaces the array's contents by Flipped: entry i (Python-style, negative i counts from the end) becomes (x+1) % 2 |
| IsingBasis.FlipToggles | tfim.py:54-56 | on a 0/1 vector, flip toggles exactly position i, leaves every other position alone and keeps a 0/1 vector |
| IsingBasis.FlipTwice | tfim.py:54-56 | on a 0/1 vector, flipping position i twice restores the vector |
| IsingBasis.FlipIndex | tfim.py:50-56 | flipping spin i of state(k) moves the index by ±2^(N-1-i): up when the bit was 0, down when it was 1 |
| IsingBasis.FlipBitsIndex | tfim.py:50-56 | the same index change for any 0/1 vector |
| Lattice.ChainLattice | tfim.py:28-32 | Lattice([N]) has N spins, D = 1, and N links (periodic) or N-1 links (open) |
| Lattice.SourceAgreesUpToTwoAxes | tfim.py:30-32 | for one or two axes, the source's N_links equals the corrected link count |
| Lattice.SourceOvercountsOpenCube | tfim.py:30-32 | an open 2×2×2 lattice has 12 links, but N_links as written gives 18 |
| Lattice.CorrectedCountsOpenLinks | tfim.py:30-32 | with open boundaries, D·N minus the sum of the cross-sections N/L_d is the link count of the open grid, for any number of axes |
| Pairs.BondListMaker | SGFrustration.py:144-147 | the list has N(N-1)/2 elements; each is [a, b] with 0 ≤ a < b < N; every such pair occurs |
| Pairs.CombinationsLength | SGFrustration.py:147 | combinations(range(N), 2) has N(N-1)/2 pairs |
| Pairs.CombinationsMembers | SGFrustration.py:147 | every listed pair (a, b) has 0 ≤ a < b < N |
| Pairs.CombinationsAt | SGFrustration.py:147 | every pair a < b < N sits at position PairIndex(N, a, b) |
| Pairs.CombinationsIndexInverse | SGFrustration.py:147 | PairIndex recovers the position of each listed pair, so each pair occurs exactly once |
| Pairs.CombinationsIncreasing | SGFrustration.py:147 | the list is strictly increasing in lexicographic order; BCtoJij's clause_list is this same list |
| Couplings.MakeJij | SGViz.py:435-443 | makeJij returns a fresh N×N array equal to DenseSpec(G): both writes of every (j, i), the later one winning |
| Couplings.WriteBoth | SGViz.py:442 | the chained assignment sets both mirrored entries to the value and changes nothing else |
| Couplings.WriteSpin | SGViz.py:441-442 | one step of the inner loop adds the write of spin i to the writes done so far |
| Couplings.WriteShift | SGViz.py:441-442 | one pass of the outer loop keeps the array equal to the writes of the shifts done so far |
| Couplings.PartialStep | SGViz.py:442 | the chained assignment writes G[j][i] at (i, partner) and (partner, i) and nothing else |
| Couplings.PartialComplete | SGViz.py:440-442 | after all N/2 shifts, the written matrix is the closed form DenseSpec |
| Couplings.PartnerGap | SGViz.py:442 | the partner column (i-j+N-1) % N is a different spin, j+1 places behind i on the ring |
| Couplings.GapDeterminesPartner | SGViz.py:442 | a spin j+1 places behind i is the partner column, so each dense entry is written by one shift only |
| Couplings.DenseSpec | SGViz.py:439-442 | the dense matrix is N×N and each entry is DenseEntry |
| Couplings.DenseIsSymmetric | SGViz.py:439-442 | makeJij(G) is symmetric with a zero diagonal, for any G |
| Couplings.JijToG | SGViz.py:461-466 | JijtoG returns a fresh N/2 × N array equal to ReducedSpec(J) (shape only for N < 2) |
| Couplings.ReducedSpec | SGViz.py:462-465 | the reduced matrix has N/2 rows of N entries |
| Couplings.ReducedOfDense | SGViz.py:435-466 | JijtoG(makeJij(G)) equals G, except on the first half of the last row of an even N, which takes the values of the second half (makeJij's later writes win) |
| Couplings.ReducedRoundTrip | SGViz.py:435-466 | JijtoG(makeJij(G)) == G exactly when G is half-duplicated |
| Couplings.ReducedIsHalfDuplicated | SGViz.py:463-465 | JijtoG of a symmetric matrix always has the half-duplicated last row |
| Couplings.DenseRoundTrip | SGViz.py:435-466 | makeJij(JijtoG(J)) == J for every symmetric J with a zero diagonal |
| Couplings.DigitValues | SGViz.py:450 | [int(c) for c in BC] succeeds exactly when every character is an ASCII decimal digit 0-9, giving its value; otherwise ValueError |
| Couplings.Reversed | SGViz.py:451 | BCA.reverse() puts element len-1-k at position k |
| Couplings.BCtoJij | SGViz.py:446-458 | fails with ValueError on a character that is not an ASCII digit 0-9 and otherwise with IndexError when BC is shorter than N(N-1)/2; on success it returns a fresh N×N array equal to BondMatrix |
| Couplings.BondStep | SGViz.py:454-457 | pass i writes -1 + 2·BCA[i] at the i-th pair and at its mirror |
| Couplings.BondMatrix | SGViz.py:452-457 | the loaded matrix is N×N with entries BondEntry |
| Couplings.BondsAreSymmetric | SGViz.py:455-456 | the BCtoJij matrix is symmetric with a zero diagonal |
| Couplings.BondOfPair | SGViz.py:451-456 | the k-th lexicographic pair (a, b) gets -1 + 2·BC[len(BC)-1-k] |
| Couplings.BinaryBondsAreUnit | SGViz.py:450-456 | for a 0/1 string, every off-diagonal entry is ±1 |
| Couplings.LoadedBondsRoundTrip | SGViz.py:446-466 | for a loaded bond string, makeJij(JijtoG(BCtoJij(BC))) == BCtoJij(BC) |
| Hamiltonian.FullIsTwicePair | tfim.py:63 | for symmetric J with a zero diagonal, Σ_{i,j} J_ij s_i s_j is twice Σ_{i<j} |
| Hamiltonian.RowByDistance | tfim.py:69-75 | a row of the double sum, reindexed by ring distance |
| Hamiltonian.FullByBands | tfim.py:69-75 | the full double sum is the sum over distances d of Σ_k J[k][k-d mod N] s_k s_{k-d} |
| Hamiltonian.BandMirror | tfim.py:69-75 | for symmetric J, the distances d and N-d contribute equally |
| Hamiltonian.BandZero | tfim.py:69-75 | with a zero diagonal, distance 0 contributes nothing |
| Hamiltonian.MirrorFold | tfim.py:69-73 | a mirror-symmetric sum over 0..N-1 is twice the sum over 1..(N-1)/2, plus the middle term for even N (the weight ½ of the antipodal shift) |
| Hamiltonian.PairEnergyByBands | tfim.py:69-75 | for symmetric J with a zero diagonal, Σ_{i<j} J_ij s_i s_j is the sum of the distances 1..(N-1)/2, plus half the distance N/2 for even N |
| Hamiltonian.DenseOnBand | SGViz.py:440-442 | for half-duplicated G, makeJij(G)[k][k-d mod N] == G[d-1][k] for d ≤ N/2 |
| Hamiltonian.BandIsShiftTerm | tfim.py:70-75 | for half-duplicated G, the distance-d sum of makeJij(G) is the shift-d dot product of JZZ_SK_ME |
| Hamiltonian.ShiftEnergyIsPairEnergy | tfim.py:60-77 | for half-duplicated G, JZZ_SK_ME's weighted shift sum equals Σ_{i<j} makeJij(G)[i][j] s_i s_j |
| Hamiltonian.ShiftEnergyEven | tfim.py:70-75 | negating every spin leaves the energy unchanged |
| Hamiltonian.GlobalFlipEnergy | tfim.py:67-75 | JZZ[M-1-b] == JZZ[b] |
| ZzDiagonal.DotIsShiftTerm | tfim.py:70-75 | with shift_state rotated by d, np.dot(J[d-1,:]*shift_state, state) is the shift-d term |
| ZzDiagonal.Rotate | tfim.py:70-71 | the two slice assignments put state[(i-d) mod N] at position i |
| ZzDiagonal.AddShiftTerms | tfim.py:69-75 | the shift loop adds the weighted shift sum to JZZ[b] and changes no other entry |
| ZzDiagonal.JzzSkMe | tfim.py:60-77 | the result has 2^N entries, and entry b is the shift energy of spin_state(b) |
| ZzDiagonal.JzzSk | tfim.py:80-86 | the diagonal entries (b, b, JZZ_SK_ME[b]); for half-duplicated G each value is the pair energy of makeJij(G) |
| Generator.Repeat | tfim.py:99-102 | [v for i in range(k)] holds k copies of v and nothing else |
| Generator.NumBondsFormula | tfim.py:97 | counting the pairs row by row gives num_of_bonds = N(N-1)//2 |
| Generator.LogicalBonds | tfim.py:97-106 | the logical entries of an N/2 × N reduced matrix are exactly num_of_bonds = N(N-1)/2 |
| Generator.BondParity | tfim.py:97-101 | num_of_bonds is even exactly when N % 4 is 0 or 1 |
| Generator.BalancedPoolCounts | tfim.py:97-102 | the pool a1+a2 has num_of_bonds/2 entries +1 and num_of_bonds/2 (+1 unless N%4==0) entries -1; for N%4==0 it is balanced and of length num_of_bonds |
| Generator.PoolsAgree | tfim.py:98-102 | for N % 4 ≠ 1 the source's pool is the corrected even split |
| Generator.BalancedPoolOverfull | tfim.py:97-104 | for N % 4 == 1 the pool has num_of_bonds + 1 entries while the reshape reads only num_of_bonds |
| Generator.UnshuffledPoolUnbalanced | tfim.py:97-104 | for N % 4 == 1, N ≥ 5, keeping the first num_of_bonds entries of the unshuffled pool gives num_of_bonds/2+1 entries -1 and num_of_bonds/2-1 entries +1 (six and four for N = 5) |
| Generator.EvenSplitCounts | tfim.py:96-102 | the corrected pool has exactly num_of_bonds entries, ⌈num_of_bonds/2⌉ of them -1 and ⌊num_of_bonds/2⌋ of them +1 |
| Generator.Slice | tfim.py:104 | a[lo:hi] with Python's clamping: entry i is a[lo+i], and the length is hi-lo when hi ≤ len(a) |
| Generator.Chunks | tfim.py:104 | the list comprehension has N/2 rows |
| Generator.OffsetIsProduct | tfim.py:104 | row j of the reshape starts at pool entry N·j |
| Generator.RowsEnd | tfim.py:104-106 | for odd N the N/2 rows end exactly at num_of_bonds; for even N the full rows end N/2 short of it, the length of the short last row |
| Generator.ChunkLength | tfim.py:104-106 | each row has N entries, except the last row for even N, which has N/2 |
| Generator.ChunkEntries | tfim.py:104 | row j, column i of the reshape is a[N·j + i] |
| Generator.PoolPositions | tfim.py:104 | every pool entry k < num_of_bonds is read at the logical position (k // N, k % N) |
| Generator.PositionOfIndex | tfim.py:104 | the entry N·j + i read at (j, i) gives back j and i, so no two positions read the same entry |
| Generator.LogicalPosition | tfim.py:104-106 | a position (j, i) whose entry N·j + i comes before num_of_bonds is a logical one |
| Generator.ExtendedRow | tfim.py:104-106 | one row after the extension: N entries, each logical entry (j, i) holding a[N·j+i] |
| Generator.ExtendedLastRow | tfim.py:105-106 | for even N the extended last row has N entries and its second half repeats its first |
| Generator.ExtendedChunks | tfim.py:104-106 | after `Jij[N/2-1] += Jij[N/2-1]` every row has N entries, every logical entry is a[N·j+i], and the last row repeats its first half |
| Generator.ReshapePool | tfim.py:103-107 | the balanced branch builds a fresh reduced array holding the pool at the logical entries, with a half-duplicated last row |
| Generator.CopyFirstHalf | tfim.py:111-112 | `Jij[-1, N/2:] = Jij[-1, :N/2]` changes only the second half of the last row, to a copy of its first half |
| Generator.DrawMatrix | tfim.py:110-117 | the choice and normal branches build a fresh reduced array of the draws whose last row's second half copies its first |
| Generator.JijInstance | tfim.py:89-119 | fails for an unrecognised dist (Jij unbound) or N = 0 (no last row); otherwise a fresh reduced, half-duplicated N/2 × N matrix holding the draws, or, in the balanced branch, a permutation of the pool a1 + a2 as written, read row by row (for N % 4 == 1 its last entry is left unread, see Findings) |
| GroundState.Negated | SGViz.py:72 | ea has the length of the diagonal |
| GroundState.MinOf | SGViz.py:73 | ea.min() occurs in ea and is ≤ every entry |
| GroundState.Where | SGViz.py:73 | np.where(s == v)[0] is ascending and holds exactly the positions of v |
| GroundState.GroundStatesAreMinimal | SGViz.py:72-73 | gs is non-empty, ascending, and k is in gs exactly when ea[k] ≤ ea[b] for every b |
| GroundState.FirstGroundStateIsLeast | SGViz.py:73-75 | every index below cnfg = gs[0] has a greater energy than some basis state |
| GroundState.ConfigurationIsGroundState | SGViz.py:69-76 | for N ≥ 1 and half-duplicated G (which is what Jij_instance and JijtoG produce), the displayed configuration is state(cnfg), an N-bit vector of index cnfg whose pair energy under makeJij(G) is the greatest over all basis states |
| GroundState.GroundStatesComeInPairs | SGViz.py:72-73 | if k is a ground state, so is its global flip 2^N-1-k |
| BondCount.TruncIsMinusOne | SGViz.py:243-244 | int(x) == -1 exactly for -2 < x ≤ -1 |
| BondCount.UnitBondUnsatisfied | SGViz.py:243-244 | for a ±1 coupling and 0/1 spins, a bond is unsatisfied iff J·s_i·s_j == -1, i.e. a ferromagnetic bond between unlike spins or an antiferromagnetic one between like spins |
| BondCount.TallyTotal | SGViz.py:246-257 | every counted bond adds one to two counters, so each counter sum is twice the number of bonds counted, which makes it even |
| BondCount.MatchingSplit | SGViz.py:242-252 | every pair is counted either as unsatisfied or as satisfied |
| BondCount.TallySnoc | SGViz.py:242-251 | visiting one more pair bumps both of its counters in the tally it belongs to |
| BondCount.RowStep | SGViz.py:241-251 | one inner iteration bumps counters i and j of the matching tally and leaves the other tally alone |
| BondCount.BumpPair | SGViz.py:246-251 | the two increments |
| BondCount.CountRow | SGViz.py:241-255 | the inner loop over j > i brings both counter arrays up to the pairs of the rows 0..i |
| BondCount.CountBonds | SGViz.py:237-257 | the counter arrays are the tallies over combinations(range(N), 2); the labels are the numbers of unsatisfied and satisfied bonds, and together they make N(N-1)/2 |
| Frustration.Prefix | SGFrustration.py:114 | key[:num_of_bonds] is a prefix of the key of length min(num_of_bonds, len(key)) |
| Frustration.Suffix | SGFrustration.py:115 | key[0-N:] is the key's last N characters, or the whole key when N is 0 or at least len(key) |
| Frustration.KeySplit | SGFrustration.py:114-115 | for N ≥ 1 and keys of num_of_bonds + N characters, the bond part and the spin part have those lengths and concatenate to the key |
| Frustration.Kept | SGFrustration.py:113 | the outcomes above 0.0001 are exactly the ones kept |
| Frustration.BondStates | SGFrustration.py:113-114 | b is listed exactly when some outcome above the threshold has bond part b |
| Frustration.FirstSeen | SGFrustration.py:116-117 | the keys without repetitions, and the same keys as the input |
| Frustration.ConsolidationEntries | SGFrustration.py:111-123 | output_obj's keys are exactly the bond parts of the outcomes above the threshold; each entry's probability is the sum over those outcomes and its spin_states are their spin parts in iteration order |
| Frustration.ConsolidationOrder | SGFrustration.py:116-117 | keys are inserted once each, in the order of their first qualifying outcome |
| Frustration.SpinStatesAbsent | SGFrustration.py:113-123 | a bond state without a qualifying outcome gathers no spin state and no probability |
| Frustration.EntriesAboveThreshold | SGFrustration.py:113-123 | for non-negative probabilities, every entry's probability exceeds 0.0001 and it lists at least one spin state |
| Frustration.LowOutcomesIgnored | SGFrustration.py:113 | removing every outcome of probability ≤ 0.0001 leaves output_obj unchanged |
| Frustration.Consolidate | SGFrustration.py:111-123 | the loop, with num_of_bonds = len(bond_list_maker(N)), yields Consolidation, with the keys, entries and insertion order above |

## Left out

- Qiskit: the circuit, the oracle, the diffuser, the simulator and its state vector. The outcome probabilities are an input of `Frustration.Consolidate`.
- `LOOP_DICT`: the trial-and-error loop counts for the Grover iterations.
- The PyQt5 window. That covers painting, colours, labels, buttons, key events and the threading of `clickMethod`. Ground-state selection and bond counting are modelled as standalone operations.
- `bondColor`, `spinColor` and the bipartition list. They only choose colours.
- `argparse`, the `input()` prompts, printing, `os.system` and PNG export: I/O.
- `scaleDims` and `spinCoords`: floating-point geometry.
- NumPy's generator: seeding, `permutation`, `choice` and `normal`. Their outputs are inputs here:
  - the shuffled pool, constrained to be a permutation of the pool;
  - a coin per position;
  - a real per position.
- The scaling `J/sqrt(N)` of the normal draws is taken as already applied.
- Floating-point rounding. Couplings, energies and probabilities are exact reals, so the `==` comparisons of `np.where` and of `int(...) == -1` are exact.
- `scipy.sparse.coo_matrix`. `ZzDiagonal.JzzSk` returns the diagonal as (row, column, value) entries.
- Couplings.DigitValues: only the ASCII digits 0-9 are read as digits. Python's int() also accepts other Unicode decimal digits (Arabic-Indic, full-width and so on), which the model rejects with NotADigit, and so does Couplings.BCtoJij; the Unicode digit tables are not modelled.
- Generator.JijInstance: NumPy gives shape (0,) for N = 1 in the balanced branch, and (0, 1) in the others. The model gives a 0 × 1 array in every branch.
- BondCount.UnitBondUnsatisfied: "unsatisfied iff J·s_i·s_j = -1" is stated for ±1 couplings only, because that is what BCtoJij and the bimodal generator produce. For other couplings the model keeps the source's test int(J·s_i·s_j) == -1, characterised by `BondCount.TruncIsMinusOne`.
- IsingBasis.Index / IsingBasis.Flip: Index requires a non-empty vector of 0s and 1s. On an empty vector or a digit other than 0 and 1, int(..., 2) raises ValueError, and a vector holding -1 parses as a negative number ([-1, 1] reads as int('-11', 2) = -3). Flip requires -len <= i < len; for any other i the source raises IndexError. Every caller in the core passes a basis state and an index in range.
- IsingBasis.State: indices outside [0, 2^N) are not excluded. `StateTooLong` shows that the result then has more than N entries. Negative indices cannot be expressed because the index is a `nat`.
- Frustration.Consolidate: `probabilities_dict` is taken as a sequence of (key, probability) items in iteration order. The model does not need dictionary keys to be unique and does not require it.

## Findings

| source | as written | input that shows it | evidently intended | confidence | as-written member | corrected member |
|---|---|---|---|---|---|---|
| tfim.py:30-32 | open boundaries with D ≥ 2 subtract sum(L) from D·N | L = [2, 2, 2], PBC = False: 18 links, but the cube has 12 | subtract Σ_d N/L_d, one cross-section per axis (equal to sum(L) only for D ≤ 2) | high; not executed | Lattice.SourceOvercountsOpenCube | Lattice.CorrectedCountsOpenLinks |
| tfim.py:98-104 | for N % 4 ≠ 0 the pool gets num_of_bonds//2 + 1 entries -1; for N % 4 == 1, num_of_bonds is even, so the pool has one entry too many, and the reshape drops the last shuffled entry | N = 5: 6 entries -1 and 5 entries +1 in the pool; when the dropped entry is +1 the couplings hold six -1 and four +1 | an even split of the num_of_bonds bonds (the extra -1 only when num_of_bonds is odd) | high; not executed | Generator.UnshuffledPoolUnbalanced | Generator.EvenSplitCounts |
