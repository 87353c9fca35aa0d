/** The consolidation loop of SGFrustration.py's main: the measured outcomes (a key of
    num_of_bonds bond bits followed by N spin bits, and its probability) are grouped by
    their bond part. Every outcome above the probability threshold adds its probability
    to its bond state's entry and appends its spin part to that entry's spin states; a
    bond state seen for the first time gets a new entry, after all earlier ones. */
module Frustration {
  import opened Pairs

  /** One item of probabilities_dict: a bit-string key and its probability. */
  type Outcome = (string, real)

  /** The value stored for a bond state: {"probability": ..., "spin_states": [...]}. */
  datatype Summary = Summary(probability: real, spinStates: seq<string>)

  /** output_obj: the summaries, and the order in which their keys were inserted. */
  datatype Output = Output(obj: map<string, Summary>, order: seq<string>)

  /** Outcomes of probability at most this contribute nothing. */
  const Threshold: real := 0.0001

  predicate Qualifies(e: Outcome)
  {
    e.1 > Threshold
  }

  /** key[:k], clamped to the key as Python slicing is. */
  function Prefix(key: string, k: nat): (r: string)
    ensures |r| == if k <= |key| then k else |key|
    ensures r <= key
  {
    if k <= |key| then key[..k] else key
  }

  /** key[0 - n:]: the last n characters, the whole key when n is 0 (key[0:]) or when n
      exceeds its length. */
  function Suffix(key: string, n: nat): (r: string)
    ensures |r| == if n == 0 || |key| <= n then |key| else n
    ensures r == key[|key| - |r|..]
  {
    if n == 0 || |key| <= n then key else key[|key| - n..]
  }

  /** The state of output_obj after the loop has visited the outcomes es. */
  function Consolidation(es: seq<Outcome>, numOfBonds: nat, n: nat): Output
  {
    if |es| == 0 then Output(map[], [])
    else
      var out := Consolidation(es[..|es| - 1], numOfBonds, n);
      var e := es[|es| - 1];
      if !Qualifies(e) then out
      else
        var b := Prefix(e.0, numOfBonds);
        var s := Suffix(e.0, n);
        if b !in out.obj then Output(out.obj[b := Summary(e.1, [s])], out.order + [b])
        else Output(out.obj[b := Summary(out.obj[b].probability + e.1, out.obj[b].spinStates + [s])], out.order)
  }

  // ---------------------------------------------------------------------------
  // Reference definitions: what each entry of output_obj should hold
  // ---------------------------------------------------------------------------

  /** The outcomes above the threshold, in iteration order. */
  function Kept(es: seq<Outcome>): (r: seq<Outcome>)
    ensures |r| <= |es|
    ensures forall k :: 0 <= k < |r| ==> Qualifies(r[k]) && r[k] in es
    ensures forall k :: 0 <= k < |es| && Qualifies(es[k]) ==> es[k] in r
  {
    if |es| == 0 then []
    else Kept(es[..|es| - 1]) + (if Qualifies(es[|es| - 1]) then [es[|es| - 1]] else [])
  }

  /** The bond parts of the outcomes above the threshold, in iteration order, with
      repetitions. */
  function BondStates(es: seq<Outcome>, numOfBonds: nat): (r: seq<string>)
    ensures forall b :: b in r <==>
      exists k :: 0 <= k < |es| && Qualifies(es[k]) && Prefix(es[k].0, numOfBonds) == b
  {
    if |es| == 0 then []
    else
      var e := es[|es| - 1];
      BondStates(es[..|es| - 1], numOfBonds) + (if Qualifies(e) then [Prefix(e.0, numOfBonds)] else [])
  }

  /** The spin parts of the outcomes above the threshold whose bond part is b, in
      iteration order. */
  function SpinStatesOf(es: seq<Outcome>, numOfBonds: nat, n: nat, b: string): seq<string>
  {
    if |es| == 0 then []
    else
      var e := es[|es| - 1];
      SpinStatesOf(es[..|es| - 1], numOfBonds, n, b) +
        (if Qualifies(e) && Prefix(e.0, numOfBonds) == b then [Suffix(e.0, n)] else [])
  }

  /** The summed probability of the outcomes above the threshold whose bond part is b. */
  function MassOf(es: seq<Outcome>, numOfBonds: nat, b: string): real
  {
    if |es| == 0 then 0.0
    else
      var e := es[|es| - 1];
      MassOf(es[..|es| - 1], numOfBonds, b) +
        (if Qualifies(e) && Prefix(e.0, numOfBonds) == b then e.1 else 0.0)
  }

  /** The elements of bs without repetitions, each where it first occurs. */
  function FirstSeen(bs: seq<string>): (r: seq<string>)
    ensures forall i, j :: 0 <= i < j < |r| ==> r[i] != r[j]
    ensures forall b :: b in r <==> b in bs
  {
    if |bs| == 0 then []
    else
      var r := FirstSeen(bs[..|bs| - 1]);
      assert forall b :: b in bs <==> b in bs[..|bs| - 1] || b == bs[|bs| - 1];
      if bs[|bs| - 1] in r then r else r + [bs[|bs| - 1]]
  }

  // ---------------------------------------------------------------------------
  // Properties of the consolidation
  // ---------------------------------------------------------------------------

  /** The keys of output_obj are exactly the bond parts of the outcomes above the
      threshold, and the entry of each holds the summed probability and the spin parts of
      those outcomes, in iteration order. */
  lemma {:induction false} ConsolidationEntries(es: seq<Outcome>, numOfBonds: nat, n: nat)
    ensures var out := Consolidation(es, numOfBonds, n);
      (forall b :: b in out.obj <==> b in BondStates(es, numOfBonds)) &&
      (forall b :: b in out.obj ==>
        out.obj[b] == Summary(MassOf(es, numOfBonds, b), SpinStatesOf(es, numOfBonds, n, b)))
  {
    if |es| > 0 {
      var init := es[..|es| - 1];
      ConsolidationEntries(init, numOfBonds, n);
      var e := es[|es| - 1];
      var out := Consolidation(es, numOfBonds, n);
      forall b | b in out.obj
        ensures out.obj[b] == Summary(MassOf(es, numOfBonds, b), SpinStatesOf(es, numOfBonds, n, b))
      {
        if Qualifies(e) && Prefix(e.0, numOfBonds) == b && b !in Consolidation(init, numOfBonds, n).obj {
          SpinStatesAbsent(init, numOfBonds, n, b);
        }
      }
    }
  }

  /** The keys of output_obj were inserted in the order of their first qualifying
      outcome, each once. */
  lemma {:induction false} ConsolidationOrder(es: seq<Outcome>, numOfBonds: nat, n: nat)
    ensures Consolidation(es, numOfBonds, n).order == FirstSeen(BondStates(es, numOfBonds))
  {
    if |es| > 0 {
      var init := es[..|es| - 1];
      var e := es[|es| - 1];
      ConsolidationOrder(init, numOfBonds, n);
      ConsolidationEntries(init, numOfBonds, n);
      if Qualifies(e) {
        var bs := BondStates(es, numOfBonds);
        var b := Prefix(e.0, numOfBonds);
        assert bs == BondStates(init, numOfBonds) + [b];
        assert bs[..|bs| - 1] == BondStates(init, numOfBonds);
        assert b in FirstSeen(BondStates(init, numOfBonds)) <==> b in Consolidation(init, numOfBonds, n).obj;
      } else {
        assert BondStates(es, numOfBonds) == BondStates(init, numOfBonds);
      }
    }
  }

  /** A bond state with no qualifying outcome has no spin states and no mass. */
  lemma {:induction false} SpinStatesAbsent(es: seq<Outcome>, numOfBonds: nat, n: nat, b: string)
    requires b !in BondStates(es, numOfBonds)
    ensures SpinStatesOf(es, numOfBonds, n, b) == [] && MassOf(es, numOfBonds, b) == 0.0
  {
    if |es| > 0 {
      SpinStatesAbsent(es[..|es| - 1], numOfBonds, n, b);
    }
  }

  /** Every entry gathers at least one outcome, so its probability exceeds the
      threshold and it lists at least one spin state. */
  lemma {:induction false} EntriesAboveThreshold(es: seq<Outcome>, numOfBonds: nat, n: nat, b: string)
    requires b in BondStates(es, numOfBonds)
    requires forall k :: 0 <= k < |es| ==> es[k].1 >= 0.0
    ensures MassOf(es, numOfBonds, b) > Threshold
    ensures |SpinStatesOf(es, numOfBonds, n, b)| >= 1
  {
    var init := es[..|es| - 1];
    var e := es[|es| - 1];
    MassNonNegative(init, numOfBonds, b);
    if b in BondStates(init, numOfBonds) {
      EntriesAboveThreshold(init, numOfBonds, n, b);
    }
  }

  lemma {:induction false} MassNonNegative(es: seq<Outcome>, numOfBonds: nat, b: string)
    requires forall k :: 0 <= k < |es| ==> es[k].1 >= 0.0
    ensures MassOf(es, numOfBonds, b) >= 0.0
  {
    if |es| > 0 {
      MassNonNegative(es[..|es| - 1], numOfBonds, b);
    }
  }

  /** Outcomes of probability at most the threshold contribute to no entry: dropping
      them all leaves output_obj as it is. */
  lemma {:induction false} LowOutcomesIgnored(es: seq<Outcome>, numOfBonds: nat, n: nat)
    ensures Consolidation(Kept(es), numOfBonds, n) == Consolidation(es, numOfBonds, n)
  {
    if |es| > 0 {
      var init := es[..|es| - 1];
      var e := es[|es| - 1];
      LowOutcomesIgnored(init, numOfBonds, n);
      if Qualifies(e) {
        var kept := Kept(es);
        assert kept == Kept(init) + [e];
        assert kept[..|kept| - 1] == Kept(init);
      } else {
        assert Kept(es) == Kept(init);
      }
    }
  }

  /** For keys of num_of_bonds + N bits and N >= 1 the bond part and the spin part split
      the key: they have num_of_bonds and N characters and together give it back. */
  lemma KeySplit(key: string, numOfBonds: nat, n: nat)
    requires n >= 1 && |key| == numOfBonds + n
    ensures |Prefix(key, numOfBonds)| == numOfBonds && |Suffix(key, n)| == n
    ensures Prefix(key, numOfBonds) + Suffix(key, n) == key
  {
    assert key[..numOfBonds] + key[numOfBonds..] == key;
  }

  /** The consolidation loop, with num_of_bonds = len(bond_list_maker(N)). */
  method Consolidate(probabilities: seq<Outcome>, n: nat) returns (out: Output)
    ensures out == Consolidation(probabilities, |BondListMaker(n)|, n)
    ensures forall b :: b in out.obj <==>
      exists k :: 0 <= k < |probabilities| && Qualifies(probabilities[k]) &&
        Prefix(probabilities[k].0, |BondListMaker(n)|) == b
    ensures forall b :: b in out.obj ==>
      out.obj[b].probability == MassOf(probabilities, |BondListMaker(n)|, b) &&
      out.obj[b].spinStates == SpinStatesOf(probabilities, |BondListMaker(n)|, n, b)
    ensures out.order == FirstSeen(BondStates(probabilities, |BondListMaker(n)|))
  {
    var numOfBonds := |BondListMaker(n)|;
    var obj: map<string, Summary> := map[];
    var order: seq<string> := [];
    for k := 0 to |probabilities|
      invariant Output(obj, order) == Consolidation(probabilities[..k], numOfBonds, n)
    {
      assert probabilities[..k + 1][..k] == probabilities[..k];
      var key := probabilities[k].0;
      var p := probabilities[k].1;
      if p > Threshold {
        var bondState := Prefix(key, numOfBonds);
        var spinState := Suffix(key, n);
        if bondState !in obj {
          obj := obj[bondState := Summary(p, [spinState])];
          order := order + [bondState];
        } else {
          obj := obj[bondState := Summary(obj[bondState].probability + p,
                                          obj[bondState].spinStates + [spinState])];
        }
      }
    }
    assert probabilities[..|probabilities|] == probabilities;
    out := Output(obj, order);
    ConsolidationEntries(probabilities, numOfBonds, n);
    ConsolidationOrder(probabilities, numOfBonds, n);
  }
}
