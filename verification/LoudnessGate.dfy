/** The two-stage gate of Annex 1 of Recommendation ITU-R BS.1770-4, over block energies.

    The only fact used about the loudness scale is that it is strictly increasing, so everything
    here holds of -0.691 + 10 log10 in particular. */
module LoudnessGate {
  import opened LoudnessScanner

  const ABSOLUTE_GATE: real := -70.0
  const RELATIVE_GATE: real := -10.0

  ghost function Mean(s: seq<real>): real
    requires s != []
  {
    Sum(s) / |s| as real
  }

  function Larger(x: real, y: real): real { if x >= y then x else y }

  /** The relative threshold: 10 LU below the loudness of the absolute-gated mean. */
  ghost function RelativeGate(lufs: Scale, blocks: seq<real>): real
    requires Gated(lufs, ABSOLUTE_GATE, blocks) != []
  {
    lufs(Mean(Gated(lufs, ABSOLUTE_GATE, blocks))) + RELATIVE_GATE
  }

  /** The blocks above both thresholds, as Annex 1 states them. */
  ghost function AboveBoth(lufs: Scale, relative: real, blocks: seq<real>): seq<real> {
    if blocks == [] then [] else
      var rest := AboveBoth(lufs, relative, blocks[..|blocks| - 1]);
      var last := blocks[|blocks| - 1];
      if last > 0.0 && lufs(last) > ABSOLUTE_GATE && lufs(last) > relative then rest + [last] else rest
  }

  /** Integrated loudness by the definition: none when no block passes the absolute gate. */
  ghost function Integrated(lufs: Scale, blocks: seq<real>): real
    requires Gated(lufs, ABSOLUTE_GATE, blocks) != []
    requires StrictlyIncreasing(lufs)
  {
    RelativeGateKeepsBlocks(lufs, blocks);
    lufs(Mean(AboveBoth(lufs, RelativeGate(lufs, blocks), blocks)))
  }

  /** One gate at the larger threshold is the same as both gates. */
  lemma {:induction false} LargerGateIsBothGates(lufs: Scale, relative: real, blocks: seq<real>)
    ensures AboveBoth(lufs, relative, blocks) == Gated(lufs, Larger(ABSOLUTE_GATE, relative), blocks)
  {
    if blocks != [] {
      LargerGateIsBothGates(lufs, relative, blocks[..|blocks| - 1]);
    }
  }

  // ----- Gating again at a higher threshold -----

  /** The blocks of the first pass that the second pass drops. */
  ghost function Dropped(lufs: Scale, low: real, high: real, blocks: seq<real>): seq<real> {
    if blocks == [] then [] else
      var rest := Dropped(lufs, low, high, blocks[..|blocks| - 1]);
      var last := blocks[|blocks| - 1];
      if Passes(lufs, low, last) && !Passes(lufs, high, last) then rest + [last] else rest
  }

  lemma {:induction false} Split(lufs: Scale, low: real, high: real, blocks: seq<real>)
    requires low <= high
    ensures var first, second := Gated(lufs, low, blocks), Gated(lufs, high, blocks);
            var dropped := Dropped(lufs, low, high, blocks);
            && multiset(first) == multiset(second) + multiset(dropped)
            && |first| == |second| + |dropped|
            && Sum(first) == Sum(second) + Sum(dropped)
    ensures forall x :: x in Gated(lufs, low, blocks) ==> Passes(lufs, low, x)
    ensures forall x :: x in Gated(lufs, high, blocks) ==> Passes(lufs, high, x)
    ensures forall x :: x in Dropped(lufs, low, high, blocks) ==> Passes(lufs, low, x) && !Passes(lufs, high, x)
  {
    if blocks != [] {
      var init, last := blocks[..|blocks| - 1], blocks[|blocks| - 1];
      Split(lufs, low, high, init);
      assert blocks == init + [last];
      GatedStep(lufs, low, init, last);
      GatedStep(lufs, high, init, last);
      var rest := Dropped(lufs, low, high, init);
      assert (rest + [last])[..|rest|] == rest;
    }
  }

  // ----- Means -----

  /** n copies of m, added up: keeps products of variables out of the proofs below. */
  ghost function Times(m: real, n: nat): real {
    if n == 0 then 0.0 else Times(m, n - 1) + m
  }

  lemma {:induction false} TimesIsProduct(m: real, n: nat)
    ensures Times(m, n) == m * n as real
  {
    if n > 0 {
      TimesIsProduct(m, n - 1);
      var k := (n - 1) as real;
      assert n as real == k + 1.0;
      assert m * (k + 1.0) == m * k + m;
    }
  }

  lemma {:induction false} TimesAdds(m: real, i: nat, j: nat)
    ensures Times(m, i + j) == Times(m, i) + Times(m, j)
  {
    if j > 0 {
      TimesAdds(m, i, j - 1);
    }
  }

  lemma MeanTimes(s: seq<real>)
    requires s != []
    ensures Times(Mean(s), |s|) == Sum(s)
  {
    TimesIsProduct(Mean(s), |s|);
  }

  lemma MeanAtLeast(s: seq<real>, m: real)
    requires s != [] && Sum(s) >= Times(m, |s|)
    ensures Mean(s) >= m
  {
    TimesIsProduct(m, |s|);
    Cancel(Sum(s), m, |s| as real);
  }

  lemma Cancel(total: real, m: real, n: real)
    requires n > 0.0 && total >= m * n
    ensures total / n >= m
  {}

  lemma {:induction false} SumBelow(s: seq<real>, m: real)
    requires forall x :: x in s ==> x < m
    ensures Sum(s) <= Times(m, |s|)
    ensures s != [] ==> Sum(s) < Times(m, |s|)
  {
    if s != [] {
      var init := s[..|s| - 1];
      assert s[|s| - 1] in s;
      assert forall x :: x in init ==> x in s;
      SumBelow(init, m);
    }
  }

  lemma {:induction false} SumAbove(s: seq<real>, m: real)
    requires forall x :: x in s ==> x > m
    ensures Sum(s) >= Times(m, |s|)
    ensures s != [] ==> Sum(s) > Times(m, |s|)
  {
    if s != [] {
      var init := s[..|s| - 1];
      assert s[|s| - 1] in s;
      assert forall x :: x in init ==> x in s;
      SumAbove(init, m);
    }
  }

  /** The mean of blocks above a gate is above it: some block is no larger than the mean. */
  lemma MeanPasses(lufs: Scale, gate: real, s: seq<real>)
    requires StrictlyIncreasing(lufs) && s != []
    requires forall x :: x in s ==> Passes(lufs, gate, x)
    ensures Passes(lufs, gate, Mean(s))
  {
    var m := Mean(s);
    MeanTimes(s);
    if forall x :: x in s ==> x > m {
      SumAbove(s, m);
      assert false;
    }
    var x :| x in s && x <= m;
    assert x < m ==> lufs(x) < lufs(m);
  }

  /** Removing elements below the mean leaves something, with no smaller mean. */
  lemma RemoveBelowMean(first: seq<real>, kept: seq<real>, dropped: seq<real>)
    requires first != []
    requires |first| == |kept| + |dropped| && Sum(first) == Sum(kept) + Sum(dropped)
    requires forall x :: x in dropped ==> x < Mean(first)
    ensures kept != [] && Mean(kept) >= Mean(first)
  {
    var m := Mean(first);
    SumBelow(dropped, m);
    MeanTimes(first);
    TimesAdds(m, |kept|, |dropped|);
    MeanAtLeast(kept, m);
  }

  // ----- The main results -----

  lemma DroppedBelow(lufs: Scale, low: real, high: real, m: real, blocks: seq<real>)
    requires StrictlyIncreasing(lufs) && low <= high
    requires Passes(lufs, high, m)
    ensures forall x :: x in Dropped(lufs, low, high, blocks) ==> x < m
  {
    Split(lufs, low, high, blocks);
    forall x | x in Dropped(lufs, low, high, blocks)
      ensures x < m
    {
      assert lufs(x) < lufs(m);
      assert m < x ==> lufs(m) < lufs(x);
    }
  }

  /** Raising the gate to anything below the loudness of the mean keeps some block, keeps only
      blocks of the lower gate, and does not lower the mean. */
  lemma HigherGate(lufs: Scale, low: real, high: real, blocks: seq<real>)
    requires StrictlyIncreasing(lufs) && low <= high
    requires Gated(lufs, low, blocks) != [] && Passes(lufs, high, Mean(Gated(lufs, low, blocks)))
    ensures var first, kept := Gated(lufs, low, blocks), Gated(lufs, high, blocks);
            && kept != []
            && multiset(kept) <= multiset(first)
            && Mean(kept) >= Mean(first)
            && Passes(lufs, high, Mean(kept))
  {
    var kept, dropped := Gated(lufs, high, blocks), Dropped(lufs, low, high, blocks);
    Split(lufs, low, high, blocks);
    DroppedBelow(lufs, low, high, Mean(Gated(lufs, low, blocks)), blocks);
    RemoveBelowMean(Gated(lufs, low, blocks), kept, dropped);
    MeanPasses(lufs, high, kept);
  }

  /** Whenever any block passes the absolute gate, the relative gate keeps at least one, keeps only
      blocks of the first pass, does not lower the mean, and leaves it above both thresholds. */
  lemma RelativeGateKeepsBlocks(lufs: Scale, blocks: seq<real>)
    requires StrictlyIncreasing(lufs)
    requires Gated(lufs, ABSOLUTE_GATE, blocks) != []
    ensures var first := Gated(lufs, ABSOLUTE_GATE, blocks);
            var relative := RelativeGate(lufs, blocks);
            var kept := AboveBoth(lufs, relative, blocks);
            && kept != []
            && multiset(kept) <= multiset(first)
            && Mean(kept) >= Mean(first)
            && Passes(lufs, ABSOLUTE_GATE, Mean(kept))
            && Passes(lufs, relative, Mean(kept))
  {
    var first := Gated(lufs, ABSOLUTE_GATE, blocks);
    var relative := RelativeGate(lufs, blocks);
    LargerGateIsBothGates(lufs, relative, blocks);
    Split(lufs, ABSOLUTE_GATE, ABSOLUTE_GATE, blocks);
    MeanPasses(lufs, ABSOLUTE_GATE, first);
    HigherGate(lufs, ABSOLUTE_GATE, Larger(ABSOLUTE_GATE, relative), blocks);
  }
}
