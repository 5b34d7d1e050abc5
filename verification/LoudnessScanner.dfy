/** The bounded-memory block scanner of the loudness analysis, in exact arithmetic.

    The scanner sees one frame at a time and keeps a ring of the last window's frame energies, a
    rolling sum and a hop counter. What it must agree with is the plain definition of Annex 1 of
    Recommendation ITU-R BS.1770-4: cut the whole energy sequence into overlapping complete
    windows, and sum each window again from scratch. */
module LoudnessScanner {
  import opened Products

  // ----- Real sums -----

  function Sum(s: seq<real>): real {
    if s == [] then 0.0 else Sum(s[..|s| - 1]) + s[|s| - 1]
  }

  lemma {:induction false} SumConcat(s: seq<real>, t: seq<real>)
    ensures Sum(s + t) == Sum(s) + Sum(t)
  {
    if t == [] {
      assert s + t == s;
    } else {
      var u := s + t;
      assert u[..|u| - 1] == s + t[..|t| - 1];
      SumConcat(s, t[..|t| - 1]);
    }
  }

  lemma {:induction false} SumNonNegative(s: seq<real>)
    requires forall i :: 0 <= i < |s| ==> s[i] >= 0.0
    ensures Sum(s) >= 0.0
  {
    if s != [] {
      SumNonNegative(s[..|s| - 1]);
    }
  }

  lemma SumSingle(x: real)
    ensures Sum([x]) == x
  {
    assert [x][..0] == [];
  }

  // ----- K-weighting: two biquads per channel, state reset at every file boundary -----

  datatype Coefficients = Coefficients(b0: real, b1: real, b2: real, a1: real, a2: real)

  datatype Biquad = Biquad(c: Coefficients, x1: real, x2: real, y1: real, y2: real) {
    /** The filter's next output and its state afterwards. */
    function Process(value: real): (Biquad, real) {
      var output := c.b0 * value + c.b1 * x1 + c.b2 * x2 - c.a1 * y1 - c.a2 * y2;
      (Biquad(c, value, x1, output, y1), output)
    }
  }

  type Stage = (Biquad, Biquad)

  /** One channel: the shelf's output goes through the high-pass; its square is the energy. */
  function Channel(stage: Stage, sample: real): (r: (Stage, real))
    ensures r.1 >= 0.0
  {
    var (shelf, middle) := stage.0.Process(sample);
    var (highPass, filtered) := stage.1.Process(middle);
    ((shelf, highPass), filtered * filtered)
  }

  /** Energy of one frame: the sum over its channels. */
  function Weigh(filters: seq<Stage>, samples: seq<real>): (r: (seq<Stage>, real))
    requires |filters| == |samples|
    ensures |r.0| == |filters| && r.1 >= 0.0
  {
    if filters == [] then ([], 0.0) else
      var last := |filters| - 1;
      var (rest, energy) := Weigh(filters[..last], samples[..last]);
      var (stage, more) := Channel(filters[last], samples[last]);
      (rest + [stage], energy + more)
  }

  ghost predicate WellShaped(frames: seq<seq<real>>, channels: nat) {
    forall i :: 0 <= i < |frames| ==> |frames[i]| == channels
  }

  /** The filter states and the energy of every frame after a whole run of frames. */
  ghost function Weighted(filters: seq<Stage>, frames: seq<seq<real>>): (r: (seq<Stage>, seq<real>))
    requires WellShaped(frames, |filters|)
    ensures |r.0| == |filters| && |r.1| == |frames|
    ensures forall i :: 0 <= i < |r.1| ==> r.1[i] >= 0.0
  {
    if frames == [] then (filters, []) else
      var (state, energies) := Weighted(filters, frames[..|frames| - 1]);
      var (after, energy) := Weigh(state, frames[|frames| - 1]);
      (after, energies + [energy])
  }

  lemma WeightedNext(filters: seq<Stage>, frames: seq<seq<real>>, samples: seq<real>)
    requires WellShaped(frames, |filters|) && |samples| == |filters|
    ensures WellShaped(frames + [samples], |filters|)
    ensures var (state, energies) := Weighted(filters, frames);
            var (after, energy) := Weigh(state, samples);
            Weighted(filters, frames + [samples]) == (after, energies + [energy])
  {
    var all := frames + [samples];
    assert all[..|all| - 1] == frames;
  }

  ghost function Fresh(shelf: Coefficients, highPass: Coefficients, channels: nat): seq<Stage> {
    seq(channels, i => (Biquad(shelf, 0.0, 0.0, 0.0, 0.0), Biquad(highPass, 0.0, 0.0, 0.0, 0.0)))
  }

  // ----- The plain definition -----

  /** How many complete windows of `size` frames start at 0, hop, 2 * hop, ... */
  ghost function WindowCount(n: nat, size: nat, hop: nat): nat
    requires size > 0 && hop > 0
  {
    if n < size then 0 else (n - size) / hop + 1
  }

  lemma WindowInside(n: nat, size: nat, hop: nat, k: nat)
    requires size > 0 && hop > 0 && k < WindowCount(n, size, hop)
    ensures Repeat(k, hop) + size <= n
  {
    Divide(n - size, hop);
    RepeatGrows(k, (n - size) / hop, hop);
  }

  /** Mean energy of window k, which starts at k * hop, re-summed from the whole sequence. */
  ghost function BlockEnergy(energies: seq<real>, size: nat, hop: nat, k: nat): real
    requires size > 0 && hop > 0 && k < WindowCount(|energies|, size, hop)
  {
    WindowInside(|energies|, size, hop, k);
    var start := Repeat(k, hop);
    Sum(energies[start..start + size]) / size as real
  }

  ghost function Blocks(energies: seq<real>, size: nat, hop: nat): seq<real>
    requires size > 0 && hop > 0
  {
    seq(WindowCount(|energies|, size, hop),
        k requires 0 <= k < WindowCount(|energies|, size, hop) => BlockEnergy(energies, size, hop, k))
  }

  /** Loudness is any strictly increasing scale on positive energies; -0.691 + 10 log10 is one. */
  type Scale = real -> real

  ghost predicate StrictlyIncreasing(lufs: Scale) {
    forall x, y :: 0.0 < x < y ==> lufs(x) < lufs(y)
  }

  predicate Passes(lufs: Scale, gate: real, energy: real) {
    energy > 0.0 && lufs(energy) > gate
  }

  /** The blocks above a gate, in order. */
  function Gated(lufs: Scale, gate: real, blocks: seq<real>): seq<real> {
    if blocks == [] then [] else
      var rest := Gated(lufs, gate, blocks[..|blocks| - 1]);
      if Passes(lufs, gate, blocks[|blocks| - 1]) then rest + [blocks[|blocks| - 1]] else rest
  }

  lemma {:induction false} GatedConcat(lufs: Scale, gate: real, s: seq<real>, t: seq<real>)
    ensures Gated(lufs, gate, s + t) == Gated(lufs, gate, s) + Gated(lufs, gate, t)
  {
    if t == [] {
      assert s + t == s;
    } else {
      var u := s + t;
      assert u[..|u| - 1] == s + t[..|t| - 1];
      GatedConcat(lufs, gate, s, t[..|t| - 1]);
    }
  }

  // ----- Adding one frame to the plain definition -----

  lemma CountStep(n: nat, size: nat, hop: nat)
    requires size > 0 && hop > 0
    ensures WindowCount(n + 1, size, hop) ==
            WindowCount(n, size, hop) + (if n + 1 >= size && (n + 1 - size) % hop == 0 then 1 else 0)
    ensures n + 1 >= size && (n + 1 - size) % hop == 0 ==>
              Repeat(WindowCount(n, size, hop), hop) == n + 1 - size
  {
    if n >= size {
      DivideNext(n - size, hop);
    } else if n + 1 == size {
      assert 0 / hop == 0 && 0 % hop == 0;
    }
  }

  lemma BlockUnchanged(energies: seq<real>, energy: real, size: nat, hop: nat, k: nat)
    requires size > 0 && hop > 0 && k < WindowCount(|energies|, size, hop)
    ensures k < WindowCount(|energies| + 1, size, hop)
    ensures BlockEnergy(energies + [energy], size, hop, k) == BlockEnergy(energies, size, hop, k)
  {
    CountStep(|energies|, size, hop);
    WindowInside(|energies|, size, hop, k);
    var start := Repeat(k, hop);
    assert (energies + [energy])[start..start + size] == energies[start..start + size];
  }

  lemma NewBlock(all: seq<real>, size: nat, hop: nat, k: nat)
    requires size > 0 && hop > 0 && |all| >= size
    requires k < WindowCount(|all|, size, hop) && Repeat(k, hop) == |all| - size
    ensures BlockEnergy(all, size, hop, k) == Sum(all[|all| - size..]) / size as real
  {
    assert all[|all| - size..|all|] == all[|all| - size..];
  }

  /** A new frame adds a block exactly when it completes a window. */
  lemma BlocksStep(energies: seq<real>, energy: real, size: nat, hop: nat)
    requires size > 0 && hop > 0
    ensures var all := energies + [energy];
            var n := |all|;
            Blocks(all, size, hop) ==
            if n >= size && (n - size) % hop == 0
            then Blocks(energies, size, hop) + [Sum(all[n - size..]) / size as real]
            else Blocks(energies, size, hop)
  {
    var all := energies + [energy];
    CountStep(|energies|, size, hop);
    var before, after := Blocks(energies, size, hop), Blocks(all, size, hop);
    forall k | 0 <= k < |before|
      ensures before[k] == after[k]
    {
      BlockUnchanged(energies, energy, size, hop, k);
    }
    if |after| == |before| + 1 {
      NewBlock(all, size, hop, |before|);
      assert after == before + [after[|before|]];
    } else {
      assert after == before;
    }
  }

  // ----- Sliding the ring and the running totals by one element -----

  /** A ring read from its write position, oldest element first. */
  ghost function Unrolled(ring: seq<real>, index: nat): seq<real>
    requires index <= |ring|
  {
    ring[index..] + ring[..index]
  }

  /** Read from the write position, the ring is the last window; the rolling sum is its sum. */
  ghost predicate RingHolds(ring: seq<real>, index: nat, total: real, energies: seq<real>) {
    if |energies| < |ring|
    then index == 0 && ring[..|energies|] == energies && total == Sum(energies)
    else && index < |ring|
         && var window := energies[|energies| - |ring|..];
         && Unrolled(ring, index) == window
         && total == Sum(window)
  }

  lemma NextIndex(index: nat, n: nat)
    requires index < n
    ensures (index + 1) % n == if index + 1 == n then 0 else index + 1
  {
    if index + 1 == n {
      Quotient(n, n, 1, 0);
    } else {
      Quotient(index + 1, n, 0, index + 1);
    }
  }

  lemma Overwrite(ring: seq<real>, index: nat, next: nat, x: real)
    requires index < |ring|
    requires next == if index + 1 == |ring| then 0 else index + 1
    ensures Unrolled(ring[index := x], next) == Unrolled(ring, index)[1..] + [x]
  {}

  lemma SlideSum(window: seq<real>, x: real)
    requires window != []
    ensures Sum(window[1..] + [x]) == Sum(window) + (x - window[0])
  {
    assert window == [window[0]] + window[1..];
    SumConcat([window[0]], window[1..]);
    SumConcat(window[1..], [x]);
    SumSingle(window[0]);
    SumSingle(x);
  }

  lemma Fill(ring: seq<real>, total: real, energies: seq<real>, x: real)
    requires |energies| < |ring| && RingHolds(ring, 0, total, energies)
    ensures RingHolds(ring[|energies| := x], 0, total + x, energies + [x])
  {
    var all, after := energies + [x], ring[|energies| := x];
    assert all[..|energies|] == energies;
    assert after[..|all|] == all;
    if |all| == |ring| {
      assert Unrolled(after, 0) == after == all == all[0..];
    }
  }

  lemma Slide(ring: seq<real>, index: nat, total: real, energies: seq<real>, x: real)
    requires |energies| >= |ring| > index && RingHolds(ring, index, total, energies)
    ensures RingHolds(ring[index := x], (index + 1) % |ring|, total + (x - ring[index]), energies + [x])
  {
    var window := energies[|energies| - |ring|..];
    var all := energies + [x];
    NextIndex(index, |ring|);
    Overwrite(ring, index, (index + 1) % |ring|, x);
    SlideSum(window, x);
    assert Unrolled(ring, index)[0] == ring[index];
    assert all[|all| - |ring|..] == window[1..] + [x];
  }

  lemma MeanNonNegative(total: real, n: nat)
    requires total >= 0.0 && n > 0
    ensures total / n as real >= 0.0
  {}

  lemma GatedStep(lufs: Scale, gate: real, blocks: seq<real>, block: real)
    ensures var before, after := Gated(lufs, gate, blocks), Gated(lufs, gate, blocks + [block]);
            if Passes(lufs, gate, block)
            then after == before + [block] && Sum(after) == Sum(before) + block
            else after == before
  {
    var all := blocks + [block];
    assert all[..|all| - 1] == blocks;
    var before := Gated(lufs, gate, blocks);
    assert (before + [block])[..|before|] == before;
  }

  /** The three counters describe the blocks recorded so far. */
  ghost predicate Counted(lufs: Scale, gate: real, blocks: seq<real>, count: nat, gated: nat, total: real) {
    && count == |blocks|
    && gated == |Gated(lufs, gate, blocks)|
    && total == Sum(Gated(lufs, gate, blocks))
  }

  // ----- The scanner -----

  /** The window is the half-up rounding of 0.4 * rate frames and the hop that of 0.1 * rate. */
  function BlockFrames(rate: nat): nat { (rate * 2 + 2) / 5 }

  function HopFrames(rate: nat): nat { (rate + 5) / 10 }

  lemma FrameCountsRoundHalfUp(rate: nat)
    ensures BlockFrames(rate) == (0.4 * rate as real + 0.5).Floor
    ensures HopFrames(rate) == (0.1 * rate as real + 0.5).Floor
  {
    var b, h := BlockFrames(rate), HopFrames(rate);
    assert 5 * b <= 2 * rate + 2 < 5 * b + 5;
    assert b as real <= 0.4 * rate as real + 0.5 < b as real + 1.0 by {
      assert 5.0 * b as real <= 2.0 * rate as real + 2.0;
      assert 4 * rate + 5 < 10 * b + 10;
      assert 4.0 * rate as real + 5.0 < 10.0 * b as real + 10.0;
    }
    assert 10 * h <= rate + 5 < 10 * h + 10;
    assert 10.0 * h as real <= rate as real + 5.0 < 10.0 * h as real + 10.0;
  }

  const MIN_SAMPLE_RATE: nat := 8_000
  const MAX_SAMPLE_RATE: nat := 384_000

  class Scanner {
    const blockFrames: nat
    const hopFrames: nat
    const lufs: Scale
    const gate: real
    ghost const initial: seq<Stage>
    const ring: array<real>
    var filters: seq<Stage>
    var ringIndex: nat
    var windowEnergy: real
    var framesSeen: nat
    var blockCount: nat
    var gatedBlockCount: nat
    var gatedEnergySum: real
    ghost var frames: seq<seq<real>>

    /** The energies of every frame so far. */
    ghost function Energies(): seq<real>
      reads this
      requires WellShaped(frames, |initial|)
    {
      Weighted(initial, frames).1
    }

    /** Ring, rolling sum and counts are those of these frame energies. */
    ghost predicate Scanned(energies: seq<real>)
      reads `ringIndex, `windowEnergy, `framesSeen, `blockCount, `gatedBlockCount, `gatedEnergySum, ring
    {
      && blockFrames > 0 && hopFrames > 0
      && ring.Length == blockFrames
      && framesSeen == |energies|
      && RingHolds(ring[..], ringIndex, windowEnergy, energies)
      && Counted(lufs, gate, Blocks(energies, blockFrames, hopFrames),
                 blockCount, gatedBlockCount, gatedEnergySum)
    }

    ghost predicate Valid()
      reads this, ring
    {
      && WellShaped(frames, |initial|)
      && filters == Weighted(initial, frames).0
      && Scanned(Energies())
    }

    /** The source refuses other channel counts and rates before it builds a scanner. */
    constructor (rate: nat, channels: nat, shelf: Coefficients, highPass: Coefficients,
                 lufs: Scale, gate: real)
      requires channels in {1, 2}
      requires MIN_SAMPLE_RATE <= rate <= MAX_SAMPLE_RATE
      ensures Valid() && fresh(this) && fresh(ring)
      ensures blockFrames == BlockFrames(rate) && hopFrames == HopFrames(rate)
      ensures this.lufs == lufs && this.gate == gate
      ensures initial == Fresh(shelf, highPass, channels) && frames == []
    {
      blockFrames := BlockFrames(rate);
      hopFrames := HopFrames(rate);
      this.lufs := lufs;
      this.gate := gate;
      filters := seq(channels, i => (Biquad(shelf, 0.0, 0.0, 0.0, 0.0), Biquad(highPass, 0.0, 0.0, 0.0, 0.0)));
      initial := Fresh(shelf, highPass, channels);
      ring := new real[BlockFrames(rate)](i => 0.0);
      ringIndex, windowEnergy, framesSeen := 0, 0.0, 0;
      blockCount, gatedBlockCount, gatedEnergySum := 0, 0, 0.0;
      frames := [];
    }

    /** One more frame. The negative-energy error of the source cannot occur: it would come back
        as `ok == false`, and every call with the right channel count returns true. */
    method ProcessFrame(samples: seq<real>) returns (ok: bool)
      requires Valid()
      modifies this, ring
      ensures ok <==> |samples| == |initial|
      ensures ok ==> Valid() && frames == old(frames) + [samples]
      ensures !ok ==> Valid() && frames == old(frames)
    {
      if |samples| != |filters| {
        return false;
      }
      ghost var energies := Energies();
      WeightedNext(initial, frames, samples);
      var stages, energy := FrameEnergy(samples);
      filters := stages;
      frames := frames + [samples];
      ok := TakeEnergy(energies, energy);
    }

    /** The energy of one frame enters the ring, the rolling sum and, at a window's end, the block counts. */
    method TakeEnergy(ghost energies: seq<real>, energy: real) returns (ok: bool)
      requires Scanned(energies) && energy >= 0.0
      requires forall i :: 0 <= i < |energies| ==> energies[i] >= 0.0
      modifies this`ringIndex, this`windowEnergy, this`framesSeen, ring,
               this`blockCount, this`gatedBlockCount, this`gatedEnergySum
      ensures ok && Scanned(energies + [energy])
    {
      Store(energies, energy);
      ok := RecordIfComplete(energies, energy);
    }

    /** The loop over the channels. */
    method FrameEnergy(samples: seq<real>) returns (stages: seq<Stage>, energy: real)
      requires |samples| == |filters|
      ensures (stages, energy) == Weigh(filters, samples)
    {
      stages := [];
      energy := 0.0;
      for i := 0 to |filters|
        invariant (stages, energy) == Weigh(filters[..i], samples[..i])
      {
        assert filters[..i + 1][..i] == filters[..i] && samples[..i + 1][..i] == samples[..i];
        var (stage, more) := Channel(filters[i], samples[i]);
        stages := stages + [stage];
        energy := energy + more;
      }
      assert filters[..|filters|] == filters && samples[..|filters|] == samples;
    }

    /** The ring and rolling-sum update. */
    method Store(ghost energies: seq<real>, energy: real)
      requires ring.Length > 0 && ring.Length == blockFrames
      requires RingHolds(ring[..], ringIndex, windowEnergy, energies) && framesSeen == |energies|
      modifies this`ringIndex, this`windowEnergy, this`framesSeen, ring
      ensures RingHolds(ring[..], ringIndex, windowEnergy, energies + [energy])
      ensures framesSeen == |energies| + 1
    {
      ghost var before := ring[..];
      if framesSeen < blockFrames {
        Fill(before, windowEnergy, energies, energy);
        ring[framesSeen] := energy;
        windowEnergy := windowEnergy + energy;
        assert ring[..] == before[framesSeen := energy];
      } else {
        Slide(before, ringIndex, windowEnergy, energies, energy);
        var previous := ring[ringIndex];
        ring[ringIndex] := energy;
        assert ring[..] == before[ringIndex := energy];
        ringIndex := (ringIndex + 1) % blockFrames;
        windowEnergy := windowEnergy + (energy - previous);
      }
      framesSeen := framesSeen + 1;
    }

    /** The hop counter: records a block exactly when a window has just become complete. */
    method RecordIfComplete(ghost energies: seq<real>, ghost energy: real) returns (ok: bool)
      requires blockFrames > 0 && hopFrames > 0
      requires forall i :: 0 <= i < |energies| ==> energies[i] >= 0.0
      requires energy >= 0.0 && framesSeen == |energies| + 1
      requires ring.Length == blockFrames
      requires RingHolds(ring[..], ringIndex, windowEnergy, energies + [energy])
      requires Counted(lufs, gate, Blocks(energies, blockFrames, hopFrames),
                       blockCount, gatedBlockCount, gatedEnergySum)
      modifies this`blockCount, this`gatedBlockCount, this`gatedEnergySum
      ensures ok
      ensures Counted(lufs, gate, Blocks(energies + [energy], blockFrames, hopFrames),
                      blockCount, gatedBlockCount, gatedEnergySum)
    {
      BlocksStep(energies, energy, blockFrames, hopFrames);
      ok := true;
      if framesSeen >= blockFrames && (framesSeen - blockFrames) % hopFrames == 0 {
        ghost var window := (energies + [energy])[framesSeen - blockFrames..];
        SumNonNegative(window);
        ok := RecordCompleteBlock(Blocks(energies, blockFrames, hopFrames));
      }
    }

    /** Closes the window whose energy is the rolling sum. */
    method RecordCompleteBlock(ghost blocks: seq<real>) returns (ok: bool)
      requires blockFrames > 0 && windowEnergy >= 0.0
      requires Counted(lufs, gate, blocks, blockCount, gatedBlockCount, gatedEnergySum)
      modifies this`blockCount, this`gatedBlockCount, this`gatedEnergySum
      ensures ok
      ensures Counted(lufs, gate, blocks + [windowEnergy / blockFrames as real],
                      blockCount, gatedBlockCount, gatedEnergySum)
    {
      var blockEnergy := windowEnergy / blockFrames as real;
      MeanNonNegative(windowEnergy, blockFrames);
      GatedStep(lufs, gate, blocks, blockEnergy);
      if blockEnergy < 0.0 && blockEnergy > -0.000000000000001 {
        blockEnergy := 0.0;
      }
      if blockEnergy < 0.0 {
        return false;
      }
      blockCount := blockCount + 1;
      if Passes(lufs, gate, blockEnergy) {
        gatedBlockCount := gatedBlockCount + 1;
        gatedEnergySum := gatedEnergySum + blockEnergy;
      }
      ok := true;
    }
  }
}
