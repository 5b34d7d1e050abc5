/** What the two filters of a channel compute: the difference equation of each biquad over the whole signal, and
    the energy of a frame as the sum of the squared channel outputs. */
module KWeighting {
  import opened LoudnessScanner

  /** The filter run over a signal: its state afterwards and its output. */
  ghost function Filtered(b: Biquad, input: seq<real>): (r: (Biquad, seq<real>))
    ensures |r.1| == |input|
  {
    if input == [] then (b, []) else
      var (before, output) := Filtered(b, input[..|input| - 1]);
      var (after, last) := before.Process(input[|input| - 1]);
      (after, output + [last])
  }

  ghost function Rested(c: Coefficients): Biquad { Biquad(c, 0.0, 0.0, 0.0, 0.0) }

  /** A signal is silent before it starts. */
  ghost function At(s: seq<real>, i: int): real { if 0 <= i < |s| then s[i] else 0.0 }

  /** The output of a second-order section from the last three inputs and the last two outputs. */
  ghost function Equation(c: Coefficients, x0: real, x1: real, x2: real, y1: real, y2: real): real {
    c.b0 * x0 + c.b1 * x1 + c.b2 * x2 - c.a1 * y1 - c.a2 * y2
  }

  ghost predicate ObeyedAt(c: Coefficients, x: seq<real>, y: seq<real>, n: nat)
    requires n < |y|
  {
    y[n] == Equation(c, At(x, n), At(x, n - 1), At(x, n - 2), At(y, n - 1), At(y, n - 2))
  }

  /** The difference equation holds at every instant. */
  ghost predicate Obeys(c: Coefficients, x: seq<real>, y: seq<real>) {
    |y| == |x| && forall n :: 0 <= n < |x| ==> ObeyedAt(c, x, y, n)
  }

  /** The four delays hold the last two inputs and outputs. */
  lemma {:induction false} DelaysHold(c: Coefficients, x: seq<real>)
    ensures var (state, y) := Filtered(Rested(c), x);
            state == Biquad(c, At(x, |x| - 1), At(x, |x| - 2), At(y, |x| - 1), At(y, |x| - 2))
  {
    if x != [] {
      var init := x[..|x| - 1];
      DelaysHold(c, init);
      var z, y := Filtered(Rested(c), init).1, Filtered(Rested(c), x).1;
      assert y[..|init|] == z;
      assert At(x, |x| - 2) == At(init, |init| - 1) && At(y, |x| - 2) == At(z, |init| - 1);
    }
  }

  /** What comes later changes no output. */
  lemma {:induction false} FilteredPrefix(b: Biquad, x: seq<real>, n: nat)
    requires n <= |x|
    ensures Filtered(b, x).1[..n] == Filtered(b, x[..n]).1
  {
    if n < |x| {
      var init := x[..|x| - 1];
      FilteredPrefix(b, init, n);
      assert init[..n] == x[..n];
      assert Filtered(b, x).1[..|init|] == Filtered(b, init).1;
      assert Filtered(b, x).1[..n] == Filtered(b, x).1[..|init|][..n];
    } else {
      assert x[..n] == x;
    }
  }

  lemma OutputAt(b: Biquad, x: seq<real>, n: nat)
    requires n < |x|
    ensures Filtered(b, x).1[n] == Filtered(b, x[..n]).0.Process(x[n]).1
    ensures Filtered(b, x).1[..n] == Filtered(b, x[..n]).1
  {
    FilteredPrefix(b, x, n);
    FilteredPrefix(b, x, n + 1);
    assert x[..n + 1][..n] == x[..n] && x[..n + 1][n] == x[n];
    assert Filtered(b, x).1[n] == Filtered(b, x).1[..n + 1][n];
  }

  lemma ProcessIsEquation(c: Coefficients, value: real, x1: real, x2: real, y1: real, y2: real)
    ensures Biquad(c, x1, x2, y1, y2).Process(value).1 == Equation(c, value, x1, x2, y1, y2)
  {}

  lemma SameBefore(s: seq<real>, before: seq<real>, n: nat)
    requires n <= |s| && before == s[..n]
    ensures At(before, n - 1) == At(s, n - 1) && At(before, n - 2) == At(s, n - 2)
  {}

  lemma ObeysAt(c: Coefficients, x: seq<real>, n: nat)
    requires n < |x|
    ensures ObeyedAt(c, x, Filtered(Rested(c), x).1, n)
  {
    var y := Filtered(Rested(c), x).1;
    OutputAt(Rested(c), x, n);
    DelaysHold(c, x[..n]);
    SameBefore(x, x[..n], n);
    SameBefore(y, y[..n], n);
    ProcessIsEquation(c, x[n], At(x, n - 1), At(x, n - 2), At(y, n - 1), At(y, n - 2));
  }

  /** A filter at rest obeys its difference equation from the first sample of the file on. */
  lemma FilterObeys(c: Coefficients, x: seq<real>)
    ensures Obeys(c, x, Filtered(Rested(c), x).1)
  {
    forall n | 0 <= n < |x|
      ensures ObeyedAt(c, x, Filtered(Rested(c), x).1, n)
    {
      ObeysAt(c, x, n);
    }
  }

  // ----- Frames -----

  /** The signal of one channel. */
  ghost function Column(frames: seq<seq<real>>, c: nat, channels: nat): (r: seq<real>)
    requires WellShaped(frames, channels) && c < channels
    ensures |r| == |frames|
  {
    seq(|frames|, i requires 0 <= i < |frames| => frames[i][c])
  }

  /** The shelf's output through the high-pass. */
  ghost function Output(stage: Stage, x: seq<real>): (r: seq<real>)
    ensures |r| == |x|
  {
    Filtered(stage.1, Filtered(stage.0, x).1).1
  }

  ghost function StageAfter(stage: Stage, x: seq<real>): Stage {
    (Filtered(stage.0, x).0, Filtered(stage.1, Filtered(stage.0, x).1).0)
  }

  lemma ChannelIsOutput(stage: Stage, x: seq<real>, sample: real)
    ensures var (after, energy) := Channel(StageAfter(stage, x), sample);
            && after == StageAfter(stage, x + [sample])
            && Output(stage, x + [sample])[..|x|] == Output(stage, x)
            && energy == Output(stage, x + [sample])[|x|] * Output(stage, x + [sample])[|x|]
  {
    var all := x + [sample];
    assert all[..|x|] == x;
    var middle, more := Filtered(stage.0, x).1, Filtered(stage.0, all).1;
    assert more[..|x|] == middle && |more| == |x| + 1;
  }

  /** The channels' energies of one frame, each from its own filters. */
  ghost function ChannelEnergies(filters: seq<Stage>, samples: seq<real>): (r: seq<real>)
    requires |filters| == |samples|
    ensures |r| == |filters|
  {
    seq(|filters|, c requires 0 <= c < |filters| => Channel(filters[c], samples[c]).1)
  }

  lemma {:induction false} WeighByChannel(filters: seq<Stage>, samples: seq<real>)
    requires |filters| == |samples|
    ensures forall c :: 0 <= c < |filters| ==> Weigh(filters, samples).0[c] == Channel(filters[c], samples[c]).0
    ensures Weigh(filters, samples).1 == Sum(ChannelEnergies(filters, samples))
  {
    if filters != [] {
      var last := |filters| - 1;
      WeighByChannel(filters[..last], samples[..last]);
      assert ChannelEnergies(filters, samples)[..last] == ChannelEnergies(filters[..last], samples[..last]);
      var (rest, _) := Weigh(filters[..last], samples[..last]);
      forall c | 0 <= c < |filters|
        ensures Weigh(filters, samples).0[c] == Channel(filters[c], samples[c]).0
      {
        if c < last {
          assert rest[c] == Channel(filters[..last][c], samples[..last][c]).0;
        }
      }
    }
  }

  /** The squared outputs of all channels at one instant. */
  ghost function SquaresAt(filters: seq<Stage>, frames: seq<seq<real>>, n: nat): (r: seq<real>)
    requires WellShaped(frames, |filters|) && n < |frames|
    ensures |r| == |filters|
  {
    seq(|filters|, c requires 0 <= c < |filters| =>
      Output(filters[c], Column(frames, c, |filters|))[n] * Output(filters[c], Column(frames, c, |filters|))[n])
  }

  lemma ColumnNext(frames: seq<seq<real>>, c: nat, channels: nat)
    requires frames != [] && WellShaped(frames, channels) && c < channels
    ensures WellShaped(frames[..|frames| - 1], channels)
    ensures Column(frames, c, channels) == Column(frames[..|frames| - 1], c, channels) + [frames[|frames| - 1][c]]
  {}

  /** One more frame, channel by channel. */
  lemma NextFrame(filters: seq<Stage>, frames: seq<seq<real>>, state: seq<Stage>)
    requires frames != [] && WellShaped(frames, |filters|) && |state| == |filters|
    requires forall c :: 0 <= c < |filters| ==>
               state[c] == StageAfter(filters[c], Column(frames[..|frames| - 1], c, |filters|))
    ensures forall c :: 0 <= c < |filters| ==>
              Channel(state[c], frames[|frames| - 1][c]).0 == StageAfter(filters[c], Column(frames, c, |filters|))
    ensures ChannelEnergies(state, frames[|frames| - 1]) == SquaresAt(filters, frames, |frames| - 1)
  {
    var init, last := frames[..|frames| - 1], frames[|frames| - 1];
    forall c | 0 <= c < |filters|
      ensures Channel(state[c], last[c]).0 == StageAfter(filters[c], Column(frames, c, |filters|))
      ensures Channel(state[c], last[c]).1 == SquaresAt(filters, frames, |init|)[c]
    {
      ColumnNext(frames, c, |filters|);
      ChannelIsOutput(filters[c], Column(init, c, |filters|), last[c]);
    }
  }

  /** Later frames change no earlier energy. */
  lemma SquaresStay(filters: seq<Stage>, frames: seq<seq<real>>, n: nat)
    requires frames != [] && WellShaped(frames, |filters|) && n < |frames| - 1
    ensures SquaresAt(filters, frames, n) == SquaresAt(filters, frames[..|frames| - 1], n)
  {
    var init, last := frames[..|frames| - 1], frames[|frames| - 1];
    forall c | 0 <= c < |filters|
      ensures SquaresAt(filters, frames, n)[c] == SquaresAt(filters, init, n)[c]
    {
      ColumnNext(frames, c, |filters|);
      ChannelIsOutput(filters[c], Column(init, c, |filters|), last[c]);
      assert Output(filters[c], Column(frames, c, |filters|))[..|init|][n] == Output(filters[c], Column(init, c, |filters|))[n];
    }
  }

  ghost predicate EnergiesAre(filters: seq<Stage>, frames: seq<seq<real>>, energies: seq<real>)
    requires WellShaped(frames, |filters|)
  {
    |energies| == |frames| && forall n :: 0 <= n < |frames| ==> energies[n] == Sum(SquaresAt(filters, frames, n))
  }

  lemma EnergiesNext(filters: seq<Stage>, frames: seq<seq<real>>, energies: seq<real>, last: real)
    requires frames != [] && WellShaped(frames, |filters|) && EnergiesAre(filters, frames[..|frames| - 1], energies)
    requires last == Sum(SquaresAt(filters, frames, |frames| - 1))
    ensures EnergiesAre(filters, frames, energies + [last])
  {
    forall n | 0 <= n < |frames| - 1
      ensures energies[n] == Sum(SquaresAt(filters, frames, n))
    {
      SquaresStay(filters, frames, n);
    }
  }

  /** Over the whole file, the energy of every frame is the sum over its channels of the squared output of the
      channel's two filters, each run over that channel alone. */
  lemma {:induction false} EnergyByChannel(filters: seq<Stage>, frames: seq<seq<real>>)
    requires WellShaped(frames, |filters|)
    ensures forall c :: 0 <= c < |filters| ==>
              Weighted(filters, frames).0[c] == StageAfter(filters[c], Column(frames, c, |filters|))
    ensures EnergiesAre(filters, frames, Weighted(filters, frames).1)
  {
    if frames != [] {
      var init, last := frames[..|frames| - 1], frames[|frames| - 1];
      EnergyByChannel(filters, init);
      var (state, energies) := Weighted(filters, init);
      WeighByChannel(state, last);
      NextFrame(filters, frames, state);
      EnergiesNext(filters, frames, energies, Weigh(state, last).1);
    }
  }

  /** At the start of a file every filter is at rest: the shelf obeys its difference equation on the channel's
      samples, and the high-pass its own on the shelf's output. */
  lemma FileFiltersObey(shelf: Coefficients, highPass: Coefficients, frames: seq<seq<real>>, channels: nat, c: nat)
    requires WellShaped(frames, channels) && c < channels
    ensures var x := Column(frames, c, channels);
            var middle := Filtered(Fresh(shelf, highPass, channels)[c].0, x).1;
            && Obeys(shelf, x, middle)
            && Obeys(highPass, middle, Output(Fresh(shelf, highPass, channels)[c], x))
  {
    var x := Column(frames, c, channels);
    FilterObeys(shelf, x);
    FilterObeys(highPass, Filtered(Rested(shelf), x).1);
  }
}
