/** Reading PCM frames of one WAV file in chunks, and the quality figures taken from them.

    The reference definition looks at the whole data chunk at once; the two reading loops must
    agree with it whatever the chunk size. The WAV container itself is already parsed. */
module PcmAnalysis {
  import opened Common
  import opened Products
  import opened LoudnessGate
  import opened LoudnessScanner

  datatype Wav = Wav(channels: int, sampleWidth: int, sampleRate: int, declaredFrames: int,
                     compressed: bool, data: seq<Byte>)

  datatype InvalidWav =
    | CompressedData
    | BadChannelCount
    | BadSampleWidth
    | NoFrames
    | TruncatedFrame
    | MissingChannelData
    | UnexpectedChannelData
    | ShorterThanHeader
    | LoudnessFailure
    | MetadataChanged
    | BlockCountChanged
    | NoValidBlocks
    | OutsideRange

  datatype Unavailable = BelowAbsoluteGate | InsufficientDuration | UnsupportedChannelLayout | UnsupportedSampleRate

  datatype Scan = Scan(unavailable: Option<Unavailable>, blockCount: nat, gatedBlockCount: nat, gatedEnergySum: real)

  /** The running sample statistics of the first pass. */
  datatype Tally = Tally(count: nat, clipped: nat, silent: nat, peak: nat, squares: nat)

  datatype Evidence = Evidence(tally: Tally, fullScale: nat, loudness: Scan)

  /** `meanSquareRatio` is the square of the reported RMS ratio. */
  datatype Inspection = Inspection(sampleRate: nat, channels: nat, sampleWidth: nat, frames: nat,
                                   peakRatio: real, clippingRatio: real, silenceRatio: real,
                                   meanSquareRatio: real, evidence: Evidence)

  /** The constants of an analysis: the gates' scale, the filters, and the silence ratio. */
  datatype Settings = Settings(lufs: Scale, shelf: Coefficients, highPass: Coefficients, silenceRatio: real)

  /** Samples at or below this magnitude count as silent. */
  function SilenceLevel(full: nat, s: Settings): real {
    full as real * s.silenceRatio
  }

  // ----- Decoding -----

  function FullScale(width: int): (r: int)
    requires width in {1, 2, 3, 4}
    ensures r > 0
  {
    match width case 1 => 128 case 2 => 32_768 case 3 => 8_388_608 case _ => 2_147_483_648
  }

  function LittleEndian(bytes: seq<Byte>): nat {
    if bytes == [] then 0 else bytes[0] + 256 * LittleEndian(bytes[1..])
  }

  /** 8-bit PCM is offset binary, wider PCM is two's complement. */
  function Decode(bytes: seq<Byte>): int
    requires |bytes| in {1, 2, 3, 4}
  {
    if |bytes| == 1 then bytes[0] - 128
    else
      var value := LittleEndian(bytes);
      if value >= FullScale(|bytes|) then value - 2 * FullScale(|bytes|) else value
  }

  ghost function Power256(n: nat): nat {
    if n == 0 then 1 else 256 * Power256(n - 1)
  }

  lemma {:induction false} LittleEndianBound(bytes: seq<Byte>)
    ensures LittleEndian(bytes) < Power256(|bytes|)
  {
    if bytes != [] {
      LittleEndianBound(bytes[1..]);
    }
  }

  lemma DecodeInRange(bytes: seq<Byte>)
    requires |bytes| in {1, 2, 3, 4}
    ensures -FullScale(|bytes|) <= Decode(bytes) < FullScale(|bytes|)
  {
    LittleEndianBound(bytes);
    assert Power256(2) == 65_536 && Power256(3) == 256 * Power256(2) && Power256(4) == 256 * Power256(3);
  }

  function Samples(data: seq<Byte>, width: nat): (r: seq<int>)
    requires width in {1, 2, 3, 4}
  {
    if |data| < width then [] else [Decode(data[..width])] + Samples(data[width..], width)
  }

  /** Consecutive groups of `channels` samples, scaled to full scale. */
  function Frames(samples: seq<int>, channels: nat, fullScale: nat): seq<seq<real>>
    requires channels > 0 && fullScale > 0
  {
    if |samples| < channels then [] else
      [Normalize(samples[..channels], fullScale)] + Frames(samples[channels..], channels, fullScale)
  }

  function Normalize(samples: seq<int>, fullScale: nat): (r: seq<real>)
    requires fullScale > 0
    ensures |r| == |samples|
  {
    if samples == [] then []
    else Normalize(samples[..|samples| - 1], fullScale) + [samples[|samples| - 1] as real / fullScale as real]
  }

  function Abs(x: int): nat { if x < 0 then -x else x }

  function Add(t: Tally, sample: int, clippingLevel: nat, silenceLevel: real): Tally {
    Tally(t.count + 1,
          if Abs(sample) >= clippingLevel then t.clipped + 1 else t.clipped,
          if Abs(sample) as real <= silenceLevel then t.silent + 1 else t.silent,
          if Abs(sample) > t.peak then Abs(sample) else t.peak,
          t.squares + Square(sample))
  }

  function Square(sample: int): nat { Abs(sample) * Abs(sample) }

  function TallyFrom(t: Tally, samples: seq<int>, clippingLevel: nat, silenceLevel: real): Tally {
    if samples == [] then t
    else Add(TallyFrom(t, samples[..|samples| - 1], clippingLevel, silenceLevel),
             samples[|samples| - 1], clippingLevel, silenceLevel)
  }

  const NoTally := Tally(0, 0, 0, 0, 0)

  function TallyOf(samples: seq<int>, clippingLevel: nat, silenceLevel: real): Tally {
    TallyFrom(NoTally, samples, clippingLevel, silenceLevel)
  }

  lemma {:induction false} TallyConcat(t: Tally, a: seq<int>, b: seq<int>, clippingLevel: nat, silenceLevel: real)
    ensures TallyFrom(t, a + b, clippingLevel, silenceLevel) ==
            TallyFrom(TallyFrom(t, a, clippingLevel, silenceLevel), b, clippingLevel, silenceLevel)
  {
    if b == [] {
      assert a + b == a;
    } else {
      assert (a + b)[..|a + b| - 1] == a + b[..|b| - 1];
      TallyConcat(t, a, b[..|b| - 1], clippingLevel, silenceLevel);
    }
  }

  // ----- The whole-file definition -----

  function LoudnessUnavailable(sampleRate: int, channels: int): Option<Unavailable> {
    if channels != 1 && channels != 2 then Some(UnsupportedChannelLayout)
    else if !(MIN_SAMPLE_RATE <= sampleRate <= MAX_SAMPLE_RATE) then Some(UnsupportedSampleRate)
    else None
  }

  /** Loudness is available exactly for mono and stereo at 8 to 384 kHz, and the layout is looked at first. */
  lemma LoudnessAvailable(sampleRate: int, channels: int)
    ensures LoudnessUnavailable(sampleRate, channels) ==
            if channels !in {1, 2} then Some(UnsupportedChannelLayout)
            else if 8_000 - 1 < sampleRate < 384_000 + 1 then None
            else Some(UnsupportedSampleRate)
  {}

  predicate GoodHeader(wav: Wav) {
    && !wav.compressed
    && 0 < wav.channels <= 64
    && wav.sampleWidth in {1, 2, 3, 4}
    && wav.sampleRate > 0 && wav.declaredFrames > 0
  }

  /** Bytes per frame: channels * sample width. */
  function FrameWidth(wav: Wav): nat
    requires GoodHeader(wav)
    ensures FrameWidth(wav) > 0
  {
    Repeat(wav.channels, wav.sampleWidth)
  }

  /** declared frames * channels * sample width. */
  function DeclaredBytes(wav: Wav): nat
    requires GoodHeader(wav)
  {
    Repeat(wav.declaredFrames, FrameWidth(wav))
  }

  predicate Complete(wav: Wav) {
    GoodHeader(wav) && |wav.data| >= DeclaredBytes(wav)
  }

  lemma DeclaredBytesIsProduct(wav: Wav)
    requires GoodHeader(wav)
    ensures DeclaredBytes(wav) == wav.declaredFrames * wav.channels * wav.sampleWidth
  {
    var unit := FrameWidth(wav);
    RepeatIsProduct(wav.channels, wav.sampleWidth);
    RepeatIsProduct(wav.declaredFrames, unit);
    assert wav.declaredFrames * unit == wav.declaredFrames * wav.channels * wav.sampleWidth;
  }

  /** The bytes the header declares. */
  ghost function Declared(wav: Wav): seq<Byte>
    requires Complete(wav)
  {
    wav.data[..DeclaredBytes(wav)]
  }

  ghost function AllSamples(wav: Wav): seq<int>
    requires Complete(wav)
  {
    Samples(Declared(wav), wav.sampleWidth)
  }

  ghost function AllFrames(wav: Wav): seq<seq<real>>
    requires Complete(wav)
  {
    Frames(AllSamples(wav), wav.channels, FullScale(wav.sampleWidth))
  }

  lemma {:induction false} FramesWellShaped(samples: seq<int>, channels: nat, fullScale: nat)
    requires channels > 0 && fullScale > 0
    ensures WellShaped(Frames(samples, channels, fullScale), channels)
  {
    if |samples| >= channels {
      FramesWellShaped(samples[channels..], channels, fullScale);
    }
  }

  /** Block energies of a file, re-summed window by window. */
  ghost function FileBlocks(wav: Wav, s: Settings): seq<real>
    requires Complete(wav)
    requires LoudnessUnavailable(wav.sampleRate, wav.channels) == None
  {
    var filters := Fresh(s.shelf, s.highPass, wav.channels);
    FramesWellShaped(AllSamples(wav), wav.channels, FullScale(wav.sampleWidth));
    Blocks(Weighted(filters, AllFrames(wav)).1, BlockFrames(wav.sampleRate), HopFrames(wav.sampleRate))
  }

  ghost function FileScan(wav: Wav, s: Settings, gate: real): Scan
    requires Complete(wav)
  {
    match LoudnessUnavailable(wav.sampleRate, wav.channels)
    case Some(reason) => Scan(Some(reason), 0, 0, 0.0)
    case None =>
      var gated := Gated(s.lufs, gate, FileBlocks(wav, s));
      Scan(None, |FileBlocks(wav, s)|, |gated|, Sum(gated))
  }

  ghost function FileTally(wav: Wav, s: Settings): Tally
    requires Complete(wav)
  {
    var full := FullScale(wav.sampleWidth);
    TallyOf(AllSamples(wav), full - 1, SilenceLevel(full, s))
  }

  /** What inspecting a file must return. No chunk size appears here. */
  ghost function Inspect(wav: Wav, s: Settings, gate: real): Result<Evidence, InvalidWav> {
    if wav.compressed then Err(CompressedData)
    else if !(0 < wav.channels <= 64) then Err(BadChannelCount)
    else if wav.sampleWidth !in {1, 2, 3, 4} then Err(BadSampleWidth)
    else if wav.sampleRate <= 0 || wav.declaredFrames <= 0 then Err(NoFrames)
    else if |wav.data| < DeclaredBytes(wav) then
      Err(if |wav.data| % FrameWidth(wav) != 0 then TruncatedFrame else ShorterThanHeader)
    else Ok(Evidence(FileTally(wav, s), FullScale(wav.sampleWidth), FileScan(wav, s, gate)))
  }

  // ----- Cutting the data into chunks of whole frames -----

  lemma {:induction false} SamplesConcat(a: seq<Byte>, b: seq<Byte>, width: nat, n: nat)
    requires width in {1, 2, 3, 4} && |a| == Repeat(n, width)
    ensures Samples(a + b, width) == Samples(a, width) + Samples(b, width)
    ensures |Samples(a, width)| == n
    decreases n
  {
    if n == 0 {
      assert a + b == b;
    } else {
      SamplesConcat(a[width..], b, width, n - 1);
      FirstSample(a, b, width);
    }
  }

  lemma FirstSample(a: seq<Byte>, b: seq<Byte>, width: nat)
    requires width in {1, 2, 3, 4} && |a| >= width
    ensures Samples(a, width) == [Decode(a[..width])] + Samples(a[width..], width)
    ensures Samples(a + b, width) == [Decode(a[..width])] + Samples(a[width..] + b, width)
  {
    assert (a + b)[..width] == a[..width];
    assert (a + b)[width..] == a[width..] + b;
  }

  lemma {:induction false} FramesConcat(a: seq<int>, b: seq<int>, channels: nat, full: nat, n: nat)
    requires channels > 0 && full > 0 && |a| == Repeat(n, channels)
    ensures Frames(a + b, channels, full) == Frames(a, channels, full) + Frames(b, channels, full)
    ensures |Frames(a, channels, full)| == n
    decreases n
  {
    if n == 0 {
      assert a + b == b;
    } else {
      FramesConcat(a[channels..], b, channels, full, n - 1);
      assert (a + b)[..channels] == a[..channels];
      assert (a + b)[channels..] == a[channels..] + b;
    }
  }

  /** One chunk of n whole frames in front of the rest. */
  lemma ChunkConcat(chunk: seq<Byte>, rest: seq<Byte>, width: nat, channels: nat, full: nat, n: nat)
    requires width in {1, 2, 3, 4} && channels > 0 && full > 0
    requires |chunk| == Repeat(n, Repeat(channels, width))
    ensures Samples(chunk + rest, width) == Samples(chunk, width) + Samples(rest, width)
    ensures |Samples(chunk, width)| == Repeat(n, channels)
    ensures Frames(Samples(chunk + rest, width), channels, full) ==
            Frames(Samples(chunk, width), channels, full) + Frames(Samples(rest, width), channels, full)
    ensures |Frames(Samples(chunk, width), channels, full)| == n
  {
    RepeatAssociative(n, channels, width);
    SamplesConcat(chunk, rest, width, Repeat(n, channels));
    FramesConcat(Samples(chunk, width), Samples(rest, width), channels, full, n);
  }

  // ----- The first pass -----

  /** One frame: `channels` samples from the iterator, tallied and scaled. */
  method ReadFrame(samples: seq<int>, start: nat, channels: nat, full: nat, clippingLevel: nat,
                   silenceLevel: real, before: Tally)
    returns (ok: bool, frame: seq<real>, tally: Tally, next: nat)
    requires full > 0 && start <= |samples|
    ensures ok <==> start + channels <= |samples|
    ensures ok ==> next == start + channels && frame == Normalize(samples[start..next], full)
    ensures ok ==> tally == TallyFrom(before, samples[start..next], clippingLevel, silenceLevel)
  {
    frame, tally, next := [], before, start;
    for c := 0 to channels
      invariant next == start + c <= |samples|
      invariant frame == Normalize(samples[start..next], full)
      invariant tally == TallyFrom(before, samples[start..next], clippingLevel, silenceLevel)
    {
      if next == |samples| {
        return false, frame, tally, next;
      }
      var sample := samples[next];
      assert samples[start..next + 1][..next - start] == samples[start..next];
      tally := Add(tally, sample, clippingLevel, silenceLevel);
      frame := frame + [sample as real / full as real];
      next := next + 1;
    }
    ok := true;
  }

  /** The scanner, when there is one, is sound and has seen exactly these frames. */
  ghost predicate HasSeen(scanner: Scanner?, channels: nat, frames: seq<seq<real>>)
    reads Owned(scanner)
  {
    scanner != null ==> scanner.Valid() && |scanner.initial| == channels && scanner.frames == frames
  }

  /** Objects a possibly absent scanner consists of. */
  function Owned(scanner: Scanner?): set<object> {
    if scanner == null then {} else {scanner, scanner.ring}
  }

  /** Everything up to the next frame boundary: one frame more, `channels` samples more. */
  lemma NextFrame(samples: seq<int>, k: nat, channels: nat, full: nat, t: Tally, clippingLevel: nat, silenceLevel: real)
    requires channels > 0 && full > 0 && Repeat(k, channels) + channels <= |samples|
    ensures var start := Repeat(k, channels);
            var frame := samples[start..start + channels];
            && Frames(samples[..start + channels], channels, full) ==
               Frames(samples[..start], channels, full) + [Normalize(frame, full)]
            && TallyFrom(t, samples[..start + channels], clippingLevel, silenceLevel) ==
               TallyFrom(TallyFrom(t, samples[..start], clippingLevel, silenceLevel), frame, clippingLevel, silenceLevel)
  {
    var start := Repeat(k, channels);
    var frame := samples[start..start + channels];
    assert samples[..start + channels] == samples[..start] + frame;
    FramesConcat(samples[..start], frame, channels, full, k);
    assert frame[..channels] == frame && frame[channels..] == [];
    TallyConcat(t, samples[..start], frame, clippingLevel, silenceLevel);
  }

  lemma Associative<T>(a: seq<T>, b: seq<T>, c: seq<T>)
    ensures a + b + c == a + (b + c)
  {}

  /** Hands one frame to the scanner, when there is one. */
  method Feed(scanner: Scanner?, frame: seq<real>, ghost seen: seq<seq<real>>) returns (ok: bool)
    requires HasSeen(scanner, |frame|, seen)
    modifies Owned(scanner)
    ensures ok && HasSeen(scanner, |frame|, seen + [frame])
  {
    ok := true;
    if scanner != null {
      ok := scanner.ProcessFrame(frame);
    }
  }

  /** The body of the frame loop: frame k is read, tallied, scaled and handed to the scanner. */
  method ReadAndFeed(samples: seq<int>, next: nat, ghost k: nat, channels: nat, full: nat, clippingLevel: nat,
                     silenceLevel: real, ghost before: Tally, current: Tally,
                     scanner: Scanner?, ghost seen: seq<seq<real>>)
    returns (error: Option<InvalidWav>, tally: Tally, after: nat)
    requires channels > 0 && full > 0 && next == Repeat(k, channels) && next + channels <= |samples|
    requires current == TallyFrom(before, samples[..next], clippingLevel, silenceLevel)
    requires HasSeen(scanner, channels, seen + Frames(samples[..next], channels, full))
    modifies Owned(scanner)
    ensures error == None && after == Repeat(k + 1, channels)
    ensures tally == TallyFrom(before, samples[..after], clippingLevel, silenceLevel)
    ensures HasSeen(scanner, channels, seen + Frames(samples[..after], channels, full))
  {
    NextFrame(samples, k, channels, full, before, clippingLevel, silenceLevel);
    ghost var sent := Frames(samples[..next], channels, full);
    var ok, frame;
    ok, frame, tally, after := ReadFrame(samples, next, channels, full, clippingLevel, silenceLevel, current);
    if !ok {
      return Some(MissingChannelData), tally, after;
    }
    Associative(seen, sent, [frame]);
    ok := Feed(scanner, frame, seen + sent);
    if !ok {
      return Some(LoudnessFailure), tally, after;
    }
    error := None;
  }

  /** The frame loop over the samples of one chunk: every sample is tallied and every frame goes to
      the scanner. */
  method ReadFrames(samples: seq<int>, frameCount: nat, channels: nat, full: nat, clippingLevel: nat,
                    silenceLevel: real, before: Tally, scanner: Scanner?, ghost seen: seq<seq<real>>)
    returns (error: Option<InvalidWav>, tally: Tally)
    requires channels > 0 && full > 0 && |samples| == Repeat(frameCount, channels)
    requires HasSeen(scanner, channels, seen)
    modifies Owned(scanner)
    ensures error == None
    ensures tally == TallyFrom(before, samples, clippingLevel, silenceLevel)
    ensures HasSeen(scanner, channels, seen + Frames(samples, channels, full))
  {
    var next := 0;
    tally := before;
    error := None;
    assert seen + Frames(samples[..0], channels, full) == seen;
    for k := 0 to frameCount
      invariant next == Repeat(k, channels) <= |samples| && error == None
      invariant tally == TallyFrom(before, samples[..next], clippingLevel, silenceLevel)
      invariant HasSeen(scanner, channels, seen + Frames(samples[..next], channels, full))
    {
      RepeatGrows(k, frameCount, channels);
      error, tally, next :=
        ReadAndFeed(samples, next, k, channels, full, clippingLevel, silenceLevel, before, tally, scanner, seen);
      if error != None {
        return;
      }
    }
    assert samples[..next] == samples;
    if next < |samples| {
      return Some(UnexpectedChannelData), tally;
    }
  }

  // ----- The chunk loops -----

  /** The bytes up to the next chunk boundary, sample by sample and frame by frame. */
  lemma NextChunk(before: seq<Byte>, chunk: seq<Byte>, frames: nat, n: nat, width: nat, channels: nat, full: nat,
                  clippingLevel: nat, silenceLevel: real)
    requires width in {1, 2, 3, 4} && channels > 0 && full > 0
    requires |before| == Repeat(frames, Repeat(channels, width)) && |chunk| == Repeat(n, Repeat(channels, width))
    ensures var more := Samples(chunk, width);
            && |more| == Repeat(n, channels)
            && Frames(Samples(before + chunk, width), channels, full) ==
               Frames(Samples(before, width), channels, full) + Frames(more, channels, full)
            && TallyOf(Samples(before + chunk, width), clippingLevel, silenceLevel) ==
               TallyFrom(TallyOf(Samples(before, width), clippingLevel, silenceLevel), more, clippingLevel, silenceLevel)
  {
    ChunkConcat(before, chunk, width, channels, full, frames);
    ChunkConcat(chunk, [], width, channels, full, n);
    TallyConcat(NoTally, Samples(before, width), Samples(chunk, width), clippingLevel, silenceLevel);
  }

  /** A chunk that stops at the end of the data has the same remainder as the data. */
  lemma RemainderAtEnd(frames: nat, taken: nat, unit: nat)
    requires unit > 0
    ensures (Repeat(frames, unit) + taken) % unit == taken % unit
  {
    Divide(taken, unit);
    RepeatAdds(frames, taken / unit, unit);
    Remainder(frames + taken / unit, taken % unit, unit);
  }

  /** Asking for more frames than are missing never happens, and asking takes the reader forward. */
  lemma Requested(frames: nat, unit: nat, declared: nat, requested: nat)
    requires unit > 0 && 0 < requested && frames + requested <= declared
    ensures 0 < Repeat(requested, unit) <= Repeat(declared, unit) - Repeat(frames, unit)
  {
    RepeatAdds(frames, requested, unit);
    RepeatGrows(frames + requested, declared, unit);
    RepeatGrows(0, requested, unit);
  }

  /** Why a file is too short, decided at its end: a partial frame, or whole frames missing. */
  lemma ShortRead(size: nat, frames: nat, unit: nat, declared: nat, requested: nat)
    requires unit > 0 && Repeat(frames, unit) <= size
    requires 0 < requested && frames + requested <= declared
    ensures 0 < Repeat(requested, unit)
    ensures var taken := Min(Repeat(requested, unit), size - Repeat(frames, unit));
            && (taken == 0 ==> size < Repeat(declared, unit) && size % unit == 0)
            && (taken % unit != 0 ==> size < Repeat(declared, unit) && size % unit != 0)
  {
    Requested(frames, unit, declared, requested);
    var left := size - Repeat(frames, unit);
    RemainderAtEnd(frames, left, unit);
    Remainder(requested, 0, unit);
    Remainder(0, 0, unit);
  }

  /** A chunk of whole frames holds at least one and at most those asked for. */
  lemma WholeFrames(taken: nat, unit: nat, requested: nat)
    requires unit > 0 && 0 < taken <= Repeat(requested, unit) && taken % unit == 0
    ensures taken == Repeat(taken / unit, unit) && 0 < taken / unit <= requested
  {
    Divide(taken, unit);
    if taken / unit > requested {
      RepeatGrows(requested, taken / unit, unit);
    }
  }

  /** The figures reported for a file, from the evidence of its first pass. */
  function Report(wav: Wav, e: Evidence): Inspection
    requires GoodHeader(wav) && e.tally.count > 0 && e.fullScale > 0
  {
    var n := e.tally.count as real;
    var full := e.fullScale as real;
    Inspection(wav.sampleRate, wav.channels, wav.sampleWidth, wav.declaredFrames,
               AtMostOne(e.tally.peak as real / full),
               e.tally.clipped as real / n,
               e.tally.silent as real / n,
               AtMostOne(MeanSquare(e.tally, e.fullScale)),
               e)
  }

  function MeanSquare(t: Tally, full: nat): real
    requires t.count > 0 && full > 0
  {
    t.squares as real / t.count as real / (full as real * full as real)
  }

  function AtMostOne(x: real): real { if x <= 1.0 then x else 1.0 }

  /** One chunk of n whole frames, after the bytes `before`. */
  method ReadChunk(ghost before: seq<Byte>, ghost frames: nat, chunk: seq<Byte>, n: nat, width: nat, channels: nat,
                   full: nat, clippingLevel: nat, silenceLevel: real, current: Tally, scanner: Scanner?)
    returns (error: Option<InvalidWav>, tally: Tally)
    requires width in {1, 2, 3, 4} && channels > 0 && full > 0
    requires |before| == Repeat(frames, Repeat(channels, width)) && |chunk| == Repeat(n, Repeat(channels, width))
    requires current == TallyOf(Samples(before, width), clippingLevel, silenceLevel)
    requires HasSeen(scanner, channels, Frames(Samples(before, width), channels, full))
    modifies Owned(scanner)
    ensures error == None
    ensures tally == TallyOf(Samples(before + chunk, width), clippingLevel, silenceLevel)
    ensures HasSeen(scanner, channels, Frames(Samples(before + chunk, width), channels, full))
  {
    NextChunk(before, chunk, frames, n, width, channels, full, clippingLevel, silenceLevel);
    error, tally := ReadFrames(Samples(chunk, width), n, channels, full, clippingLevel, silenceLevel, current, scanner,
                               Frames(Samples(before, width), channels, full));
  }

  /** The next chunk: up to `requested` frames, and what an empty or ragged chunk says of the file. */
  method ReadData(wav: Wav, frames: nat, pos: nat, requested: nat) returns (chunk: seq<Byte>)
    requires GoodHeader(wav) && pos == Repeat(frames, FrameWidth(wav)) && pos <= |wav.data|
    requires 0 < requested && frames + requested <= wav.declaredFrames
    ensures pos + |chunk| <= |wav.data| && wav.data[..pos] + chunk == wav.data[..pos + |chunk|]
    ensures chunk == [] ==> |wav.data| < DeclaredBytes(wav) && |wav.data| % FrameWidth(wav) == 0
    ensures |chunk| % FrameWidth(wav) != 0 ==> |wav.data| < DeclaredBytes(wav) && |wav.data| % FrameWidth(wav) != 0
    ensures chunk != [] && |chunk| % FrameWidth(wav) == 0 ==>
              var n := |chunk| / FrameWidth(wav);
              && 0 < n <= requested && |chunk| == Repeat(n, FrameWidth(wav))
              && pos + |chunk| == Repeat(frames + n, FrameWidth(wav))
  {
    var unit := FrameWidth(wav);
    ShortRead(|wav.data|, frames, unit, wav.declaredFrames, requested);
    chunk := wav.data[pos..pos + Min(Repeat(requested, unit), |wav.data| - pos)];
    if chunk != [] && |chunk| % unit == 0 {
      WholeFrames(|chunk|, unit, requested);
      RepeatAdds(frames, |chunk| / unit, unit);
    }
  }

  /** The first `frames` frames, ending at byte `pos`, have been tallied and scanned. */
  ghost predicate Progress(wav: Wav, frames: nat, pos: nat, clippingLevel: nat, silenceLevel: real, tally: Tally, scanner: Scanner?)
    requires GoodHeader(wav)
    reads Owned(scanner)
  {
    && frames <= wav.declaredFrames && pos == Repeat(frames, FrameWidth(wav)) && pos <= |wav.data|
    && tally == TallyOf(Samples(wav.data[..pos], wav.sampleWidth), clippingLevel, silenceLevel)
    && HasSeen(scanner, wav.channels, Frames(Samples(wav.data[..pos], wav.sampleWidth), wav.channels, FullScale(wav.sampleWidth)))
  }

  /** One turn of the loop over the chunks: an empty chunk ends it, a ragged one is an error. */
  method ReadNext(wav: Wav, frames: nat, pos: nat, chunkFrames: nat, clippingLevel: nat, silenceLevel: real,
                  current: Tally, scanner: Scanner?)
    returns (error: Option<InvalidWav>, ended: bool, tally: Tally, framesNow: nat, posNow: nat)
    requires GoodHeader(wav) && chunkFrames > 0 && frames < wav.declaredFrames
    requires Progress(wav, frames, pos, clippingLevel, silenceLevel, current, scanner)
    modifies Owned(scanner)
    ensures error == None && !ended ==>
              Progress(wav, framesNow, posNow, clippingLevel, silenceLevel, tally, scanner) && framesNow > frames
    ensures error != None ==>
              error == Some(TruncatedFrame) && |wav.data| < DeclaredBytes(wav) && |wav.data| % FrameWidth(wav) != 0
    ensures error == None && ended ==>
              framesNow == frames && |wav.data| < DeclaredBytes(wav) && |wav.data| % FrameWidth(wav) == 0
  {
    var unit := FrameWidth(wav);
    error, ended, tally, framesNow, posNow := None, false, current, frames, pos;
    var chunk := ReadData(wav, frames, pos, Min(chunkFrames, wav.declaredFrames - frames));
    if chunk == [] {
      ended := true;
      return;
    }
    if |chunk| % unit != 0 {
      error := Some(TruncatedFrame);
      return;
    }
    error, tally := ReadChunk(wav.data[..pos], frames, chunk, |chunk| / unit, wav.sampleWidth, wav.channels,
                              FullScale(wav.sampleWidth), clippingLevel, silenceLevel, current, scanner);
    framesNow := frames + |chunk| / unit;
    posNow := pos + |chunk|;
  }

  /** The loop over the chunks of a file. */
  method ReadAll(wav: Wav, chunkFrames: nat, clippingLevel: nat, silenceLevel: real, scanner: Scanner?)
    returns (error: Option<InvalidWav>, tally: Tally)
    requires GoodHeader(wav) && chunkFrames > 0
    requires HasSeen(scanner, wav.channels, [])
    modifies Owned(scanner)
    ensures |wav.data| < DeclaredBytes(wav) ==>
              error == Some(if |wav.data| % FrameWidth(wav) != 0 then TruncatedFrame else ShorterThanHeader)
    ensures Complete(wav) ==>
              && error == None
              && tally == TallyOf(AllSamples(wav), clippingLevel, silenceLevel)
              && HasSeen(scanner, wav.channels, AllFrames(wav))
  {
    var framesRead, pos := 0, 0;
    tally := NoTally;
    while framesRead < wav.declaredFrames
      invariant Progress(wav, framesRead, pos, clippingLevel, silenceLevel, tally, scanner)
      decreases wav.declaredFrames - framesRead
    {
      var ended;
      error, ended, tally, framesRead, pos := ReadNext(wav, framesRead, pos, chunkFrames, clippingLevel, silenceLevel, tally, scanner);
      if error != None {
        return;
      }
      if ended {
        break;
      }
    }
    if framesRead != wav.declaredFrames {
      return Some(ShorterThanHeader), tally;
    }
    error := None;
  }

  // ----- The two passes -----

  lemma {:induction false} TallyCount(samples: seq<int>, clippingLevel: nat, silenceLevel: real)
    ensures TallyOf(samples, clippingLevel, silenceLevel).count == |samples|
  {
    if samples != [] {
      TallyCount(samples[..|samples| - 1], clippingLevel, silenceLevel);
    }
  }

  /** A complete file has one sample per frame and channel. */
  lemma SampleCount(wav: Wav)
    requires Complete(wav)
    ensures |AllSamples(wav)| == Repeat(wav.declaredFrames, wav.channels) > 0
  {
    ChunkConcat(Declared(wav), [], wav.sampleWidth, wav.channels, FullScale(wav.sampleWidth), wav.declaredFrames);
    RepeatGrows(0, wav.declaredFrames, wav.channels);
  }

  /** A scanner that has seen every frame of a file holds the file's reference scan. */
  lemma ScannerHoldsScan(wav: Wav, s: Settings, scanner: Scanner)
    requires Complete(wav)
    requires LoudnessUnavailable(wav.sampleRate, wav.channels) == None
    requires scanner.Valid() && scanner.frames == AllFrames(wav)
    requires scanner.initial == Fresh(s.shelf, s.highPass, wav.channels) && scanner.lufs == s.lufs
    requires scanner.blockFrames == BlockFrames(wav.sampleRate) && scanner.hopFrames == HopFrames(wav.sampleRate)
    ensures FileScan(wav, s, scanner.gate) ==
            Scan(None, scanner.blockCount, scanner.gatedBlockCount, scanner.gatedEnergySum)
  {}

  /** The report on a file by the whole-file definition. */
  ghost function Inspected(wav: Wav, s: Settings): Result<Inspection, InvalidWav> {
    match Inspect(wav, s, ABSOLUTE_GATE)
    case Err(error) => Err(error)
    case Ok(evidence) =>
      (SampleCount(wav);
       TallyCount(AllSamples(wav), evidence.fullScale - 1, SilenceLevel(evidence.fullScale, s));
       Ok(Report(wav, evidence)))
  }

  /** What the first pass must hold at the end, by the whole-file definition. */
  lemma EvidenceOf(wav: Wav, s: Settings, tally: Tally)
    requires Complete(wav) && tally == FileTally(wav, s)
    ensures Inspect(wav, s, ABSOLUTE_GATE) ==
            Ok(Evidence(tally, FullScale(wav.sampleWidth), FileScan(wav, s, ABSOLUTE_GATE)))
    ensures tally.count > 0
  {
    SampleCount(wav);
    var full := FullScale(wav.sampleWidth);
    TallyCount(AllSamples(wav), full - 1, SilenceLevel(full, s));
  }

  /** The first pass with a loudness scanner. */
  method GatherWithLoudness(wav: Wav, s: Settings, chunkFrames: nat) returns (error: Option<InvalidWav>, tally: Tally, loudness: Scan)
    requires GoodHeader(wav) && chunkFrames > 0 && LoudnessUnavailable(wav.sampleRate, wav.channels) == None
    ensures |wav.data| < DeclaredBytes(wav) ==>
              error == Some(if |wav.data| % FrameWidth(wav) != 0 then TruncatedFrame else ShorterThanHeader)
    ensures Complete(wav) ==>
              error == None && tally == FileTally(wav, s) && loudness == FileScan(wav, s, ABSOLUTE_GATE)
  {
    var full: nat := FullScale(wav.sampleWidth);
    var scanner := new Scanner(wav.sampleRate, wav.channels, s.shelf, s.highPass, s.lufs, ABSOLUTE_GATE);
    error, tally := ReadAll(wav, chunkFrames, full - 1, SilenceLevel(full, s), scanner);
    loudness := Scan(None, scanner.blockCount, scanner.gatedBlockCount, scanner.gatedEnergySum);
    if error == None {
      ScannerHoldsScan(wav, s, scanner);
    }
  }

  /** Tallies and, for a supported layout and rate, loudness blocks of a file with a good header. */
  method GatherEvidence(wav: Wav, s: Settings, chunkFrames: nat) returns (r: Result<Evidence, InvalidWav>)
    requires GoodHeader(wav) && chunkFrames > 0
    ensures r == Inspect(wav, s, ABSOLUTE_GATE)
    ensures r.Ok? ==> r.value.tally.count > 0 && r.value.fullScale > 0
  {
    var full: nat := FullScale(wav.sampleWidth);
    var unavailable := LoudnessUnavailable(wav.sampleRate, wav.channels);
    var error, tally, loudness;
    if unavailable == None {
      error, tally, loudness := GatherWithLoudness(wav, s, chunkFrames);
    } else {
      error, tally := ReadAll(wav, chunkFrames, full - 1, SilenceLevel(full, s), null);
      loudness := Scan(unavailable, 0, 0, 0.0);
    }
    if error != None {
      return Err(error.value);
    }
    EvidenceOf(wav, s, tally);
    r := Ok(Evidence(tally, full, loudness));
  }

  /** The first pass. Its result is the whole-file definition, so no chunk size can change it. */
  method InspectPcmWav(wav: Wav, s: Settings, chunkFrames: nat) returns (r: Result<Inspection, InvalidWav>)
    requires chunkFrames > 0
    ensures r == Inspected(wav, s)
  {
    if wav.compressed {
      return Err(CompressedData);
    }
    if wav.channels <= 0 || wav.channels > 64 {
      return Err(BadChannelCount);
    }
    if wav.sampleWidth !in {1, 2, 3, 4} {
      return Err(BadSampleWidth);
    }
    if wav.sampleRate <= 0 || wav.declaredFrames <= 0 {
      return Err(NoFrames);
    }
    var evidence := GatherEvidence(wav, s, chunkFrames);
    if evidence.Err? {
      return Err(evidence.error);
    }
    r := Ok(Report(wav, evidence.value));
  }

  const SECOND_PASS_CHUNK: nat := 4096

  /** The second pass: the same file against another gate. On an unchanged file it cannot fail and
      sees exactly the blocks of the first pass. */
  method ScanPcmWavLoudness(wav: Wav, inspection: Inspection, s: Settings, gate: real)
    returns (r: Result<Scan, InvalidWav>)
    ensures Complete(wav)
            && inspection.sampleRate == wav.sampleRate && inspection.channels == wav.channels
            && inspection.sampleWidth == wav.sampleWidth
            && LoudnessUnavailable(wav.sampleRate, wav.channels) == None
            ==> r == Ok(FileScan(wav, s, gate))
  {
    if LoudnessUnavailable(inspection.sampleRate, inspection.channels) != None
       || wav.compressed || wav.declaredFrames <= 0
       || (wav.sampleRate, wav.channels, wav.sampleWidth) != (inspection.sampleRate, inspection.channels, inspection.sampleWidth)
       || wav.sampleWidth !in {1, 2, 3, 4}
    {
      return Err(MetadataChanged);
    }
    var scanner := new Scanner(wav.sampleRate, wav.channels, s.shelf, s.highPass, s.lufs, gate);
    var error, _ := ReadAll(wav, SECOND_PASS_CHUNK, 0, 0.0, scanner);
    if error != None {
      return Err(MetadataChanged);
    }
    ScannerHoldsScan(wav, s, scanner);
    r := Ok(Scan(None, scanner.blockCount, scanner.gatedBlockCount, scanner.gatedEnergySum));
  }
}
