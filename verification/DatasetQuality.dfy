/** Dataset-wide figures: sample ratios over all PCM files and their integrated loudness. */
module DatasetQuality {
  import opened Common
  import opened LoudnessScanner
  import opened LoudnessGate
  import opened PcmAnalysis

  /** A kept file; compressed audio is not decoded here. */
  datatype Entry = DecoderPending | Validated(wav: Wav, inspection: Inspection)

  datatype Loudness =
    | NotAvailable(reason: Unavailable, analyzedFiles: nat, blockCount: nat)
    | Measured(analyzedFiles: nat, blockCount: nat, gatedBlockCount: nat, integratedLufs: real)

  /** The figures over all samples; `meanSquareRatio` is the square of the reported RMS ratio. */
  datatype Quality = Quality(sampleCount: nat, clippingRatio: real, silenceRatio: real, meanSquareRatio: real)

  // ----- What the tally of one file counts -----

  /** The facts about one sample that the report depends on. */
  datatype Mark = Mark(clipped: bool, silent: bool, square: real)

  ghost function Marks(samples: seq<int>, full: nat, silenceLevel: real): (r: seq<Mark>)
    requires full > 0
    ensures |r| == |samples|
  {
    seq(|samples|, i requires 0 <= i < |samples| =>
      Mark(Abs(samples[i]) >= full - 1, Abs(samples[i]) as real <= silenceLevel,
           Square(samples[i]) as real / (full * full) as real))
  }

  ghost function Clipped(marks: seq<Mark>): nat {
    if marks == [] then 0 else Clipped(marks[..|marks| - 1]) + (if marks[|marks| - 1].clipped then 1 else 0)
  }

  ghost function Silent(marks: seq<Mark>): nat {
    if marks == [] then 0 else Silent(marks[..|marks| - 1]) + (if marks[|marks| - 1].silent then 1 else 0)
  }

  ghost function Squares(marks: seq<Mark>): real {
    if marks == [] then 0.0 else Squares(marks[..|marks| - 1]) + marks[|marks| - 1].square
  }

  lemma {:induction false} MarksConcat(a: seq<Mark>, b: seq<Mark>)
    ensures Clipped(a + b) == Clipped(a) + Clipped(b)
    ensures Silent(a + b) == Silent(a) + Silent(b)
    ensures Squares(a + b) == Squares(a) + Squares(b)
  {
    if b == [] {
      assert a + b == a;
    } else {
      assert (a + b)[..|a + b| - 1] == a + b[..|b| - 1];
      MarksConcat(a, b[..|b| - 1]);
    }
  }

  lemma DivideSum(x: real, y: real, d: real)
    requires d > 0.0
    ensures (x + y) / d == x / d + y / d
  {}

  lemma {:induction false} TallyCounts(samples: seq<int>, full: nat, silenceLevel: real)
    requires full > 0
    ensures var t := TallyOf(samples, full - 1, silenceLevel);
            var marks := Marks(samples, full, silenceLevel);
            && t.count == |samples|
            && t.clipped == Clipped(marks)
            && t.silent == Silent(marks)
  {
    if samples != [] {
      var init := samples[..|samples| - 1];
      TallyCounts(init, full, silenceLevel);
      assert Marks(samples, full, silenceLevel)[..|samples| - 1] == Marks(init, full, silenceLevel);
    }
  }

  lemma {:induction false} TallySquares(samples: seq<int>, full: nat, silenceLevel: real, area: real)
    requires full > 0 && area == (full * full) as real && area > 0.0
    ensures TallyOf(samples, full - 1, silenceLevel).squares as real / area == Squares(Marks(samples, full, silenceLevel))
  {
    if samples != [] {
      var init, last := samples[..|samples| - 1], samples[|samples| - 1];
      TallySquares(init, full, silenceLevel, area);
      assert Marks(samples, full, silenceLevel)[..|samples| - 1] == Marks(init, full, silenceLevel);
      DivideSum(TallyOf(init, full - 1, silenceLevel).squares as real, Square(last) as real, area);
    }
  }

  lemma {:induction false} TallyPeak(samples: seq<int>, full: nat, silenceLevel: real)
    requires full > 0
    ensures var t := TallyOf(samples, full - 1, silenceLevel);
            && (forall x :: x in samples ==> Abs(x) <= t.peak)
            && (samples != [] ==> exists x :: x in samples && Abs(x) == t.peak)
  {
    if samples != [] {
      var init, last := samples[..|samples| - 1], samples[|samples| - 1];
      TallyPeak(init, full, silenceLevel);
      assert samples == init + [last];
      assert last in samples;
      var before, after := TallyOf(init, full - 1, silenceLevel).peak, TallyOf(samples, full - 1, silenceLevel).peak;
      assert after == if Abs(last) > before then Abs(last) else before;
      if init == [] {
        assert before == 0 <= Abs(last);
      } else {
        var x :| x in init && Abs(x) == before;
        assert x in samples;
      }
    }
  }

  /** The tally counts exactly the clipped and silent samples and sums their squares. */
  lemma TallyMeaning(samples: seq<int>, full: nat, silenceLevel: real)
    requires full > 0
    ensures var t := TallyOf(samples, full - 1, silenceLevel);
            var marks := Marks(samples, full, silenceLevel);
            && t.count == |samples|
            && t.clipped == Clipped(marks)
            && t.silent == Silent(marks)
            && t.squares as real / (full * full) as real == Squares(marks)
            && (forall x :: x in samples ==> Abs(x) <= t.peak)
            && (samples != [] ==> exists x :: x in samples && Abs(x) == t.peak)
  {
    Positive(full);
    TallyCounts(samples, full, silenceLevel);
    TallySquares(samples, full, silenceLevel, (full * full) as real);
    TallyPeak(samples, full, silenceLevel);
  }

  lemma Positive(full: nat)
    requires full > 0
    ensures full * full > 0
  {}

  // ----- Every ratio is in [0, 1] -----

  ghost predicate InUnit(x: real) { 0.0 <= x <= 1.0 }

  lemma RatioInUnit(x: real, n: real)
    requires 0.0 <= x <= n && n > 0.0
    ensures InUnit(x / n)
  {}

  lemma SquareBound(x: nat, full: nat)
    requires x <= full
    ensures x * x <= full * full
  {
    assert x * x <= x * full <= full * full;
  }

  lemma {:induction false} MarkBounds(marks: seq<Mark>)
    requires forall m :: m in marks ==> InUnit(m.square)
    ensures Clipped(marks) <= |marks| && Silent(marks) <= |marks|
    ensures 0.0 <= Squares(marks) <= |marks| as real
  {
    if marks != [] {
      var init := marks[..|marks| - 1];
      assert marks[|marks| - 1] in marks;
      assert forall m :: m in init ==> m in marks;
      MarkBounds(init);
    }
  }

  lemma {:induction false} SamplesInRange(data: seq<Byte>, width: nat)
    requires width in {1, 2, 3, 4}
    ensures forall x :: x in Samples(data, width) ==> Abs(x) <= FullScale(width)
  {
    if |data| >= width {
      DecodeInRange(data[..width]);
      SamplesInRange(data[width..], width);
    }
  }

  ghost function FileMarks(wav: Wav, s: Settings): seq<Mark>
    requires Complete(wav)
  {
    var full := FullScale(wav.sampleWidth);
    Marks(AllSamples(wav), full, SilenceLevel(full, s))
  }

  lemma FileMarkBounds(wav: Wav, s: Settings)
    requires Complete(wav)
    ensures forall m :: m in FileMarks(wav, s) ==> InUnit(m.square)
  {
    var full: nat := FullScale(wav.sampleWidth);
    var samples := AllSamples(wav);
    SamplesInRange(Declared(wav), wav.sampleWidth);
    forall i | 0 <= i < |samples|
      ensures InUnit(FileMarks(wav, s)[i].square)
    {
      assert samples[i] in samples;
      SquareBound(Abs(samples[i]), full);
      Positive(full);
      RatioInUnit(Square(samples[i]) as real, (full * full) as real);
    }
  }

  /** The mean square relative to full scale is the mean of the relative squares. */
  lemma MeanSquareIsMean(t: Tally, full: nat)
    requires t.count > 0 && full > 0
    ensures MeanSquare(t, full) == t.squares as real / (full * full) as real / t.count as real
  {
    var f := full as real;
    Positive(full);
    assert (full * full) as real == f * f;
    SwapDivisors(t.squares as real, t.count as real, f * f);
  }

  lemma SwapDivisors(x: real, n: real, d: real)
    requires n > 0.0 && d > 0.0
    ensures x / n / d == x / d / n
  {
    var q := x / n / d;
    assert q * d == x / n;
    assert q * d * n == x;
    assert (q * n) * d == x;
    assert x / d == q * n;
  }

  lemma FilePeak(wav: Wav, s: Settings)
    requires Complete(wav)
    ensures FileTally(wav, s).peak <= FullScale(wav.sampleWidth)
  {
    var full: nat := FullScale(wav.sampleWidth);
    SampleCount(wav);
    SamplesInRange(Declared(wav), wav.sampleWidth);
    TallyMeaning(AllSamples(wav), full, SilenceLevel(full, s));
  }

  /** The tally of a complete file against its marks. */
  lemma FileTallyMeaning(wav: Wav, s: Settings)
    requires Complete(wav)
    ensures var t, marks, full: nat := FileTally(wav, s), FileMarks(wav, s), FullScale(wav.sampleWidth);
            && t.count == |marks| > 0
            && t.clipped == Clipped(marks) <= |marks|
            && t.silent == Silent(marks) <= |marks|
            && t.squares as real / (full * full) as real == Squares(marks)
            && 0.0 <= Squares(marks) <= |marks| as real
            && t.peak <= full
  {
    var full: nat := FullScale(wav.sampleWidth);
    SampleCount(wav);
    TallyMeaning(AllSamples(wav), full, SilenceLevel(full, s));
    FileMarkBounds(wav, s);
    MarkBounds(FileMarks(wav, s));
    FilePeak(wav, s);
  }

  /** The report's four ratios, from a tally and the marks it agrees with. */
  lemma ReportRatios(wav: Wav, e: Evidence, marks: seq<Mark>)
    requires GoodHeader(wav) && e.fullScale > 0 && e.tally.count == |marks| > 0
    requires e.tally.clipped == Clipped(marks) <= |marks| && e.tally.silent == Silent(marks) <= |marks|
    requires e.tally.squares as real / (e.fullScale * e.fullScale) as real == Squares(marks)
    requires 0.0 <= Squares(marks) <= |marks| as real && e.tally.peak <= e.fullScale
    ensures var r := Report(wav, e);
            var n := |marks| as real;
            && r.clippingRatio == Clipped(marks) as real / n && InUnit(r.clippingRatio)
            && r.silenceRatio == Silent(marks) as real / n && InUnit(r.silenceRatio)
            && r.meanSquareRatio == Squares(marks) / n && InUnit(r.meanSquareRatio)
            && r.peakRatio == e.tally.peak as real / e.fullScale as real && InUnit(r.peakRatio)
  {
    var n := |marks| as real;
    RatioInUnit(e.tally.clipped as real, n);
    RatioInUnit(e.tally.silent as real, n);
    RatioInUnit(Squares(marks), n);
    RatioInUnit(e.tally.peak as real, e.fullScale as real);
    MeanSquareIsMean(e.tally, e.fullScale);
  }

  /** Every reported ratio of an accepted file lies in [0, 1] before any clamp, and is the ratio over
      the file's samples. */
  lemma FileRatios(wav: Wav, s: Settings)
    requires Inspected(wav, s).Ok?
    ensures var r := Inspected(wav, s).value;
            var marks := FileMarks(wav, s);
            var n := |marks| as real;
            && |marks| > 0
            && r.clippingRatio == Clipped(marks) as real / n && InUnit(r.clippingRatio)
            && r.silenceRatio == Silent(marks) as real / n && InUnit(r.silenceRatio)
            && r.meanSquareRatio == Squares(marks) / n && InUnit(r.meanSquareRatio)
            && r.peakRatio == r.evidence.tally.peak as real / r.evidence.fullScale as real && InUnit(r.peakRatio)
  {
    FileTallyMeaning(wav, s);
    ReportRatios(wav, Inspect(wav, s, ABSOLUTE_GATE).value, FileMarks(wav, s));
  }

  // ----- Dataset-wide sample ratios -----

  ghost predicate Analyzed(e: Entry, s: Settings) {
    e.Validated? ==> Inspected(e.wav, s) == Ok(e.inspection)
  }

  /** Every kept PCM file still has the bytes its first-pass report was made from. */
  ghost predicate AllAnalyzed(entries: seq<Entry>, s: Settings) {
    forall i :: 0 <= i < |entries| ==> Analyzed(entries[i], s)
  }

  function EvidenceIn(entries: seq<Entry>): (r: seq<Evidence>)
    ensures |r| <= |entries|
  {
    if entries == [] then [] else
      var rest := EvidenceIn(entries[..|entries| - 1]);
      var last := entries[|entries| - 1];
      if last.Validated? then rest + [last.inspection.evidence] else rest
  }

  /** The samples of all PCM files, one after the other. */
  ghost function DatasetMarks(entries: seq<Entry>, s: Settings): seq<Mark>
    requires AllAnalyzed(entries, s)
  {
    if entries == [] then [] else
      var last := entries[|entries| - 1];
      DatasetMarks(entries[..|entries| - 1], s) + (if last.Validated? then FileMarks(last.wav, s) else [])
  }

  function TotalCount(evidence: seq<Evidence>): nat {
    if evidence == [] then 0 else TotalCount(evidence[..|evidence| - 1]) + evidence[|evidence| - 1].tally.count
  }

  function TotalClipped(evidence: seq<Evidence>): nat {
    if evidence == [] then 0 else TotalClipped(evidence[..|evidence| - 1]) + evidence[|evidence| - 1].tally.clipped
  }

  function TotalSilent(evidence: seq<Evidence>): nat {
    if evidence == [] then 0 else TotalSilent(evidence[..|evidence| - 1]) + evidence[|evidence| - 1].tally.silent
  }

  /** Sum of each file's square sum relative to its own full scale. */
  function TotalSquares(evidence: seq<Evidence>): real
    requires forall e :: e in evidence ==> e.fullScale * e.fullScale != 0
  {
    if evidence == [] then 0.0 else
      var last := evidence[|evidence| - 1];
      TotalSquares(evidence[..|evidence| - 1]) + last.tally.squares as real / (last.fullScale * last.fullScale) as real
  }

  /** The dataset figures; none when there are no PCM samples. */
  function BuildQuality(evidence: seq<Evidence>): Option<Quality>
    requires forall e :: e in evidence ==> e.fullScale * e.fullScale != 0
  {
    var n := TotalCount(evidence);
    if n == 0 then None else
      Some(Quality(n, TotalClipped(evidence) as real / n as real, TotalSilent(evidence) as real / n as real,
                   AtMostOne(TotalSquares(evidence) / n as real)))
  }

  lemma {:induction false} TotalsAreMarks(entries: seq<Entry>, s: Settings)
    requires AllAnalyzed(entries, s)
    ensures var evidence, marks := EvidenceIn(entries), DatasetMarks(entries, s);
            && (forall e :: e in evidence ==> e.fullScale * e.fullScale != 0)
            && TotalCount(evidence) == |marks|
            && TotalClipped(evidence) == Clipped(marks)
            && TotalSilent(evidence) == Silent(marks)
            && TotalSquares(evidence) == Squares(marks)
    ensures forall m :: m in DatasetMarks(entries, s) ==> InUnit(m.square)
  {
    if entries != [] {
      var init, last := entries[..|entries| - 1], entries[|entries| - 1];
      TotalsAreMarks(init, s);
      assert Analyzed(last, s);
      if last.Validated? {
        FileTallyMeaning(last.wav, s);
        FileMarkBounds(last.wav, s);
        MarksConcat(DatasetMarks(init, s), FileMarks(last.wav, s));
        var rest, e := EvidenceIn(init), last.inspection.evidence;
        Positive(e.fullScale);
        assert (rest + [e])[..|rest|] == rest;
      } else {
        assert DatasetMarks(entries, s) == DatasetMarks(init, s);
      }
    }
  }

  /** The dataset ratios are those of all PCM samples laid end to end, and lie in [0, 1]. */
  lemma DatasetRatios(entries: seq<Entry>, s: Settings)
    requires AllAnalyzed(entries, s)
    ensures forall e :: e in EvidenceIn(entries) ==> e.fullScale * e.fullScale != 0
    ensures var marks := DatasetMarks(entries, s);
            var n := |marks| as real;
            BuildQuality(EvidenceIn(entries)) ==
            if marks == [] then None
            else Some(Quality(|marks|, Clipped(marks) as real / n, Silent(marks) as real / n, Squares(marks) / n))
    ensures var q := BuildQuality(EvidenceIn(entries));
            q.Some? ==> InUnit(q.value.clippingRatio) && InUnit(q.value.silenceRatio) && InUnit(q.value.meanSquareRatio)
  {
    TotalsAreMarks(entries, s);
    var marks := DatasetMarks(entries, s);
    MarkBounds(marks);
    if marks != [] {
      var n := |marks| as real;
      RatioInUnit(Clipped(marks) as real, n);
      RatioInUnit(Silent(marks) as real, n);
      RatioInUnit(Squares(marks), n);
    }
  }

  // ----- Integrated loudness -----

  ghost predicate Supported(e: Entry) {
    e.Validated? ==> LoudnessUnavailable(e.wav.sampleRate, e.wav.channels) == None
  }

  ghost predicate AllSupported(entries: seq<Entry>) {
    forall i :: 0 <= i < |entries| ==> Supported(entries[i])
  }

  /** The blocks of all PCM files. Windows never reach across a file boundary. */
  ghost function DatasetBlocks(entries: seq<Entry>, s: Settings): seq<real>
    requires AllAnalyzed(entries, s) && AllSupported(entries)
  {
    if entries == [] then [] else
      var last := entries[|entries| - 1];
      assert Analyzed(last, s) && Supported(last);
      DatasetBlocks(entries[..|entries| - 1], s) + (if last.Validated? then FileBlocks(last.wav, s) else [])
  }

  function Reasons(evidence: seq<Evidence>): set<Unavailable> {
    set e | e in evidence && e.loudness.unavailable.Some? :: e.loudness.unavailable.value
  }

  /** The dataset loudness by the Annex 1 definition over all blocks at once. */
  ghost function ReferenceLoudness(entries: seq<Entry>, s: Settings): Result<Loudness, InvalidWav>
    requires AllAnalyzed(entries, s) && StrictlyIncreasing(s.lufs)
  {
    var evidence := EvidenceIn(entries);
    if !AllSupported(entries) then
      Ok(NotAvailable(if UnsupportedChannelLayout in Reasons(evidence) then UnsupportedChannelLayout
                      else UnsupportedSampleRate, 0, 0))
    else
      var blocks := DatasetBlocks(entries, s);
      if blocks == [] then Ok(NotAvailable(InsufficientDuration, |evidence|, 0))
      else if Gated(s.lufs, ABSOLUTE_GATE, blocks) == [] then Ok(NotAvailable(BelowAbsoluteGate, |evidence|, |blocks|))
      else
        var kept := AboveBoth(s.lufs, RelativeGate(s.lufs, blocks), blocks);
        var integrated := Integrated(s.lufs, blocks);
        if integrated > 10.0 then Err(OutsideRange) else Ok(Measured(|evidence|, |blocks|, |kept|, integrated))
  }

  function TotalBlocks(scans: seq<Scan>): nat {
    if scans == [] then 0 else TotalBlocks(scans[..|scans| - 1]) + scans[|scans| - 1].blockCount
  }

  function TotalGated(scans: seq<Scan>): nat {
    if scans == [] then 0 else TotalGated(scans[..|scans| - 1]) + scans[|scans| - 1].gatedBlockCount
  }

  function TotalEnergy(scans: seq<Scan>): real {
    if scans == [] then 0.0 else TotalEnergy(scans[..|scans| - 1]) + scans[|scans| - 1].gatedEnergySum
  }

  function ScansIn(evidence: seq<Evidence>): (r: seq<Scan>)
    ensures |r| == |evidence|
  {
    seq(|evidence|, i requires 0 <= i < |evidence| => evidence[i].loudness)
  }

  /** The scans of every PCM file against a gate. */
  ghost function GateScans(entries: seq<Entry>, s: Settings, gate: real): seq<Scan>
    requires AllAnalyzed(entries, s)
  {
    if entries == [] then [] else
      var last := entries[|entries| - 1];
      var rest := GateScans(entries[..|entries| - 1], s, gate);
      assert Analyzed(last, s);
      if last.Validated? then rest + [FileScan(last.wav, s, gate)] else rest
  }

  lemma {:induction false} FirstPassScans(entries: seq<Entry>, s: Settings)
    requires AllAnalyzed(entries, s)
    ensures ScansIn(EvidenceIn(entries)) == GateScans(entries, s, ABSOLUTE_GATE)
  {
    if entries != [] {
      var init, last := entries[..|entries| - 1], entries[|entries| - 1];
      FirstPassScans(init, s);
      assert Analyzed(last, s);
    }
  }

  /** Totals over per-file scans are figures of the blocks of all files. */
  lemma {:induction false} ScanTotals(entries: seq<Entry>, s: Settings, gate: real)
    requires AllAnalyzed(entries, s) && AllSupported(entries)
    ensures var scans := GateScans(entries, s, gate);
            var blocks := DatasetBlocks(entries, s);
            var gated := Gated(s.lufs, gate, blocks);
            TotalBlocks(scans) == |blocks| && TotalGated(scans) == |gated| && TotalEnergy(scans) == Sum(gated)
  {
    if entries != [] {
      var init, last := entries[..|entries| - 1], entries[|entries| - 1];
      ScanTotals(init, s, gate);
      assert Analyzed(last, s) && Supported(last);
      if last.Validated? {
        var more := FileBlocks(last.wav, s);
        var rest := GateScans(init, s, gate);
        assert (rest + [FileScan(last.wav, s, gate)])[..|rest|] == rest;
        GatedConcat(s.lufs, gate, DatasetBlocks(init, s), more);
        SumConcat(Gated(s.lufs, gate, DatasetBlocks(init, s)), Gated(s.lufs, gate, more));
      } else {
        assert DatasetBlocks(entries, s) == DatasetBlocks(init, s);
      }
    }
  }

  lemma {:induction false} ReasonsDecide(entries: seq<Entry>, s: Settings)
    requires AllAnalyzed(entries, s)
    ensures Reasons(EvidenceIn(entries)) == {} <==> AllSupported(entries)
  {
    if entries != [] {
      var init, last := entries[..|entries| - 1], entries[|entries| - 1];
      ReasonsDecide(init, s);
      assert Analyzed(last, s);
      assert AllSupported(entries) <==> AllSupported(init) && Supported(last) by {
        assert entries == init + [last];
      }
      var evidence := EvidenceIn(entries);
      if last.Validated? {
        var e := last.inspection.evidence;
        assert evidence == EvidenceIn(init) + [e];
        assert Reasons(evidence) == Reasons(EvidenceIn(init)) + (if e.loudness.unavailable.Some? then {e.loudness.unavailable.value} else {});
      }
    }
  }

  /** The second pass over every PCM file. With unchanged files no error is raised. */
  method ScanAgain(entries: seq<Entry>, s: Settings, gate: real) returns (r: Result<seq<Scan>, InvalidWav>)
    requires AllAnalyzed(entries, s) && AllSupported(entries)
    ensures r == Ok(GateScans(entries, s, gate))
  {
    var scans: seq<Scan> := [];
    for i := 0 to |entries|
      invariant scans == GateScans(entries[..i], s, gate)
    {
      assert entries[..i + 1][..i] == entries[..i];
      assert Analyzed(entries[i], s) && Supported(entries[i]);
      if entries[i].Validated? {
        var scan := ScanPcmWavLoudness(entries[i].wav, entries[i].inspection, s, gate);
        match scan {
          case Err(error) => return Err(error);
          case Ok(value) =>
            if value.blockCount != entries[i].inspection.evidence.loudness.blockCount {
              return Err(BlockCountChanged);
            }
            scans := scans + [value];
        }
      }
    }
    assert entries[..|entries|] == entries;
    r := Ok(scans);
  }

  /** The two-pass loudness of a dataset. On unchanged files it is the Annex 1 figure over all blocks
      at once; neither a changed block count nor an empty second gate can be reported. */
  method BuildPcmLoudness(entries: seq<Entry>, s: Settings) returns (r: Result<Loudness, InvalidWav>)
    requires AllAnalyzed(entries, s) && StrictlyIncreasing(s.lufs)
    ensures r == ReferenceLoudness(entries, s)
    ensures r.Err? ==> r.error == OutsideRange
    ensures r.Ok? && r.value.Measured? ==>
              -70.0 <= r.value.integratedLufs <= 10.0 && 0 < r.value.gatedBlockCount <= r.value.blockCount
  {
    var evidence := EvidenceIn(entries);
    ReasonsDecide(entries, s);
    if Reasons(evidence) != {} {
      return Ok(NotAvailable(if UnsupportedChannelLayout in Reasons(evidence) then UnsupportedChannelLayout
                             else UnsupportedSampleRate, 0, 0));
    }
    FirstPassScans(entries, s);
    ScanTotals(entries, s, ABSOLUTE_GATE);
    ghost var blocks := DatasetBlocks(entries, s);
    var blockCount := TotalBlocks(ScansIn(evidence));
    if blockCount == 0 {
      return Ok(NotAvailable(InsufficientDuration, |evidence|, 0));
    }
    var absoluteCount := TotalGated(ScansIn(evidence));
    if absoluteCount == 0 {
      return Ok(NotAvailable(BelowAbsoluteGate, |evidence|, blockCount));
    }
    var absoluteEnergy := TotalEnergy(ScansIn(evidence));
    RelativeGateKeepsBlocks(s.lufs, blocks);
    GatedPositive(s.lufs, ABSOLUTE_GATE, blocks);
    if absoluteEnergy <= 0.0 {
      return Err(NoValidBlocks);
    }
    var relative := s.lufs(absoluteEnergy / absoluteCount as real) + RELATIVE_GATE;
    var gate := Larger(ABSOLUTE_GATE, relative);
    var second: seq<Scan>;
    var again := ScanAgain(entries, s, gate);
    match again {
      case Err(error) => return Err(error);
      case Ok(scans) => second := scans;
    }
    ScanTotals(entries, s, gate);
    LargerGateIsBothGates(s.lufs, relative, blocks);
    GatedPositive(s.lufs, gate, blocks);
    var count := TotalGated(second);
    var energy := TotalEnergy(second);
    if count <= 0 || energy <= 0.0 {
      return Err(NoValidBlocks);
    }
    var integrated := s.lufs(energy / count as real);
    if !(-70.0 <= integrated <= 10.0) {
      return Err(OutsideRange);
    }
    r := Ok(Measured(|evidence|, blockCount, count, integrated));
  }

  /** Energies that pass a gate add up to something positive. */
  lemma {:induction false} GatedPositive(lufs: Scale, gate: real, blocks: seq<real>)
    ensures Gated(lufs, gate, blocks) != [] ==> Sum(Gated(lufs, gate, blocks)) > 0.0
    ensures |Gated(lufs, gate, blocks)| <= |blocks|
  {
    if blocks != [] {
      var init := blocks[..|blocks| - 1];
      GatedPositive(lufs, gate, init);
      assert blocks == init + [blocks[|blocks| - 1]];
      GatedStep(lufs, gate, init, blocks[|blocks| - 1]);
    }
  }
}
