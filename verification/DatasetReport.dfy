/** The quality report of an ingested archive: the collected WAV files, their analysis, and the figures over all
    of them.

    The WAV container is parsed by a function of the file's bytes; everything after that is `PcmAnalysis` and
    `DatasetQuality`. */
module DatasetReport {
  import opened Common
  import opened Ordering
  import opened ContentDigest
  import opened ArchiveMembers
  import opened DatasetCollection
  import opened ZipIngestion
  import opened LoudnessScanner
  import Pcm = PcmAnalysis
  import Quality = DatasetQuality

  /** How a container is read, how its errors are worded, and the constants of the analysis. */
  datatype Analysis = Analysis(parse: seq<Byte> -> Result<Pcm.Wav, string>, wording: Pcm.InvalidWav -> string,
                               settings: Pcm.Settings)

  datatype Report = Report(sourceEntries: nat, included: nat, decoderPending: nat,
                           pcm: Option<(Quality.Quality, Quality.Loudness)>,
                           skipped: seq<SkippedSource>, rejected: seq<RejectedSource>, duplicates: seq<DuplicateSource>)

  // ----- One file -----

  function Described(report: Pcm.Inspection): Inspection
    requires report.sampleRate > 0
  {
    ValidatedPcm(report.frames as real / report.sampleRate as real, report)
  }

  /** What `_inspect_pcm_wav` says about these bytes. */
  ghost function InspectedBytes(a: Analysis, data: seq<Byte>): Result<Inspection, string> {
    match a.parse(data)
    case Err(detail) => Err(detail)
    case Ok(wav) =>
      match Pcm.Inspected(wav, a.settings)
      case Err(error) => Err(a.wording(error))
      case Ok(report) => Ok(Described(report))
  }

  /** Collection inspects its WAV files by this analysis. */
  ghost predicate Analyses(t: Tools, a: Analysis) {
    forall data :: t.inspectWav(data) == InspectedBytes(a, data)
  }

  /** The first pass computes this inspection, for every chunk size. */
  method InspectWav(a: Analysis, data: seq<Byte>, chunkFrames: nat) returns (r: Result<Inspection, string>)
    requires chunkFrames > 0
    ensures r == InspectedBytes(a, data)
  {
    var parsed := a.parse(data);
    match parsed {
      case Err(detail) => return Err(detail);
      case Ok(wav) =>
        var report := Pcm.InspectPcmWav(wav, a.settings, chunkFrames);
        match report {
          case Err(error) => r := Err(a.wording(error));
          case Ok(value) => r := Ok(Described(value));
        }
    }
  }

  // ----- All kept files -----

  /** A kept file as the analysis sees it; a kept WAV file can be parsed. */
  function EntryOf(a: Analysis, f: ManifestFile, data: seq<Byte>): Quality.Entry {
    if f.inspection.ValidatedPcm? && a.parse(data).Ok? then Quality.Validated(a.parse(data).value, f.inspection.report)
    else Quality.DecoderPending
  }

  function EntriesOf(a: Analysis, files: seq<ManifestFile>, contents: seq<seq<Byte>>): (r: seq<Quality.Entry>)
    requires |contents| == |files|
    ensures |r| == |files|
  {
    seq(|files|, i requires 0 <= i < |files| => EntryOf(a, files[i], contents[i]))
  }

  /** Each file's first-pass report was made from the bytes it still has. */
  ghost predicate Unchanged(a: Analysis, files: seq<ManifestFile>, contents: seq<seq<Byte>>) {
    && |contents| == |files|
    && forall i :: 0 <= i < |files| ==>
         match files[i].inspection
         case DecoderPending => true
         case ValidatedPcm(_, _) => InspectedBytes(a, contents[i]) == Ok(files[i].inspection)
  }

  lemma BackedIsUnchanged(t: Tools, a: Analysis, files: seq<ManifestFile>, contents: seq<seq<Byte>>)
    requires Analyses(t, a) && Backed(t, files, contents)
    ensures Unchanged(a, files, contents)
  {
    forall i | 0 <= i < |files| && files[i].inspection.ValidatedPcm?
      ensures InspectedBytes(a, contents[i]) == Ok(files[i].inspection)
    {
      assert Inspect(t, files[i].extension, contents[i]) == Ok(files[i].inspection);
      assert t.inspectWav(contents[i]) == InspectedBytes(a, contents[i]);
    }
  }

  lemma UnchangedIsAnalyzed(a: Analysis, files: seq<ManifestFile>, contents: seq<seq<Byte>>)
    requires Unchanged(a, files, contents)
    ensures Quality.AllAnalyzed(EntriesOf(a, files, contents), a.settings)
    ensures forall i :: 0 <= i < |files| ==>
              (EntriesOf(a, files, contents)[i].Validated? <==> files[i].inspection.ValidatedPcm?)
  {}

  /** Exactly the kept files named .wav have been analyzed. */
  lemma WavIsAnalyzed(t: Tools, a: Analysis, ms: seq<Member>)
    requires Analyses(t, a)
    ensures forall f :: f in Collected(t, ms).files ==> (f.inspection.ValidatedPcm? <==> f.extension == ".wav")
  {
    var c := Collected(t, ms);
    KeptFilesAreBacked(t, ms);
    forall i | 0 <= i < |c.files|
      ensures c.files[i].inspection.ValidatedPcm? <==> c.files[i].extension == ".wav"
    {
      assert Inspect(t, c.files[i].extension, c.contents[i]) == Ok(c.files[i].inspection);
      assert t.inspectWav(c.contents[i]) == InspectedBytes(a, c.contents[i]);
    }
  }

  // ----- The report -----

  function Pending(files: seq<ManifestFile>): nat {
    if files == [] then 0 else Pending(files[..|files| - 1]) + if files[|files| - 1].inspection.DecoderPending? then 1 else 0
  }

  /** The figures over samples laid end to end; none without samples. */
  ghost function Figures(marks: seq<Quality.Mark>): Option<Quality.Quality> {
    var n := |marks| as real;
    if marks == [] then None
    else Some(Quality.Quality(|marks|, Quality.Clipped(marks) as real / n, Quality.Silent(marks) as real / n,
                              Quality.Squares(marks) / n))
  }

  function ReportWith(c: Collection, pcm: Option<(Quality.Quality, Quality.Loudness)>): Report {
    Report(c.entries, |c.files|, Pending(c.files), pcm, c.skipped, c.rejected, c.duplicates)
  }

  /** The report by definition: the figures of all samples of the kept PCM files, and the gated loudness of all
      their blocks at once. */
  ghost function ReferenceReport(a: Analysis, c: Collection): Result<Report, Pcm.InvalidWav>
    requires Unchanged(a, c.files, c.contents) && StrictlyIncreasing(a.settings.lufs)
  {
    UnchangedIsAnalyzed(a, c.files, c.contents);
    var entries := EntriesOf(a, c.files, c.contents);
    match Figures(Quality.DatasetMarks(entries, a.settings))
    case None => Ok(ReportWith(c, None))
    case Some(figures) =>
      match Quality.ReferenceLoudness(entries, a.settings)
      case Err(error) => Err(error)
      case Ok(loudness) => Ok(ReportWith(c, Some((figures, loudness))))
  }

  /** `_build_quality_report`, reading the kept files in the flat directory again. */
  method BuildQualityReport(a: Analysis, state: State) returns (r: Result<Report, Pcm.InvalidWav>)
    requires StrictlyIncreasing(a.settings.lufs)
    requires Unchanged(a, state.Value().files, state.Value().contents)
    ensures r == ReferenceReport(a, state.Value())
  {
    var contents := ContentsIn(state.files, state.flat);
    UnchangedIsAnalyzed(a, state.files, contents);
    var entries := EntriesOf(a, state.files, contents);
    Quality.DatasetRatios(entries, a.settings);
    var figures := Quality.BuildQuality(Quality.EvidenceIn(entries));
    var c := Collection(state.files, contents, state.skipped, state.rejected, state.duplicates, state.copiedBytes, state.sourceEntries);
    if figures.None? {
      return Ok(ReportWith(c, None));
    }
    var loudness := Quality.BuildPcmLoudness(entries, a.settings);
    match loudness {
      case Err(error) => r := Err(error);
      case Ok(value) => r := Ok(ReportWith(c, Some((figures.value, value))));
    }
  }

  // ----- The report of an archive -----

  /** The report on what is collected from these entries. */
  ghost function ZipReport(t: Tools, a: Analysis, es: seq<Entry>): Result<Report, Pcm.InvalidWav>
    requires Analyses(t, a) && StrictlyIncreasing(a.settings.lufs)
  {
    var c := Collected(t, Canonical(t.unicode, es));
    KeptFilesAreBacked(t, Canonical(t.unicode, es));
    BackedIsUnchanged(t, a, c.files, c.contents);
    ReferenceReport(a, c)
  }

  datatype Failure = NotCollected(error: IngestError) | NotAnalyzed(reason: Pcm.InvalidWav)

  /** `ingest_dataset` for an archive, up to its quality report. Nothing between the two passes changes a kept
      file, so the second pass sees what the first has seen. */
  method ReportOnZip(t: Tools, a: Analysis, es: seq<Entry>, limits: Limits) returns (r: Result<Report, Failure>)
    requires Analyses(t, a) && StrictlyIncreasing(a.settings.lufs) && limits.chunkBytes > 0
    ensures r.Err? && r.error.NotCollected? <==>
              !(Acceptable(t.unicode, es, limits) && Faithful(t.unicode, Canonical(t.unicode, es)))
    ensures r.Ok? ==> ZipReport(t, a, es) == Ok(r.value)
    ensures r.Err? && r.error.NotAnalyzed? ==> ZipReport(t, a, es) == Err(r.error.reason)
  {
    var state := new State(t);
    var error := state.CollectZip(es, limits);
    if error.Some? {
      return Err(NotCollected(error.value));
    }
    ghost var ms := Canonical(t.unicode, es);
    KeptFilesAreBacked(t, ms);
    BackedIsUnchanged(t, a, Collected(t, ms).files, Collected(t, ms).contents);
    var report := BuildQualityReport(a, state);
    match report {
      case Err(reason) => r := Err(NotAnalyzed(reason));
      case Ok(value) => r := Ok(value);
    }
  }

  /** Neither the sample figures nor the loudness, nor anything else in the report, depends on the order of the
      archive's entries. */
  lemma ReportIgnoresEntryOrder(t: Tools, a: Analysis, es: seq<Entry>, fs: seq<Entry>, limits: Limits)
    requires Analyses(t, a) && StrictlyIncreasing(a.settings.lufs)
    requires multiset(es) == multiset(fs) && Acceptable(t.unicode, es, limits)
    ensures ZipReport(t, a, es) == ZipReport(t, a, fs)
  {
    EntryOrderIsForgotten(t.unicode, es, fs, limits);
  }

  // ----- What the report and the manifest have in common -----

  /** The playing time of the PCM files. */
  ghost function PlayingTime(entries: seq<Quality.Entry>): real {
    if entries == [] then 0.0
    else
      var last := entries[|entries| - 1];
      PlayingTime(entries[..|entries| - 1])
      + if last.Validated? && last.wav.sampleRate != 0 then last.wav.declaredFrames as real / last.wav.sampleRate as real else 0.0
  }

  /** The duration in the manifest is the playing time of the files the report is about, by their headers. */
  lemma {:induction false} DurationIsPlayingTime(a: Analysis, files: seq<ManifestFile>, contents: seq<seq<Byte>>)
    requires Unchanged(a, files, contents)
    ensures Duration(files) == PlayingTime(EntriesOf(a, files, contents))
  {
    if files != [] {
      var n := |files| - 1;
      DurationIsPlayingTime(a, files[..n], contents[..n]);
      assert EntriesOf(a, files, contents)[..n] == EntriesOf(a, files[..n], contents[..n]);
    }
  }

  /** The report has PCM figures exactly when some kept file is a PCM file. */
  lemma {:induction false} FiguresNeedPcm(a: Analysis, files: seq<ManifestFile>, contents: seq<seq<Byte>>)
    requires Unchanged(a, files, contents)
    ensures Quality.AllAnalyzed(EntriesOf(a, files, contents), a.settings)
    ensures Figures(Quality.DatasetMarks(EntriesOf(a, files, contents), a.settings)).None? <==> Pending(files) == |files|
    ensures Pending(files) <= |files|
  {
    UnchangedIsAnalyzed(a, files, contents);
    if files != [] {
      var n := |files| - 1;
      FiguresNeedPcm(a, files[..n], contents[..n]);
      var entries := EntriesOf(a, files, contents);
      assert entries[..n] == EntriesOf(a, files[..n], contents[..n]);
      if entries[n].Validated? {
        Quality.FileRatios(entries[n].wav, a.settings);
      }
    }
  }
}
