/** Collecting the audio members of an archive: every member is kept, skipped, rejected or a duplicate.

    Inspecting a WAV file is a function of its bytes; `DatasetReport` says which. Reading a member never
    fails midway. */
module DatasetCollection {
  import opened Common
  import opened Ordering
  import opened Paths
  import opened ContentDigest
  import opened ArchiveMembers
  import PcmAnalysis

  datatype Inspection = DecoderPending | ValidatedPcm(duration: real, report: PcmAnalysis.Inspection)

  datatype SkipReason = Hidden | MacosMetadata | NonAudio

  datatype RejectionReason = EmptyAudioFile | InvalidWav

  datatype ManifestFile = ManifestFile(sequence: nat, canonicalPath: string, sourcePath: string, extension: string,
                                       size: nat, sha256: Hash, inspection: Inspection)

  datatype SkippedSource = SkippedSource(sourcePath: string, reason: SkipReason)

  datatype RejectedSource = RejectedSource(sourcePath: string, reason: RejectionReason, detail: Option<string>)

  datatype DuplicateSource = DuplicateSource(sourcePath: string, sha256: Hash, duplicateOf: string)

  /** The outside functions collection depends on. */
  datatype Tools = Tools(unicode: Unicode, hash: seq<Byte> -> Hash, inspectWav: seq<Byte> -> Result<Inspection, string>)

  const SUPPORTED_AUDIO: set<string> := {".wav", ".flac", ".mp3", ".m4a", ".ogg", ".aac"}

  lemma SupportedAreExtensions(e: string)
    requires e in SUPPORTED_AUDIO
    ensures IsExtension(e)
  {}

  // ----- Which members are audio -----

  predicate AnyMacosMetadata(u: Unicode, parts: seq<string>) {
    parts != [] && (u.casefold(parts[0]) in {"__macosx", ".ds_store"} || "._" <= parts[0] || AnyMacosMetadata(u, parts[1..]))
  }

  predicate AnyHidden(parts: seq<string>) {
    parts != [] && ("." <= parts[0] || AnyHidden(parts[1..]))
  }

  /** `_skip_reason`. */
  function SkipReasonOf(u: Unicode, path: string): Option<SkipReason> {
    if AnyMacosMetadata(u, Parts(path)) then Some(MacosMetadata)
    else if AnyHidden(Parts(path)) then Some(Hidden)
    else None
  }

  /** `PurePosixPath.suffix`: from the last dot, unless it starts or ends the name. */
  function Suffix(name: string, end: nat): string
    requires end <= |name|
  {
    if end == 0 then ""
    else if name[end - 1] == '.' then (if end - 1 > 0 && end < |name| then name[end - 1..] else "")
    else Suffix(name, end - 1)
  }

  function ExtensionOf(u: Unicode, path: string): string {
    var parts := Parts(path);
    if parts == [] then u.lower("") else u.lower(Suffix(parts[|parts| - 1], |parts[|parts| - 1]|))
  }

  predicate IsAudio(u: Unicode, m: Member) {
    !IsDirectory(m.info) && SkipReasonOf(u, m.path).None? && ExtensionOf(u, m.path) in SUPPORTED_AUDIO
  }

  // ----- What collecting does, on values -----

  /** `contents` holds the bytes of the kept files, in their order. */
  datatype Collection = Collection(files: seq<ManifestFile>, contents: seq<seq<Byte>>, skipped: seq<SkippedSource>,
                                   rejected: seq<RejectedSource>, duplicates: seq<DuplicateSource>, copied: nat, entries: nat)

  const NOTHING := Collection([], [], [], [], [], 0, 0)

  /** The kept file with this content. */
  function KeptWith(files: seq<ManifestFile>, h: Hash): Option<ManifestFile> {
    if files == [] then None
    else if files[|files| - 1].sha256 == h then Some(files[|files| - 1])
    else KeptWith(files[..|files| - 1], h)
  }

  function Inspect(t: Tools, extension: string, data: seq<Byte>): Result<Inspection, string> {
    if extension == ".wav" then t.inspectWav(data) else Ok(DecoderPending)
  }

  function Skip(c: Collection, path: string, reason: SkipReason): Collection {
    c.(skipped := c.skipped + [SkippedSource(path, reason)])
  }

  function Reject(c: Collection, path: string, reason: RejectionReason, detail: Option<string>): Collection {
    c.(rejected := c.rejected + [RejectedSource(path, reason, detail)])
  }

  function KeepOrRepeat(t: Tools, c: Collection, data: seq<Byte>, path: string, extension: string, inspection: Inspection): Collection {
    var h := t.hash(data);
    var kept := KeptWith(c.files, h);
    if kept.Some? then c.(duplicates := c.duplicates + [DuplicateSource(path, h, kept.value.canonicalPath)])
    else
      var n := |c.files| + 1;
      c.(files := c.files + [ManifestFile(n, CanonicalPath(n, extension), path, extension, |data|, h, inspection)],
         contents := c.contents + [data])
  }

  /** What becomes of a copied audio file. */
  function Filed(t: Tools, c: Collection, data: seq<Byte>, path: string, extension: string): Collection {
    if data == [] then Reject(c, path, EmptyAudioFile, None)
    else match Inspect(t, extension, data)
      case Err(detail) => Reject(c, path, InvalidWav, Some(detail))
      case Ok(inspection) => KeepOrRepeat(t, c, data, path, extension, inspection)
  }

  function Copied(c: Collection, bytes: nat): Collection { c.(copied := c.copied + bytes) }

  function WithAudio(t: Tools, c: Collection, data: seq<Byte>, path: string, extension: string): Collection {
    Filed(t, Copied(c, |data|), data, path, extension)
  }

  function WithFile(t: Tools, c: Collection, m: Member): Collection {
    var skip := SkipReasonOf(t.unicode, m.path);
    if skip.Some? then Skip(c, m.path, skip.value)
    else if ExtensionOf(t.unicode, m.path) !in SUPPORTED_AUDIO then Skip(c, m.path, NonAudio)
    else WithAudio(t, c, m.info.data, m.path, ExtensionOf(t.unicode, m.path))
  }

  function Counted(c: Collection): Collection { c.(entries := c.entries + 1) }

  function WithMember(t: Tools, c: Collection, m: Member): Collection {
    if IsDirectory(m.info) then c else WithFile(t, Counted(c), m)
  }

  function Collected(t: Tools, ms: seq<Member>): Collection {
    if ms == [] then NOTHING else WithMember(t, Collected(t, ms[..|ms| - 1]), ms[|ms| - 1])
  }

  // ----- What is conserved -----

  lemma {:induction false} KeptWithFinds(files: seq<ManifestFile>, h: Hash)
    ensures KeptWith(files, h).Some? ==> KeptWith(files, h).value in files && KeptWith(files, h).value.sha256 == h
    ensures KeptWith(files, h).None? ==> forall i :: 0 <= i < |files| ==> files[i].sha256 != h
  {
    if files != [] {
      KeptWithFinds(files[..|files| - 1], h);
    }
  }

  /** Every entry that is not a directory is counted in exactly one of the four lists. */
  lemma {:induction false} EntriesAreConserved(t: Tools, ms: seq<Member>)
    ensures var c := Collected(t, ms);
            && c.entries == |c.files| + |c.skipped| + |c.rejected| + |c.duplicates|
            && c.entries == Total(Map((m: Member) => if IsDirectory(m.info) then 0 else 1, ms))
            && |c.files| + |c.rejected| + |c.duplicates| == Total(Map((m: Member) => if IsAudio(t.unicode, m) then 1 else 0, ms))
  {
    if ms != [] {
      var init, m := ms[..|ms| - 1], ms[|ms| - 1];
      EntriesAreConserved(t, init);
      var entry := (m: Member) => if IsDirectory(m.info) then 0 else 1;
      var audio := (m: Member) => if IsAudio(t.unicode, m) then 1 else 0;
      assert Map(entry, ms)[..|init|] == Map(entry, init);
      assert Map(audio, ms)[..|init|] == Map(audio, init);
    }
  }

  function AudioSizes(u: Unicode, ms: seq<Member>): seq<int> {
    Map((m: Member) => if IsAudio(u, m) then |m.info.data| else 0, ms)
  }

  /** The copied bytes are those of the kept, rejected and duplicate files, and of nothing else. */
  lemma {:induction false} CopiedBytesAreConserved(t: Tools, ms: seq<Member>)
    ensures Collected(t, ms).copied == Total(AudioSizes(t.unicode, ms))
  {
    if ms != [] {
      var init := ms[..|ms| - 1];
      CopiedBytesAreConserved(t, init);
      assert AudioSizes(t.unicode, ms)[..|init|] == AudioSizes(t.unicode, init);
    }
  }

  /** Audio that can be kept. */
  predicate Usable(t: Tools, m: Member) {
    && IsAudio(t.unicode, m) && m.info.data != []
    && Inspect(t, ExtensionOf(t.unicode, m.path), m.info.data).Ok?
  }

  /** The file a usable member becomes when its content is new. */
  function NewFile(t: Tools, m: Member, n: nat): ManifestFile
    requires Usable(t, m)
  {
    var extension := ExtensionOf(t.unicode, m.path);
    ManifestFile(n, CanonicalPath(n, extension), m.path, extension, |m.info.data|, t.hash(m.info.data),
                 Inspect(t, extension, m.info.data).value)
  }

  /** How one member changes the kept files. */
  function FilesWith(t: Tools, files: seq<ManifestFile>, m: Member): seq<ManifestFile> {
    if Usable(t, m) && KeptWith(files, t.hash(m.info.data)).None? then files + [NewFile(t, m, |files| + 1)] else files
  }

  lemma LastStep(t: Tools, ms: seq<Member>)
    requires ms != []
    ensures Collected(t, ms).files == FilesWith(t, Collected(t, ms[..|ms| - 1]).files, ms[|ms| - 1])
  {}

  /** Kept files are numbered in order and named by their number. */
  ghost predicate Numbered(files: seq<ManifestFile>) {
    forall i :: 0 <= i < |files| ==>
      && files[i].sequence == i + 1 && files[i].extension in SUPPORTED_AUDIO
      && files[i].canonicalPath == CanonicalPath(i + 1, files[i].extension)
  }

  ghost predicate DistinctContents(files: seq<ManifestFile>) {
    forall i, j :: 0 <= i < j < |files| ==> files[i].sha256 != files[j].sha256
  }

  ghost predicate DuplicatesNamed(c: Collection) {
    forall d :: d in c.duplicates ==> exists f :: f in c.files && f.sha256 == d.sha256 && f.canonicalPath == d.duplicateOf
  }

  lemma {:induction false} KeptFilesAreDistinct(t: Tools, ms: seq<Member>)
    ensures Numbered(Collected(t, ms).files) && DistinctContents(Collected(t, ms).files)
  {
    if ms != [] {
      var m := ms[|ms| - 1];
      KeptFilesAreDistinct(t, ms[..|ms| - 1]);
      LastStep(t, ms);
      KeptWithFinds(Collected(t, ms[..|ms| - 1]).files, t.hash(m.info.data));
    }
  }

  /** Every duplicate names a kept file with the same content. */
  lemma {:induction false} DuplicatesNameKeptFiles(t: Tools, ms: seq<Member>)
    ensures DuplicatesNamed(Collected(t, ms))
  {
    if ms != [] {
      var before, after, m := Collected(t, ms[..|ms| - 1]), Collected(t, ms), ms[|ms| - 1];
      DuplicatesNameKeptFiles(t, ms[..|ms| - 1]);
      KeptWithFinds(before.files, t.hash(m.info.data));
      forall d | d in after.duplicates
        ensures exists f :: f in after.files && f.sha256 == d.sha256 && f.canonicalPath == d.duplicateOf
      {
        if d in before.duplicates {
          var f :| f in before.files && f.sha256 == d.sha256 && f.canonicalPath == d.duplicateOf;
          assert f in after.files;
        } else {
          assert KeptWith(before.files, d.sha256).value in after.files;
        }
      }
    }
  }

  /** The file is this member, under its canonical name. */
  predicate KeptFrom(t: Tools, f: ManifestFile, m: Member) {
    && Usable(t, m)
    && f.sourcePath == m.path && f.extension == ExtensionOf(t.unicode, m.path)
    && f.size == |m.info.data| && f.sha256 == t.hash(m.info.data)
    && Inspect(t, f.extension, m.info.data) == Ok(f.inspection)
  }

  /** The first usable member with some content. */
  ghost predicate FirstWith(t: Tools, ms: seq<Member>, i: nat) {
    && i < |ms| && Usable(t, ms[i])
    && forall j :: 0 <= j < i && Usable(t, ms[j]) ==> t.hash(ms[j].info.data) != t.hash(ms[i].info.data)
  }

  ghost predicate KeptAreFirsts(t: Tools, ms: seq<Member>, files: seq<ManifestFile>) {
    forall f :: f in files ==> exists i: nat :: FirstWith(t, ms, i) && KeptFrom(t, f, ms[i])
  }

  ghost predicate UsableAreKept(t: Tools, ms: seq<Member>, files: seq<ManifestFile>) {
    forall i :: 0 <= i < |ms| && Usable(t, ms[i]) ==> exists f :: f in files && f.sha256 == t.hash(ms[i].info.data)
  }

  lemma EarlierStaysFirst(t: Tools, ms: seq<Member>, i: nat)
    requires ms != [] && FirstWith(t, ms[..|ms| - 1], i)
    ensures FirstWith(t, ms, i)
  {
    assert forall j :: 0 <= j <= i ==> ms[..|ms| - 1][j] == ms[j];
  }

  lemma NewIsFirst(t: Tools, ms: seq<Member>, before: seq<ManifestFile>)
    requires ms != [] && Usable(t, ms[|ms| - 1]) && UsableAreKept(t, ms[..|ms| - 1], before)
    requires KeptWith(before, t.hash(ms[|ms| - 1].info.data)).None?
    ensures FirstWith(t, ms, |ms| - 1)
  {
    var init, h := ms[..|ms| - 1], t.hash(ms[|ms| - 1].info.data);
    KeptWithFinds(before, h);
    forall j | 0 <= j < |init| && Usable(t, ms[j])
      ensures t.hash(ms[j].info.data) != h
    {
      assert init[j] == ms[j];
      var f :| f in before && f.sha256 == t.hash(init[j].info.data);
    }
  }

  lemma KeptAreFirstsNext(t: Tools, ms: seq<Member>, before: seq<ManifestFile>)
    requires ms != [] && KeptAreFirsts(t, ms[..|ms| - 1], before) && UsableAreKept(t, ms[..|ms| - 1], before)
    ensures KeptAreFirsts(t, ms, FilesWith(t, before, ms[|ms| - 1]))
  {
    var init, m := ms[..|ms| - 1], ms[|ms| - 1];
    forall f | f in FilesWith(t, before, m)
      ensures exists i: nat :: FirstWith(t, ms, i) && KeptFrom(t, f, ms[i])
    {
      if f in before {
        var i: nat :| FirstWith(t, init, i) && KeptFrom(t, f, init[i]);
        EarlierStaysFirst(t, ms, i);
        assert init[i] == ms[i];
      } else {
        NewIsFirst(t, ms, before);
        assert KeptFrom(t, f, ms[|init|]);
      }
    }
  }

  lemma UsableAreKeptNext(t: Tools, ms: seq<Member>, before: seq<ManifestFile>)
    requires ms != [] && UsableAreKept(t, ms[..|ms| - 1], before)
    ensures UsableAreKept(t, ms, FilesWith(t, before, ms[|ms| - 1]))
  {
    var init, m := ms[..|ms| - 1], ms[|ms| - 1];
    var after := FilesWith(t, before, m);
    KeptWithFinds(before, t.hash(m.info.data));
    forall i | 0 <= i < |ms| && Usable(t, ms[i])
      ensures exists f :: f in after && f.sha256 == t.hash(ms[i].info.data)
    {
      if i < |init| {
        assert init[i] == ms[i];
        var f :| f in before && f.sha256 == t.hash(init[i].info.data);
        assert f in after;
      } else if KeptWith(before, t.hash(m.info.data)).Some? {
        assert KeptWith(before, t.hash(m.info.data)).value in after;
      } else {
        assert after[|before|] in after;
      }
    }
  }

  /** Exactly the usable contents are kept, each from its first member in canonical order: nothing usable is lost. */
  lemma {:induction false} FirstOfEachContentIsKept(t: Tools, ms: seq<Member>)
    ensures KeptAreFirsts(t, ms, Collected(t, ms).files) && UsableAreKept(t, ms, Collected(t, ms).files)
  {
    if ms != [] {
      FirstOfEachContentIsKept(t, ms[..|ms| - 1]);
      LastStep(t, ms);
      KeptAreFirstsNext(t, ms, Collected(t, ms[..|ms| - 1]).files);
      UsableAreKeptNext(t, ms, Collected(t, ms[..|ms| - 1]).files);
    }
  }

  /** The kept files are the recorded contents, with their sizes, hashes and inspections. */
  ghost predicate Backed(t: Tools, files: seq<ManifestFile>, contents: seq<seq<Byte>>) {
    && |contents| == |files|
    && forall i :: 0 <= i < |files| ==>
         && files[i].size == |contents[i]| && files[i].sha256 == t.hash(contents[i])
         && Inspect(t, files[i].extension, contents[i]) == Ok(files[i].inspection)
  }

  lemma {:induction false} KeptFilesAreBacked(t: Tools, ms: seq<Member>)
    ensures Backed(t, Collected(t, ms).files, Collected(t, ms).contents)
  {
    if ms != [] {
      KeptFilesAreBacked(t, ms[..|ms| - 1]);
    }
  }
}
