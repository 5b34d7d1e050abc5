/** Collecting an uploaded archive into a staging directory, step by step, and building its manifest. */
module ZipIngestion {
  import opened Common
  import opened Ordering
  import opened ContentDigest
  import opened ArchiveMembers
  import opened DatasetCollection

  datatype Manifest = Manifest(contentHash: Hash, fileCount: nat, totalBytes: int, validatedDuration: real,
                               files: seq<ManifestFile>)

  // ----- The index of kept contents and the flat directory, on values -----

  /** `digest_to_path` maps each kept content to its file's path. */
  ghost predicate Indexed(files: seq<ManifestFile>, index: map<Hash, string>) {
    forall h :: (h in index <==> KeptWith(files, h).Some?) && (h in index ==> index[h] == KeptWith(files, h).value.canonicalPath)
  }

  /** The flat directory holds exactly the kept files, with the recorded sizes and hashes. */
  ghost predicate Stored(hash: seq<Byte> -> Hash, files: seq<ManifestFile>, flat: map<string, seq<Byte>>) {
    && (forall i :: 0 <= i < |files| ==>
          && files[i].canonicalPath in flat && |flat[files[i].canonicalPath]| == files[i].size
          && hash(flat[files[i].canonicalPath]) == files[i].sha256)
    && (forall p :: p in flat ==> exists i :: 0 <= i < |files| && files[i].canonicalPath == p)
  }

  /** The bytes in the directory, file by file. */
  function ContentsIn(files: seq<ManifestFile>, flat: map<string, seq<Byte>>): seq<seq<Byte>> {
    Map((f: ManifestFile) => if f.canonicalPath in flat then flat[f.canonicalPath] else [], files)
  }

  lemma ContentsNext(hash: seq<Byte> -> Hash, files: seq<ManifestFile>, flat: map<string, seq<Byte>>, f: ManifestFile, data: seq<Byte>)
    requires Stored(hash, files, flat) && f.canonicalPath !in flat
    ensures ContentsIn(files + [f], flat[f.canonicalPath := data]) == ContentsIn(files, flat) + [data]
  {
    var after, more := flat[f.canonicalPath := data], files + [f];
    forall i | 0 <= i < |files|
      ensures ContentsIn(more, after)[i] == ContentsIn(files, flat)[i]
    {
      assert more[i] == files[i] && files[i].canonicalPath in flat;
    }
  }

  lemma IndexedNext(files: seq<ManifestFile>, index: map<Hash, string>, f: ManifestFile)
    requires Indexed(files, index) && f.sha256 !in index
    ensures Indexed(files + [f], index[f.sha256 := f.canonicalPath])
  {
    assert (files + [f])[..|files|] == files;
  }

  /** The next canonical name is free, so moving a file there replaces nothing. */
  lemma NextNameIsFree(hash: seq<Byte> -> Hash, files: seq<ManifestFile>, flat: map<string, seq<Byte>>, extension: string)
    requires Numbered(files) && Stored(hash, files, flat) && extension in SUPPORTED_AUDIO
    ensures CanonicalPath(|files| + 1, extension) !in flat
  {
    forall i | 0 <= i < |files|
      ensures files[i].canonicalPath != CanonicalPath(|files| + 1, extension)
    {
      NamesDiffer(files[i], i + 1, |files| + 1, extension);
    }
  }

  lemma NamesDiffer(f: ManifestFile, m: nat, n: nat, extension: string)
    requires f.extension in SUPPORTED_AUDIO && f.canonicalPath == CanonicalPath(m, f.extension)
    requires extension in SUPPORTED_AUDIO && m != n
    ensures f.canonicalPath != CanonicalPath(n, extension)
  {
    SupportedAreExtensions(extension);
    SupportedAreExtensions(f.extension);
    CanonicalPathsDiffer(m, n, f.extension, extension);
  }

  lemma StoredNext(hash: seq<Byte> -> Hash, files: seq<ManifestFile>, flat: map<string, seq<Byte>>, f: ManifestFile, data: seq<Byte>)
    requires Stored(hash, files, flat) && f.canonicalPath !in flat && f.size == |data| && f.sha256 == hash(data)
    ensures Stored(hash, files + [f], flat[f.canonicalPath := data])
  {
    var after, more := flat[f.canonicalPath := data], files + [f];
    forall p | p in after
      ensures exists i :: 0 <= i < |more| && more[i].canonicalPath == p
    {
      if p in flat {
        var i :| 0 <= i < |files| && files[i].canonicalPath == p;
        assert more[i].canonicalPath == p;
      } else {
        assert more[|files|].canonicalPath == p;
      }
    }
  }

  /** One more kept file. */
  lemma KeepConsistent(hash: seq<Byte> -> Hash, files: seq<ManifestFile>, index: map<Hash, string>,
                       flat: map<string, seq<Byte>>, f: ManifestFile, data: seq<Byte>)
    requires Numbered(files) && Indexed(files, index) && Stored(hash, files, flat)
    requires f.size == |data| && f.sha256 == hash(data) && f.sha256 !in index
    requires f.extension in SUPPORTED_AUDIO && f.sequence == |files| + 1 && f.canonicalPath == CanonicalPath(f.sequence, f.extension)
    ensures f.canonicalPath !in flat && Numbered(files + [f])
    ensures Indexed(files + [f], index[f.sha256 := f.canonicalPath])
    ensures Stored(hash, files + [f], flat[f.canonicalPath := data])
    ensures ContentsIn(files + [f], flat[f.canonicalPath := data]) == ContentsIn(files, flat) + [data]
  {
    NextNameIsFree(hash, files, flat, f.extension);
    IndexedNext(files, index, f);
    StoredNext(hash, files, flat, f, data);
    ContentsNext(hash, files, flat, f, data);
  }

  // ----- The collection state -----

  /** Streaming these bytes stays within the limits; an empty stream is never checked. */
  predicate Fits(data: seq<Byte>, copied: nat, limits: Limits) {
    data == [] || (|data| <= limits.maxFileBytes && copied + |data| <= limits.maxTotalBytes)
  }

  class State {
    var files: seq<ManifestFile>
    var skipped: seq<SkippedSource>
    var rejected: seq<RejectedSource>
    var duplicates: seq<DuplicateSource>
    var digestToPath: map<Hash, string>
    var copiedBytes: nat
    var sourceEntries: nat
    var candidates: map<string, seq<Byte>>
    var flat: map<string, seq<Byte>>
    const tools: Tools

    constructor (tools: Tools)
      ensures Valid() && Value() == NOTHING && this.tools == tools
    {
      files, skipped, rejected, duplicates := [], [], [], [];
      digestToPath := map[];
      copiedBytes, sourceEntries := 0, 0;
      candidates, flat := map[], map[];
      this.tools := tools;
    }

    ghost function Value(): Collection
      reads this
    {
      Collection(files, ContentsIn(files, flat), skipped, rejected, duplicates, copiedBytes, sourceEntries)
    }

    /** Index and flat directory agree with the kept files. */
    ghost predicate Settled()
      reads `files, `digestToPath, `flat
    {
      Numbered(files) && Indexed(files, digestToPath) && Stored(tools.hash, files, flat)
    }

    /** Between members no candidate file is left over. */
    ghost predicate Valid()
      reads this
    {
      Settled() && candidates == map[]
    }

    /** `_copy_and_hash`: whatever sizes the reads return, all bytes or no file. */
    method CopyAndHash(data: seq<Byte>, candidate: string, limits: Limits) returns (r: Result<Hash, IngestError>)
      requires candidate !in candidates && limits.chunkBytes > 0
      modifies `candidates, `copiedBytes
      ensures r.Ok? <==> Fits(data, old(copiedBytes), limits)
      ensures r.Ok? ==> r.value == tools.hash(data) && candidates == old(candidates)[candidate := data]
      ensures r.Ok? ==> Value() == Copied(old(Value()), |data|)
      ensures r.Err? ==> candidates == old(candidates)
    {
      var done := 0;
      var hashed: seq<Byte> := [];
      candidates := candidates[candidate := []];
      while done < |data|
        invariant done <= |data| && hashed == data[..done]
        invariant candidates == old(candidates)[candidate := data[..done]]
        invariant copiedBytes == old(copiedBytes) + done
        invariant done > 0 ==> done <= limits.maxFileBytes && copiedBytes <= limits.maxTotalBytes
      {
        var n :| 1 <= n <= limits.chunkBytes && done + n <= |data|;
        var chunk := data[done..done + n];
        copiedBytes := copiedBytes + n;
        if done + n > limits.maxFileBytes || copiedBytes > limits.maxTotalBytes {
          candidates := candidates - {candidate};
          assert candidates == old(candidates);
          return Err(LimitExceeded);
        }
        assert data[..done + n] == data[..done] + chunk;
        hashed := hashed + chunk;
        candidates := candidates[candidate := candidates[candidate] + chunk];
        done := done + n;
      }
      assert data[..done] == data;
      r := Ok(tools.hash(hashed));
    }

    /** Moves the candidate to its canonical name and records it. */
    method Keep(candidate: string, data: seq<Byte>, f: ManifestFile)
      requires Settled() && candidates == map[candidate := data]
      requires f.size == |data| && f.sha256 == tools.hash(data) && f.sha256 !in digestToPath
      requires f.extension in SUPPORTED_AUDIO && f.sequence == |files| + 1
      requires f.canonicalPath == CanonicalPath(f.sequence, f.extension)
      modifies `candidates, `flat, `digestToPath, `files
      ensures Valid() && files == old(files) + [f]
      ensures ContentsIn(files, flat) == ContentsIn(old(files), old(flat)) + [data]
    {
      KeepConsistent(tools.hash, files, digestToPath, flat, f, data);
      flat := flat[f.canonicalPath := candidates[candidate]];
      candidates := candidates - {candidate};
      digestToPath := digestToPath[f.sha256 := f.canonicalPath];
      files := files + [f];
    }

    method RejectCandidate(candidate: string, path: string, reason: RejectionReason, detail: Option<string>)
      requires Settled() && candidates.Keys == {candidate}
      modifies `candidates, `rejected
      ensures Valid() && Value() == Reject(old(Value()), path, reason, detail)
    {
      candidates := candidates - {candidate};
      rejected := rejected + [RejectedSource(path, reason, detail)];
    }

    method KeepOrRecord(candidate: string, data: seq<Byte>, path: string, extension: string, h: Hash, inspection: Inspection)
      requires Settled() && candidates == map[candidate := data] && h == tools.hash(data) && extension in SUPPORTED_AUDIO
      modifies `candidates, `duplicates, `flat, `digestToPath, `files
      ensures Valid() && Value() == KeepOrRepeat(tools, old(Value()), data, path, extension, inspection)
    {
      if h in digestToPath {
        candidates := candidates - {candidate};
        duplicates := duplicates + [DuplicateSource(path, h, digestToPath[h])];
      } else {
        var n := |files| + 1;
        Keep(candidate, data, ManifestFile(n, CanonicalPath(n, extension), path, extension, |data|, h, inspection));
      }
    }

    /** What becomes of a copied audio file. */
    method FileCandidate(candidate: string, data: seq<Byte>, path: string, extension: string, h: Hash)
      requires Settled() && candidates == map[candidate := data] && h == tools.hash(data) && extension in SUPPORTED_AUDIO
      modifies `candidates, `rejected, `duplicates, `flat, `digestToPath, `files
      ensures Valid() && Value() == Filed(tools, old(Value()), data, path, extension)
    {
      if |data| == 0 {
        RejectCandidate(candidate, path, EmptyAudioFile, Option.None);
        return;
      }
      match Inspect(tools, extension, data) {
        case Err(detail) => RejectCandidate(candidate, path, InvalidWav, Some(detail));
        case Ok(inspection) => KeepOrRecord(candidate, data, path, extension, h, inspection);
      }
    }

    /** `_collect_audio_stream`: one audio file is kept, rejected or recorded as a duplicate. */
    method CollectAudioStream(data: seq<Byte>, path: string, extension: string, expectedSize: int, limits: Limits)
      returns (error: Option<IngestError>)
      requires Valid() && extension in SUPPORTED_AUDIO && limits.chunkBytes > 0
      modifies this
      ensures error.None? <==> |data| == expectedSize && Fits(data, old(copiedBytes), limits)
      ensures error.None? ==> Valid() && Value() == WithAudio(tools, old(Value()), data, path, extension)
      ensures candidates == map[]
    {
      var candidate := "candidate-" + Padded(sourceEntries, 8) + extension;
      var copy := CopyAndHash(data, candidate, limits);
      if copy.Err? {
        return Some(copy.error);
      }
      if |data| != expectedSize {
        candidates := candidates - {candidate};
        return Some(UnsafeArchive);
      }
      FileCandidate(candidate, data, path, extension, copy.value);
      error := None;
    }

    method SkipMember(path: string, reason: SkipReason)
      modifies `skipped
      ensures Value() == Skip(old(Value()), path, reason)
    {
      skipped := skipped + [SkippedSource(path, reason)];
    }

    /** One file of the archive. */
    method CollectFile(m: Member, limits: Limits) returns (error: Option<IngestError>)
      requires Valid() && limits.chunkBytes > 0 && !IsDirectory(m.info)
      modifies this
      ensures error.None? <==> (IsAudio(tools.unicode, m) ==>
                                  |m.info.data| == m.info.fileSize && Fits(m.info.data, old(copiedBytes), limits))
      ensures error.None? ==> Valid() && Value() == WithFile(tools, old(Value()), m)
      ensures candidates == map[]
    {
      error := None;
      var skip := SkipReasonOf(tools.unicode, m.path);
      if skip.Some? {
        SkipMember(m.path, skip.value);
        return;
      }
      var extension := ExtensionOf(tools.unicode, m.path);
      if extension !in SUPPORTED_AUDIO {
        SkipMember(m.path, NonAudio);
        return;
      }
      error := CollectAudioStream(m.info.data, m.path, extension, m.info.fileSize, limits);
    }

    method CountEntry()
      modifies `sourceEntries
      ensures Value() == Counted(old(Value()))
    {
      sourceEntries := sourceEntries + 1;
    }

    /** One member of the archive. */
    method CollectMember(m: Member, limits: Limits) returns (error: Option<IngestError>)
      requires Valid() && limits.chunkBytes > 0
      modifies this
      ensures error.None? <==> (IsAudio(tools.unicode, m) ==>
                                  |m.info.data| == m.info.fileSize && Fits(m.info.data, old(copiedBytes), limits))
      ensures error.None? ==> Valid() && Value() == WithMember(tools, old(Value()), m)
      ensures candidates == map[]
    {
      if IsDirectory(m.info) {
        return None;
      }
      CountEntry();
      error := CollectFile(m, limits);
    }

    /** `_collect_zip`: fails exactly for archives that are not acceptable or whose audio differs in size from
        its entry. The limits on streamed bytes are then never reached. */
    method CollectZip(es: seq<Entry>, limits: Limits) returns (error: Option<IngestError>)
      requires Valid() && Value() == NOTHING && limits.chunkBytes > 0
      modifies this
      ensures error.None? <==> Acceptable(tools.unicode, es, limits) && Faithful(tools.unicode, Canonical(tools.unicode, es))
      ensures error.None? ==> Valid() && Value() == Collected(tools, Canonical(tools.unicode, es))
      ensures error.None? ==> copiedBytes <= limits.maxTotalBytes
      ensures candidates == map[]
    {
      var validated := ValidateArchiveMembers(tools.unicode, es, limits);
      if validated.Err? {
        return Some(validated.error);
      }
      var members := validated.value;
      CanonicalIsAllowed(tools.unicode, es, limits);
      error := CollectMembers(members, limits);
    }

    method CollectMembers(members: seq<Member>, limits: Limits) returns (error: Option<IngestError>)
      requires Valid() && Value() == NOTHING && limits.chunkBytes > 0 && WithinLimits(members, limits)
      modifies this
      ensures error.None? <==> Faithful(tools.unicode, members)
      ensures error.None? ==> Valid() && Value() == Collected(tools, members) && copiedBytes <= limits.maxTotalBytes
      ensures candidates == map[]
    {
      assert members[..0] == [];
      for i := 0 to |members|
        invariant Valid() && Value() == Collected(tools, members[..i])
        invariant Faithful(tools.unicode, members[..i])
      {
        CollectedNext(tools, members, i, limits);
        error := CollectMember(members[i], limits);
        if error.Some? {
          return;
        }
      }
      assert members[..|members|] == members;
      StaysWithin(tools, members, |members|, limits);
      error := None;
    }
  }

  // ----- Limits -----

  /** What each audio member streams is what its entry declares. */
  ghost predicate Faithful(u: Unicode, ms: seq<Member>) {
    forall i :: 0 <= i < |ms| && IsAudio(u, ms[i]) ==> |ms[i].info.data| == ms[i].info.fileSize
  }

  function MemberSizes(ms: seq<Member>): seq<int> { Map((m: Member) => Size(m.info), ms) }

  ghost predicate WithinLimits(ms: seq<Member>, limits: Limits) {
    && (forall i :: 0 <= i < |ms| ==> 0 <= Size(ms[i].info) <= limits.maxFileBytes)
    && Total(MemberSizes(ms)) <= limits.maxTotalBytes
  }

  lemma {:induction false} TotalBelow(a: seq<int>, b: seq<int>)
    requires |a| == |b| && forall i :: 0 <= i < |a| ==> a[i] <= b[i]
    ensures Total(a) <= Total(b)
  {
    if a != [] {
      TotalBelow(a[..|a| - 1], b[..|b| - 1]);
    }
  }

  /** Bytes copied so far never exceed the declared total. */
  lemma StaysWithin(t: Tools, ms: seq<Member>, n: nat, limits: Limits)
    requires n <= |ms| && WithinLimits(ms, limits) && Faithful(t.unicode, ms[..n])
    ensures Collected(t, ms[..n]).copied <= limits.maxTotalBytes
  {
    var first := ms[..n];
    CopiedBytesAreConserved(t, first);
    forall i | 0 <= i < n
      ensures AudioSizes(t.unicode, first)[i] <= MemberSizes(first)[i]
    {
      assert first[i] == ms[i];
    }
    TotalBelow(AudioSizes(t.unicode, first), MemberSizes(first));
    TotalGrows(MemberSizes(ms), n);
    assert MemberSizes(ms)[..n] == MemberSizes(first);
  }

  lemma CollectedNext(t: Tools, ms: seq<Member>, i: nat, limits: Limits)
    requires i < |ms| && WithinLimits(ms, limits) && Faithful(t.unicode, ms[..i])
    ensures Collected(t, ms[..i + 1]) == WithMember(t, Collected(t, ms[..i]), ms[i])
    ensures Faithful(t.unicode, ms[..i + 1]) <==> (IsAudio(t.unicode, ms[i]) ==> |ms[i].info.data| == ms[i].info.fileSize)
    ensures Faithful(t.unicode, ms) ==> Faithful(t.unicode, ms[..i + 1])
    ensures IsAudio(t.unicode, ms[i]) && |ms[i].info.data| == ms[i].info.fileSize ==>
              Fits(ms[i].info.data, Collected(t, ms[..i]).copied, limits)
  {
    var more := ms[..i + 1];
    assert more[..|more| - 1] == ms[..i] && more[i] == ms[i];
    assert more == ms[..i] + [ms[i]];
    if IsAudio(t.unicode, ms[i]) && |ms[i].info.data| == ms[i].info.fileSize {
      StaysWithin(t, ms, i + 1, limits);
      CopiedBytesAreConserved(t, more);
      CopiedBytesAreConserved(t, ms[..i]);
      assert AudioSizes(t.unicode, more)[..i] == AudioSizes(t.unicode, ms[..i]);
    }
  }

  /** The members of an acceptable archive, in canonical order, are within the limits. */
  lemma CanonicalIsAllowed(u: Unicode, es: seq<Entry>, limits: Limits)
    requires Acceptable(u, es, limits)
    ensures WithinLimits(Canonical(u, es), limits)
  {
    var ms, sorted := Members(u, es), Canonical(u, es);
    forall i | 0 <= i < |sorted|
      ensures 0 <= Size(sorted[i].info) <= limits.maxFileBytes
    {
      assert sorted[i] in multiset(ms);
      var j :| 0 <= j < |ms| && ms[j] == sorted[i];
      assert EntryAllowed(u, es[j], limits);
    }
    var size := (m: Member) => Size(m.info);
    MapPermutes(size, ms, sorted);
    TotalPermutes(Map(size, ms), Map(size, sorted));
    assert MemberSizes(sorted) == Map(size, sorted);
    assert Sizes(es) == Map(size, ms);
  }

  // ----- The manifest -----

  function DigestedFiles(files: seq<ManifestFile>): seq<Digested> {
    Map((f: ManifestFile) => Digested(f.canonicalPath, f.sha256, f.size), files)
  }

  function FileSizes(files: seq<ManifestFile>): seq<int> { Map((f: ManifestFile) => f.size, files) }

  function Duration(files: seq<ManifestFile>): real {
    if files == [] then 0.0
    else
      var last := files[|files| - 1].inspection;
      Duration(files[..|files| - 1]) + if last.ValidatedPcm? then last.duration else 0.0
  }

  /** Sizes fit the eight bytes they are hashed in. */
  ghost predicate SizesFit(files: seq<ManifestFile>) {
    forall i :: 0 <= i < |files| ==> files[i].size < Power(8)
  }

  lemma DigestedAreEncodable(files: seq<ManifestFile>)
    requires Numbered(files) && SizesFit(files)
    ensures AllEncodable(DigestedFiles(files))
  {
    forall i | 0 <= i < |files|
      ensures Encodable(DigestedFiles(files)[i])
    {
      SupportedAreExtensions(files[i].extension);
      CanonicalPathsAreAscii(i + 1, files[i].extension);
    }
  }

  ghost predicate IsManifest(hash: seq<Byte> -> Hash, files: seq<ManifestFile>, m: Manifest) {
    && AllEncodable(DigestedFiles(files))
    && m == Manifest(hash(HEADER + Encoding(DigestedFiles(files))), |files|, Total(FileSizes(files)), Duration(files), files)
  }

  lemma OneMoreFile(files: seq<ManifestFile>, i: nat)
    requires i < |files|
    ensures Duration(files[..i + 1]) ==
              Duration(files[..i]) + if files[i].inspection.ValidatedPcm? then files[i].inspection.duration else 0.0
    ensures Total(FileSizes(files[..i + 1])) == Total(FileSizes(files[..i])) + files[i].size
  {
    var more := files[..i + 1];
    assert more[..i] == files[..i] && more[i] == files[i];
    assert FileSizes(more)[..i] == FileSizes(files[..i]);
  }

  /** `_build_manifest`. */
  method BuildManifest(hash: seq<Byte> -> Hash, files: seq<ManifestFile>) returns (m: Manifest)
    requires Numbered(files) && SizesFit(files)
    ensures IsManifest(hash, files, m)
  {
    DigestedAreEncodable(files);
    var digest := ContentHash(hash, DigestedFiles(files));
    var duration := 0.0;
    var total := 0;
    for i := 0 to |files|
      invariant duration == Duration(files[..i]) && total == Total(FileSizes(files[..i]))
    {
      OneMoreFile(files, i);
      if files[i].inspection.ValidatedPcm? {
        duration := duration + files[i].inspection.duration;
      }
      total := total + files[i].size;
    }
    assert files[..|files|] == files;
    m := Manifest(digest, |files|, total, duration, files);
  }

  /** The archive can be ingested. */
  ghost predicate Ingestible(t: Tools, es: seq<Entry>, limits: Limits) {
    && Acceptable(t.unicode, es, limits) && Faithful(t.unicode, Canonical(t.unicode, es))
    && Collected(t, Canonical(t.unicode, es)).files != []
  }

  lemma KeptSizesFit(t: Tools, es: seq<Entry>, limits: Limits)
    requires Acceptable(t.unicode, es, limits) && Faithful(t.unicode, Canonical(t.unicode, es))
    requires limits.maxFileBytes < Power(8)
    ensures SizesFit(Collected(t, Canonical(t.unicode, es)).files)
  {
    CanonicalIsAllowed(t.unicode, es, limits);
    KeptAreBounded(t, Canonical(t.unicode, es), limits);
  }

  lemma SourceOf(t: Tools, ms: seq<Member>, f: ManifestFile) returns (i: nat)
    requires f in Collected(t, ms).files
    ensures i < |ms| && KeptFrom(t, f, ms[i])
  {
    FirstOfEachContentIsKept(t, ms);
    i :| FirstWith(t, ms, i) && KeptFrom(t, f, ms[i]);
  }

  lemma KeptIsBounded(t: Tools, f: ManifestFile, m: Member, limits: Limits)
    requires KeptFrom(t, f, m) && |m.info.data| == m.info.fileSize && Size(m.info) <= limits.maxFileBytes
    ensures f.size <= limits.maxFileBytes
  {}

  lemma KeptAreBounded(t: Tools, ms: seq<Member>, limits: Limits)
    requires WithinLimits(ms, limits) && Faithful(t.unicode, ms)
    ensures forall f :: f in Collected(t, ms).files ==> f.size <= limits.maxFileBytes
  {
    forall f | f in Collected(t, ms).files
      ensures f.size <= limits.maxFileBytes
    {
      var i := SourceOf(t, ms, f);
      KeptIsBounded(t, f, ms[i], limits);
    }
  }

  /** `ingest_dataset` for an archive, up to publishing. */
  method IngestZip(t: Tools, archiveBytes: nat, es: seq<Entry>, limits: Limits) returns (r: Result<Manifest, IngestError>)
    requires limits.chunkBytes > 0 && limits.maxFileBytes < Power(8)
    ensures r.Ok? <==> archiveBytes <= limits.maxArchiveBytes && Ingestible(t, es, limits)
    ensures r.Ok? ==> IsManifest(t.hash, Collected(t, Canonical(t.unicode, es)).files, r.value)
  {
    if archiveBytes > limits.maxArchiveBytes {
      return Err(LimitExceeded);
    }
    var state := new State(t);
    var error := state.CollectZip(es, limits);
    if error.Some? {
      return Err(error.value);
    }
    if state.files == [] {
      return Err(NoUsableAudio);
    }
    KeptSizesFit(t, es, limits);
    var m := BuildManifest(t.hash, state.files);
    r := Ok(m);
  }

  /** Neither the outcome of ingesting an archive, nor any list or number in it, depends on the order of the
      archive's entries. */
  lemma IngestIgnoresEntryOrder(t: Tools, es: seq<Entry>, fs: seq<Entry>, limits: Limits)
    requires multiset(es) == multiset(fs)
    ensures Ingestible(t, es, limits) <==> Ingestible(t, fs, limits)
    ensures Ingestible(t, es, limits) ==>
              Collected(t, Canonical(t.unicode, es)) == Collected(t, Canonical(t.unicode, fs))
  {
    EntryOrderIsForgotten(t.unicode, es, fs, limits);
  }

  /** Manifests with the same content hash list the same files, in the same order, unless the hash
      collides on the two byte strings it was taken over. */
  lemma ManifestIsIdentified(hash: seq<Byte> -> Hash, a: seq<ManifestFile>, m: Manifest, b: seq<ManifestFile>, n: Manifest)
    requires IsManifest(hash, a, m) && IsManifest(hash, b, n) && m.contentHash == n.contentHash
    requires Apart(hash, DigestedFiles(a), DigestedFiles(b))
    ensures m.fileCount == n.fileCount && m.totalBytes == n.totalBytes
    ensures forall i :: 0 <= i < |a| ==>
              a[i].canonicalPath == b[i].canonicalPath && a[i].sha256 == b[i].sha256 && a[i].size == b[i].size
  {
    ContentHashIdentifies(hash, DigestedFiles(a), DigestedFiles(b));
    assert |a| == |DigestedFiles(a)| == |b|;
    forall i | 0 <= i < |a|
      ensures a[i].canonicalPath == b[i].canonicalPath && a[i].sha256 == b[i].sha256 && a[i].size == b[i].size
    {
      assert DigestedFiles(a)[i] == DigestedFiles(b)[i];
    }
    assert FileSizes(a) == FileSizes(b);
  }
}
