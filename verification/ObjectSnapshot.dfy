/** Backing up unversioned buckets to files and an inventory, and restoring them exactly.

    A data file's path is kept as the pair it is made of, the bucket's label and the hash of the key.
    The inventory is kept as the value it encodes. */
module ObjectSnapshot {
  import opened Common
  import opened Ordering

  /** The headers a restore reproduces; `expires` in ISO form. */
  datatype Headers = Headers(cacheControl: Option<string>, contentDisposition: Option<string>,
                             contentEncoding: Option<string>, contentLanguage: Option<string>,
                             contentType: Option<string>, websiteRedirect: Option<string>,
                             expires: Option<string>, encryption: Option<string>, storageClass: Option<string>)

  /** A stored object. `locked` stands for KMS, bucket-key and object-lock state. */
  datatype Object = Object(bytes: seq<Byte>, metadata: map<string, string>, tags: map<string, string>,
                           headers: Headers, locked: bool)

  type Bucket = map<string, Object>

  datatype DataFile = DataFile(labelName: string, keyHash: string)

  datatype Record = Record(key: string, dataFile: DataFile, size: nat, digest: string,
                           metadata: map<string, string>, tags: map<string, string>, headers: Headers)

  datatype BucketRecord = BucketRecord(labelName: string, bucket: string, objects: seq<Record>)

  /** What a backup leaves on disk. */
  datatype Snapshot = Snapshot(inventory: seq<BucketRecord>, files: map<DataFile, seq<Byte>>)

  datatype Mapping = Mapping(labelName: string, bucket: string)

  datatype SnapshotError =
    | BackendFailed
    | Versioned
    | UnsupportedObject
    | InvalidKey
    | FileExists
    | BadBucketRecord
    | BadRecord
    | BadDataFile
    | WrongBuckets
    | UnlistedFile
    | BadHeaders
    | NotRestored
    | WrongKeys

  /** The two uses of SHA-256: naming data files after keys, and checking their bytes. */
  datatype Hashes = Hashes(ofKey: string -> string, ofBytes: seq<Byte> -> string)

  const STANDARD: string := "STANDARD"

  // ----- Names -----

  predicate LowerOrDigit(c: char) { 'a' <= c <= 'z' || '0' <= c <= '9' }

  predicate IsLabel(s: string) {
    && 1 <= |s| <= 32 && 'a' <= s[0] <= 'z'
    && forall i :: 1 <= i < |s| ==> LowerOrDigit(s[i]) || s[i] == '_' || s[i] == '-'
  }

  predicate IsBucketName(s: string) {
    && 3 <= |s| <= 63 && LowerOrDigit(s[0]) && LowerOrDigit(s[|s| - 1])
    && forall i :: 1 <= i < |s| - 1 ==> LowerOrDigit(s[i]) || s[i] == '.' || s[i] == '-'
  }

  /** The lower-case letters and digits of ASCII by their codes. */
  predicate AsciiLowerOrDigit(code: int) { 97 <= code < 97 + 26 || 48 <= code < 48 + 10 }

  /** A label is a lower-case letter and up to 31 lower-case letters, digits, underscores and hyphens. */
  lemma LabelExactly(first: char, rest: string)
    ensures IsLabel([first] + rest) <==>
              && 97 <= first as int < 97 + 26 && |rest| <= 31
              && forall c :: c in rest ==> AsciiLowerOrDigit(c as int) || c == '_' || c == '-'
    ensures !IsLabel("")
  {
    var s := [first] + rest;
    forall i | 1 <= i < |s|
      ensures s[i] == rest[i - 1] && s[i] in rest
    {
      assert rest[i - 1] in rest;
    }
    if IsLabel(s) {
      forall c | c in rest
        ensures AsciiLowerOrDigit(c as int) || c == '_' || c == '-'
      {
        var i :| 0 <= i < |rest| && rest[i] == c;
        assert s[i + 1] == c;
      }
    }
  }

  /** A bucket name has 3 to 63 lower-case letters, digits, dots and hyphens, with a letter or digit at both ends. */
  lemma BucketNameExactly(first: char, middle: string, last: char)
    ensures IsBucketName([first] + middle + [last]) <==>
              && 1 <= |middle| <= 61 && AsciiLowerOrDigit(first as int) && AsciiLowerOrDigit(last as int)
              && forall c :: c in middle ==> AsciiLowerOrDigit(c as int) || c == '.' || c == '-'
  {
    var s := [first] + middle + [last];
    assert s[0] == first && s[|s| - 1] == last;
    forall i | 1 <= i < |s| - 1
      ensures s[i] == middle[i - 1] && s[i] in middle
    {
      assert middle[i - 1] in middle;
    }
    if IsBucketName(s) {
      forall c | c in middle
        ensures AsciiLowerOrDigit(c as int) || c == '.' || c == '-'
      {
        var i :| 0 <= i < |middle| && middle[i] == c;
        assert s[i + 1] == c;
      }
    }
  }

  // ----- Headers -----

  predicate Reproduced(encryption: Option<string>) { encryption.None? || encryption.value == "AES256" }

  /** The standard storage class is spelled out in the inventory and left out on the wire. */
  function Spelled(storage: Option<string>): Option<string> { if storage.None? then Some(STANDARD) else storage }

  function Sent(storage: Option<string>): Option<string> { if storage == Some(STANDARD) then None else storage }

  /** `_object_headers`: what can be reproduced. */
  function ObjectHeaders(o: Object): Option<Headers> {
    if o.locked || !Reproduced(o.headers.encryption) then None
    else Some(o.headers.(storageClass := Spelled(o.headers.storageClass)))
  }

  /** `_put_headers`: what an upload sends. */
  function PutHeaders(h: Headers): Option<Headers> {
    if !Reproduced(h.encryption) then None else Some(h.(storageClass := Sent(h.storageClass)))
  }

  /** The store reports the standard storage class by leaving it out. */
  ghost predicate Normal(o: Object) { o.headers.storageClass != Some(STANDARD) }

  ghost predicate NormalBucket(b: Bucket) {
    forall k :: k in b ==> k != "" && Normal(b[k])
  }

  /** Headers survive being read for the inventory and sent again. */
  lemma HeadersRoundTrip(o: Object)
    requires Normal(o) && ObjectHeaders(o).Some?
    ensures PutHeaders(ObjectHeaders(o).value) == Some(o.headers)
  {}

  /** An object can be described exactly when it is not locked and has no server-side encryption or AES256; the
      description keeps the encryption and every header. */
  lemma DescribableExactly(o: Object)
    ensures ObjectHeaders(o).Some? <==> !o.locked && o.headers.encryption in {None, Some("AES256")}
    ensures ObjectHeaders(o).Some? ==>
              ObjectHeaders(o).value.(storageClass := None) == o.headers.(storageClass := None)
              && ObjectHeaders(o).value.storageClass == (if o.headers.storageClass == None then Some("STANDARD") else o.headers.storageClass)
  {}

  // ----- The store -----

  class Store {
    var buckets: map<string, Bucket>
    const versioned: set<string>

    constructor (buckets: map<string, Bucket>, versioned: set<string>)
      ensures this.buckets == buckets && this.versioned == versioned
    {
      this.buckets := buckets;
      this.versioned := versioned;
    }

    method AssertUnversioned(bucket: string) returns (error: Option<SnapshotError>)
      ensures error == if bucket !in buckets then Some(BackendFailed) else if bucket in versioned then Some(Versioned) else None
    {
      if bucket !in buckets {
        return Some(BackendFailed);
      }
      if bucket in versioned {
        return Some(Versioned);
      }
      error := None;
    }

    /** All keys of a bucket, sorted; the listing itself comes in any order. */
    method ListKeys(bucket: string) returns (keys: seq<string>)
      requires bucket in buckets
      ensures Lists(keys, buckets[bucket].Keys) && Sorted(StringLe, keys)
    {
      keys := SortedList(buckets[bucket].Keys);
    }

    method Put(bucket: string, key: string, bytes: seq<Byte>, metadata: map<string, string>,
               tags: map<string, string>, headers: Headers)
      requires bucket in buckets
      modifies this
      ensures buckets == old(buckets)[bucket := old(buckets)[bucket][key := Object(bytes, metadata, tags, headers, false)]]
    {
      buckets := buckets[bucket := buckets[bucket][key := Object(bytes, metadata, tags, headers, false)]];
    }

    method Delete(bucket: string, keys: seq<string>)
      requires bucket in buckets
      modifies this
      ensures OnlyChanged(old(buckets), buckets, bucket) && buckets[bucket] == WithoutKeys(old(buckets)[bucket], keys)
    {
      buckets := buckets[bucket := buckets[bucket] - (set k | k in keys)];
    }
  }

  // ----- What a snapshot says about buckets -----

  /** A record, with its data file, describes an object completely. */
  ghost predicate Describes(h: Hashes, area: string, rec: Record, files: map<DataFile, seq<Byte>>, o: Object) {
    && rec.dataFile == DataFile(area, h.ofKey(rec.key))
    && rec.dataFile in files && files[rec.dataFile] == o.bytes
    && rec.size == |o.bytes| && rec.digest == h.ofBytes(o.bytes)
    && rec.metadata == o.metadata && rec.tags == o.tags
    && ObjectHeaders(o) == Some(rec.headers)
  }

  function Keys(objects: seq<Record>): (r: seq<string>)
    ensures |r| == |objects| && forall i :: 0 <= i < |r| ==> r[i] == objects[i].key
  {
    seq(|objects|, i requires 0 <= i < |objects| => objects[i].key)
  }

  /** The records describe exactly the objects of the bucket. */
  ghost predicate DescribesBucket(h: Hashes, area: string, objects: seq<Record>, files: map<DataFile, seq<Byte>>, b: Bucket) {
    && Lists(Keys(objects), b.Keys)
    && forall i :: 0 <= i < |objects| ==> objects[i].key in b && Describes(h, area, objects[i], files, b[objects[i].key])
  }

  ghost function FilesOf(objects: seq<Record>): set<DataFile> {
    set i | 0 <= i < |objects| :: objects[i].dataFile
  }

  ghost function AllFiles(inventory: seq<BucketRecord>): set<DataFile> {
    if inventory == [] then {} else AllFiles(inventory[..|inventory| - 1]) + FilesOf(inventory[|inventory| - 1].objects)
  }

  /** The record describes the mapped bucket. */
  ghost predicate Recorded(h: Hashes, rec: BucketRecord, m: Mapping, files: map<DataFile, seq<Byte>>, buckets: map<string, Bucket>) {
    && rec.labelName == m.labelName && rec.bucket == m.bucket && m.bucket in buckets
    && DescribesBucket(h, m.labelName, rec.objects, files, buckets[m.bucket])
  }

  /** The snapshot of these buckets. */
  ghost predicate SnapshotOf(h: Hashes, s: Snapshot, mappings: seq<Mapping>, buckets: map<string, Bucket>) {
    && |s.inventory| == |mappings|
    && s.files.Keys == AllFiles(s.inventory)
    && forall i :: 0 <= i < |mappings| ==> Recorded(h, s.inventory[i], mappings[i], s.files, buckets)
  }

  // ----- Backup -----

  /** Every object of the bucket can be reproduced. */
  ghost predicate Reproducible(b: Bucket) {
    forall k :: k in b ==> k != "" && ObjectHeaders(b[k]).Some?
  }

  /** The hash tells the keys of the bucket apart. */
  ghost predicate NoKeyCollision(h: Hashes, b: Bucket) {
    forall k, l :: k in b && l in b && h.ofKey(k) == h.ofKey(l) ==> k == l
  }

  /** The bucket exists, is unversioned, and everything in it can be backed up. */
  ghost predicate CanBackUp(h: Hashes, buckets: map<string, Bucket>, versioned: set<string>, bucket: string) {
    && bucket in buckets && bucket !in versioned
    && Reproducible(buckets[bucket]) && NoKeyCollision(h, buckets[bucket])
  }

  ghost predicate DistinctFiles(objects: seq<Record>) {
    forall i, j :: 0 <= i < j < |objects| ==> objects[i].dataFile != objects[j].dataFile
  }

  ghost predicate DistinctLabels(mappings: seq<Mapping>) {
    forall i, j :: 0 <= i < j < |mappings| ==> mappings[i].labelName != mappings[j].labelName
  }

  /** `_backup_object`: the data file is created exclusively. */
  method BackupObject(store: Store, h: Hashes, files: map<DataFile, seq<Byte>>, area: string, bucket: string, key: string)
    returns (r: Result<Record, SnapshotError>, after: map<DataFile, seq<Byte>>)
    requires bucket in store.buckets && key in store.buckets[bucket]
    ensures r.Ok? ==>
              && r.value.key == key && Describes(h, area, r.value, after, store.buckets[bucket][key])
              && r.value.dataFile !in files && after == files[r.value.dataFile := store.buckets[bucket][key].bytes]
    ensures Extends(files, after)
    ensures r.Ok? <==> DataFile(area, h.ofKey(key)) !in files && ObjectHeaders(store.buckets[bucket][key]).Some?
  {
    var o := store.buckets[bucket][key];
    var dataFile := DataFile(area, h.ofKey(key));
    after := files;
    if dataFile in files {
      return Err(FileExists), after;
    }
    after := files[dataFile := o.bytes];
    match ObjectHeaders(o) {
      case None => return Err(UnsupportedObject), after;
      case Some(headers) =>
        r := Ok(Record(key, dataFile, |o.bytes|, h.ofBytes(o.bytes), o.metadata, o.tags, headers));
    }
  }

  /** Files already written keep describing what they described. */
  ghost predicate Extends(before: map<DataFile, seq<Byte>>, after: map<DataFile, seq<Byte>>) {
    forall f :: f in before ==> f in after && after[f] == before[f]
  }

  ghost predicate Fresh(files: map<DataFile, seq<Byte>>, area: string) {
    forall f :: f in files ==> f.labelName != area
  }

  /** The first objects of a bucket are backed up: what the loop has done. */
  ghost predicate BackedUp(h: Hashes, area: string, keys: seq<string>, objects: seq<Record>,
                           files: map<DataFile, seq<Byte>>, after: map<DataFile, seq<Byte>>, b: Bucket)
  {
    && Keys(objects) <= keys && Extends(files, after) && DistinctFiles(objects)
    && after.Keys == files.Keys + FilesOf(objects)
    && (forall j :: 0 <= j < |objects| ==>
          objects[j].key != "" && objects[j].key in b && Describes(h, area, objects[j], after, b[objects[j].key]))
  }

  lemma FilesOfNext(objects: seq<Record>, rec: Record)
    requires DistinctFiles(objects) && rec.dataFile !in FilesOf(objects)
    ensures DistinctFiles(objects + [rec]) && FilesOf(objects + [rec]) == FilesOf(objects) + {rec.dataFile}
  {
    var all := objects + [rec];
    assert forall i :: 0 <= i < |objects| ==> all[i] == objects[i];
    assert all[|objects|] == rec;
  }

  lemma BackedUpNext(h: Hashes, area: string, keys: seq<string>, objects: seq<Record>, files: map<DataFile, seq<Byte>>,
                     after: map<DataFile, seq<Byte>>, b: Bucket, rec: Record, next: map<DataFile, seq<Byte>>)
    requires BackedUp(h, area, keys, objects, files, after, b) && |objects| < |keys|
    requires rec.key == keys[|objects|] != "" && rec.key in b && Describes(h, area, rec, next, b[rec.key])
    requires rec.dataFile !in after && next == after[rec.dataFile := b[rec.key].bytes]
    ensures BackedUp(h, area, keys, objects + [rec], files, next, b)
  {
    var all := objects + [rec];
    FilesOfNext(objects, rec);
    assert Keys(all) == Keys(objects) + [rec.key];
    assert keys[..|all|] == keys[..|objects|] + [rec.key];
    forall j | 0 <= j < |all|
      ensures all[j].key != "" && all[j].key in b && Describes(h, area, all[j], next, b[all[j].key])
    {
      if j < |objects| {
        assert all[j] == objects[j] && objects[j].dataFile in FilesOf(objects);
      }
    }
  }

  /** With no collision among the bucket's keys and an unused label, the next data file does not exist yet. */
  lemma NextFileIsNew(h: Hashes, area: string, keys: seq<string>, objects: seq<Record>, files: map<DataFile, seq<Byte>>,
                      after: map<DataFile, seq<Byte>>, b: Bucket)
    requires BackedUp(h, area, keys, objects, files, after, b) && |objects| < |keys|
    requires Lists(keys, b.Keys) && NoKeyCollision(h, b) && Fresh(files, area)
    ensures DataFile(area, h.ofKey(keys[|objects|])) !in after
  {
    var next := DataFile(area, h.ofKey(keys[|objects|]));
    forall j | 0 <= j < |objects|
      ensures objects[j].dataFile != next
    {
      assert objects[j].key == Keys(objects)[j] == keys[j];
    }
  }

  /** A finished backup of a bucket shows that everything in it could be backed up. */
  lemma DescribedCouldBe(h: Hashes, area: string, objects: seq<Record>, files: map<DataFile, seq<Byte>>, b: Bucket)
    requires DescribesBucket(h, area, objects, files, b) && DistinctFiles(objects)
    requires forall i :: 0 <= i < |objects| ==> objects[i].key != ""
    ensures Reproducible(b) && NoKeyCollision(h, b)
  {
    forall k, l | k in b && l in b && h.ofKey(k) == h.ofKey(l)
      ensures k == l
    {
      var i, j := IndexOf(objects, k), IndexOf(objects, l);
      assert objects[i].dataFile == objects[j].dataFile;
    }
    forall k | k in b
      ensures k != "" && ObjectHeaders(b[k]).Some?
    {
      var i := IndexOf(objects, k);
      assert Describes(h, area, objects[i], files, b[objects[i].key]);
    }
  }

  ghost function IndexOf(objects: seq<Record>, key: string): (i: nat)
    requires key in Keys(objects)
    ensures i < |objects| && objects[i].key == key
  {
    var i :| 0 <= i < |objects| && Keys(objects)[i] == key;
    i
  }

  method BackupBucket(store: Store, h: Hashes, files: map<DataFile, seq<Byte>>, m: Mapping)
    returns (r: Result<seq<Record>, SnapshotError>, after: map<DataFile, seq<Byte>>)
    ensures r.Ok? ==>
              && m.bucket in store.buckets
              && DescribesBucket(h, m.labelName, r.value, after, store.buckets[m.bucket])
              && Extends(files, after) && after.Keys == files.Keys + FilesOf(r.value)
    ensures r.Ok? ==> CanBackUp(h, store.buckets, store.versioned, m.bucket)
    ensures Fresh(files, m.labelName) && CanBackUp(h, store.buckets, store.versioned, m.bucket) ==> r.Ok?
  {
    after := files;
    var error := store.AssertUnversioned(m.bucket);
    if error.Some? {
      return Err(error.value), after;
    }
    ghost var b := store.buckets[m.bucket];
    var keys := store.ListKeys(m.bucket);
    var objects: seq<Record> := [];
    for i := 0 to |keys|
      invariant |objects| == i && BackedUp(h, m.labelName, keys, objects, files, after, b)
    {
      assert keys[i] in keys;
      if keys[i] == "" {
        return Err(InvalidKey), after;
      }
      if NoKeyCollision(h, b) && Fresh(files, m.labelName) {
        NextFileIsNew(h, m.labelName, keys, objects, files, after, b);
      }
      ghost var before := after;
      var one;
      one, after := BackupObject(store, h, after, m.labelName, m.bucket, keys[i]);
      match one {
        case Err(e) => return Err(e), after;
        case Ok(rec) =>
          BackedUpNext(h, m.labelName, keys, objects, files, before, b, rec, after);
          objects := objects + [rec];
      }
    }
    assert Keys(objects) == keys;
    DescribedCouldBe(h, m.labelName, objects, after, b);
    r := Ok(objects);
  }

  lemma DescribesExtends(h: Hashes, area: string, objects: seq<Record>, files: map<DataFile, seq<Byte>>,
                         after: map<DataFile, seq<Byte>>, b: Bucket)
    requires DescribesBucket(h, area, objects, files, b) && Extends(files, after)
    ensures DescribesBucket(h, area, objects, after, b)
  {}

  /** Every data file belongs to a label of one of the first n mappings. */
  ghost predicate Labelled(files: map<DataFile, seq<Byte>>, mappings: seq<Mapping>, n: nat) {
    n <= |mappings| && forall f :: f in files ==> exists j :: 0 <= j < n && mappings[j].labelName == f.labelName
  }

  lemma LabelledNext(h: Hashes, files: map<DataFile, seq<Byte>>, mappings: seq<Mapping>, n: nat, rec: BucketRecord,
                     after: map<DataFile, seq<Byte>>, b: Bucket)
    requires Labelled(files, mappings, n) && n < |mappings| && rec.labelName == mappings[n].labelName
    requires DescribesBucket(h, rec.labelName, rec.objects, after, b) && after.Keys == files.Keys + FilesOf(rec.objects)
    ensures Labelled(after, mappings, n + 1)
  {
    forall f | f in after
      ensures exists j :: 0 <= j < n + 1 && mappings[j].labelName == f.labelName
    {
      if f in files {
        var j :| 0 <= j < n && mappings[j].labelName == f.labelName;
        assert 0 <= j < n + 1;
      } else {
        assert f in FilesOf(rec.objects);
        var i :| 0 <= i < |rec.objects| && rec.objects[i].dataFile == f;
        assert Describes(h, rec.labelName, rec.objects[i], after, b[rec.objects[i].key]);
        assert mappings[n].labelName == f.labelName;
      }
    }
  }

  /** The buckets backed up so far: what the outer loop has done. */
  ghost predicate BackedUpAll(h: Hashes, inventory: seq<BucketRecord>, files: map<DataFile, seq<Byte>>,
                              mappings: seq<Mapping>, buckets: map<string, Bucket>)
  {
    && |inventory| <= |mappings| && files.Keys == AllFiles(inventory) && Labelled(files, mappings, |inventory|)
    && forall i :: 0 <= i < |inventory| ==> Recorded(h, inventory[i], mappings[i], files, buckets)
  }

  lemma BackedUpAllNext(h: Hashes, inventory: seq<BucketRecord>, files: map<DataFile, seq<Byte>>, mappings: seq<Mapping>,
                        buckets: map<string, Bucket>, rec: BucketRecord, after: map<DataFile, seq<Byte>>)
    requires BackedUpAll(h, inventory, files, mappings, buckets) && |inventory| < |mappings|
    requires Recorded(h, rec, mappings[|inventory|], after, buckets)
    requires Extends(files, after) && after.Keys == files.Keys + FilesOf(rec.objects)
    ensures BackedUpAll(h, inventory + [rec], after, mappings, buckets)
  {
    var all := inventory + [rec];
    assert all[..|all| - 1] == inventory;
    LabelledNext(h, files, mappings, |inventory|, rec, after, buckets[rec.bucket]);
    forall i | 0 <= i < |all|
      ensures Recorded(h, all[i], mappings[i], after, buckets)
    {
      if i < |inventory| {
        assert Recorded(h, inventory[i], mappings[i], files, buckets);
        DescribesExtends(h, mappings[i].labelName, inventory[i].objects, files, after, buckets[mappings[i].bucket]);
      }
    }
  }

  /** `backup`: a finished backup is a snapshot of the mapped buckets. With distinct labels it fails exactly
      for a bucket that is missing or versioned, an object it cannot reproduce, or two keys of one bucket with
      the same hash. */
  method Backup(store: Store, h: Hashes, mappings: seq<Mapping>) returns (r: Result<Snapshot, SnapshotError>)
    ensures r.Ok? ==>
              && SnapshotOf(h, r.value, mappings, store.buckets)
              && forall i :: 0 <= i < |mappings| ==> CanBackUp(h, store.buckets, store.versioned, mappings[i].bucket)
    ensures && DistinctLabels(mappings)
            && (forall i :: 0 <= i < |mappings| ==> CanBackUp(h, store.buckets, store.versioned, mappings[i].bucket))
            ==> r.Ok?
  {
    var files: map<DataFile, seq<Byte>> := map[];
    var inventory: seq<BucketRecord> := [];
    for i := 0 to |mappings|
      invariant |inventory| == i && BackedUpAll(h, inventory, files, mappings, store.buckets)
      invariant forall j :: 0 <= j < i ==> CanBackUp(h, store.buckets, store.versioned, mappings[j].bucket)
    {
      ghost var before := files;
      assert DistinctLabels(mappings) ==> Fresh(files, mappings[i].labelName);
      var one;
      one, files := BackupBucket(store, h, files, mappings[i]);
      match one {
        case Err(e) => return Err(e);
        case Ok(objects) =>
          var rec := BucketRecord(mappings[i].labelName, mappings[i].bucket, objects);
          BackedUpAllNext(h, inventory, before, mappings, store.buckets, rec, files);
          inventory := inventory + [rec];
      }
    }
    r := Ok(Snapshot(inventory, files));
  }

  // ----- Loading -----

  predicate RecordLoads(h: Hashes, rec: Record, files: map<DataFile, seq<Byte>>) {
    && rec.key != "" && IsSha256(rec.digest)
    && rec.dataFile in files && |files[rec.dataFile]| == rec.size && h.ofBytes(files[rec.dataFile]) == rec.digest
  }

  ghost predicate ObjectsLoad(h: Hashes, objects: seq<Record>, files: map<DataFile, seq<Byte>>) {
    Distinct(Keys(objects)) && forall i :: 0 <= i < |objects| ==> RecordLoads(h, objects[i], files)
  }

  ghost predicate BucketLoads(h: Hashes, rec: BucketRecord, files: map<DataFile, seq<Byte>>) {
    IsLabel(rec.labelName) && IsBucketName(rec.bucket) && ObjectsLoad(h, rec.objects, files)
  }

  /** The snapshot is intact and is the one this installation expects. */
  ghost predicate Loads(h: Hashes, s: Snapshot, expected: seq<Mapping>) {
    && |s.inventory| == |expected| && s.files.Keys == AllFiles(s.inventory)
    && forall i :: 0 <= i < |expected| ==>
         && s.inventory[i].labelName == expected[i].labelName && s.inventory[i].bucket == expected[i].bucket
         && BucketLoads(h, s.inventory[i], s.files)
  }

  /** The checks on the records of one bucket, with their data files. */
  method LoadObjects(h: Hashes, objects: seq<Record>, files: map<DataFile, seq<Byte>>)
    returns (error: Option<SnapshotError>, listed: set<DataFile>)
    ensures error.None? <==> ObjectsLoad(h, objects, files)
    ensures error.None? ==> listed == FilesOf(objects)
  {
    var seen: set<string> := {};
    listed := {};
    for i := 0 to |objects|
      invariant seen == set j | 0 <= j < i :: objects[j].key
      invariant listed == set j | 0 <= j < i :: objects[j].dataFile
      invariant ObjectsLoad(h, objects[..i], files)
    {
      var rec := objects[i];
      assert objects[..i + 1][i] == rec;
      if rec.key == "" || rec.key in seen || !IsSha256(rec.digest) {
        if rec.key in seen {
          var j :| 0 <= j < i && objects[j].key == rec.key;
          assert Keys(objects)[j] == Keys(objects)[i];
        }
        return Some(BadRecord), listed;
      }
      if rec.dataFile !in files || |files[rec.dataFile]| != rec.size || h.ofBytes(files[rec.dataFile]) != rec.digest {
        return Some(BadDataFile), listed;
      }
      seen := seen + {rec.key};
      listed := listed + {rec.dataFile};
      assert forall j :: 0 <= j < i ==> objects[..i][j].key != rec.key;
      assert Keys(objects[..i + 1]) == Keys(objects[..i]) + [rec.key];
    }
    assert objects[..|objects|] == objects;
    error := None;
  }

  /** `_load_inventory` accepts exactly the intact snapshots of the expected buckets. */
  method LoadInventory(h: Hashes, s: Snapshot, expected: seq<Mapping>) returns (r: Result<seq<BucketRecord>, SnapshotError>)
    ensures r.Ok? <==> Loads(h, s, expected)
    ensures r.Ok? ==> r.value == s.inventory
  {
    var observed: seq<Mapping> := [];
    var listed: set<DataFile> := {};
    for i := 0 to |s.inventory|
      invariant |observed| == i && listed == AllFiles(s.inventory[..i])
      invariant forall j :: 0 <= j < i ==> BucketLoads(h, s.inventory[j], s.files)
      invariant forall j :: 0 <= j < i ==> observed[j] == Mapping(s.inventory[j].labelName, s.inventory[j].bucket)
    {
      var rec := s.inventory[i];
      if !IsLabel(rec.labelName) || !IsBucketName(rec.bucket) {
        return Err(BadBucketRecord);
      }
      observed := observed + [Mapping(rec.labelName, rec.bucket)];
      var error, more := LoadObjects(h, rec.objects, s.files);
      if error.Some? {
        return Err(error.value);
      }
      listed := listed + more;
      assert s.inventory[..i + 1][..i] == s.inventory[..i];
    }
    assert s.inventory[..|s.inventory|] == s.inventory;
    if observed != expected {
      return Err(WrongBuckets);
    }
    if s.files.Keys != listed {
      return Err(UnlistedFile);
    }
    r := Ok(s.inventory);
  }

  // ----- Restoring -----

  /** The headers can be sent, and the store will report them back. */
  predicate Sendable(rec: Record) {
    Reproduced(rec.headers.encryption) && rec.headers.storageClass.Some?
  }

  function Uploaded(rec: Record, bytes: seq<Byte>): (o: Object)
    requires Sendable(rec)
    ensures ObjectHeaders(o) == Some(rec.headers)
  {
    assert Spelled(Sent(rec.headers.storageClass)) == rec.headers.storageClass;
    Object(bytes, rec.metadata, rec.tags, PutHeaders(rec.headers).value, false)
  }

  /** The bucket holds the recorded object. */
  ghost predicate Holds(rec: Record, files: map<DataFile, seq<Byte>>, b: Bucket) {
    Sendable(rec) && rec.dataFile in files && rec.key in b && b[rec.key] == Uploaded(rec, files[rec.dataFile])
  }

  /** The bucket holds exactly the recorded objects. */
  ghost predicate RestoredBucket(objects: seq<Record>, files: map<DataFile, seq<Byte>>, b: Bucket) {
    && Lists(Keys(objects), b.Keys)
    && forall i :: 0 <= i < |objects| ==> Holds(objects[i], files, b)
  }

  lemma RestoredNext(objects: seq<Record>, n: nat, files: map<DataFile, seq<Byte>>, b: Bucket, next: Bucket)
    requires n < |objects| && RestoredBucket(objects[..n], files, b) && Distinct(Keys(objects))
    requires Sendable(objects[n]) && objects[n].dataFile in files
    requires next == b[objects[n].key := Uploaded(objects[n], files[objects[n].dataFile])]
    ensures RestoredBucket(objects[..n + 1], files, next)
  {
    var earlier, all := objects[..n], objects[..n + 1];
    assert all == earlier + [objects[n]];
    forall i | 0 <= i < |all|
      ensures Holds(all[i], files, next)
    {
      if i < n {
        assert Keys(objects)[i] != Keys(objects)[n];
        assert Holds(earlier[i], files, b);
      }
    }
    assert Keys(all) == Keys(earlier) + [objects[n].key] == Keys(objects)[..n + 1];
    assert next.Keys == b.Keys + {objects[n].key};
  }

  /** A bucket without some of its keys. */
  ghost function WithoutKeys(b: Bucket, keys: seq<string>): Bucket { b - (set k | k in keys) }

  lemma WithoutMore(b: Bucket, keys: seq<string>, start: nat, end: nat)
    requires start <= end <= |keys|
    ensures WithoutKeys(WithoutKeys(b, keys[..start]), keys[start..end]) == WithoutKeys(b, keys[..end])
  {
    assert keys[..end] == keys[..start] + keys[start..end];
    assert forall k :: k in keys[..end] <==> k in keys[..start] || k in keys[start..end];
  }

  /** `_clear_bucket`: deletions go out a thousand keys at a time. */
  method ClearBucket(store: Store, bucket: string)
    requires bucket in store.buckets
    modifies store
    ensures OnlyChanged(old(store.buckets), store.buckets, bucket) && store.buckets[bucket] == map[]
  {
    ghost var full := store.buckets[bucket];
    var keys := store.ListKeys(bucket);
    var start := 0;
    assert WithoutKeys(full, keys[..0]) == full;
    while start < |keys|
      invariant start <= |keys|
      invariant OnlyChanged(old(store.buckets), store.buckets, bucket)
      invariant store.buckets[bucket] == WithoutKeys(full, keys[..start])
    {
      var end := Min(start + 1000, |keys|);
      WithoutMore(full, keys, start, end);
      store.Delete(bucket, keys[start..end]);
      start := end;
    }
    assert keys[..start] == keys;
    assert WithoutKeys(full, keys) == map[];
  }

  /** `_verify_restored`. */
  method VerifyRestored(store: Store, h: Hashes, bucket: string, rec: Record) returns (error: Option<SnapshotError>)
    requires bucket in store.buckets && rec.key in store.buckets[bucket]
    ensures var o := store.buckets[bucket][rec.key];
            error.None? <==>
            && |o.bytes| == rec.size && h.ofBytes(o.bytes) == rec.digest
            && o.metadata == rec.metadata && o.tags == rec.tags && ObjectHeaders(o) == Some(rec.headers)
  {
    var o := store.buckets[bucket][rec.key];
    if |o.bytes| != rec.size || o.metadata != rec.metadata {
      return Some(NotRestored);
    }
    match ObjectHeaders(o) {
      case None => return Some(UnsupportedObject);
      case Some(actual) =>
        if actual != rec.headers {
          return Some(NotRestored);
        }
    }
    if o.tags != rec.tags || h.ofBytes(o.bytes) != rec.digest {
      return Some(NotRestored);
    }
    error := None;
  }

  method RestoreObject(store: Store, h: Hashes, files: map<DataFile, seq<Byte>>, bucket: string, rec: Record)
    returns (error: Option<SnapshotError>)
    requires bucket in store.buckets && RecordLoads(h, rec, files)
    modifies store
    ensures error.None? <==> Sendable(rec)
    ensures error.None? ==> store.buckets == old(store.buckets)[
                              bucket := old(store.buckets)[bucket][rec.key := Uploaded(rec, files[rec.dataFile])]]
    ensures OnlyChanged(old(store.buckets), store.buckets, bucket)
  {
    var bytes := files[rec.dataFile];
    match PutHeaders(rec.headers) {
      case None => return Some(BadHeaders);
      case Some(sent) =>
        store.Put(bucket, rec.key, bytes, rec.metadata, rec.tags, sent);
    }
    error := VerifyRestored(store, h, bucket, rec);
  }

  ghost predicate OnlyChanged(before: map<string, Bucket>, after: map<string, Bucket>, bucket: string) {
    before.Keys == after.Keys && forall b :: b in before && b != bucket ==> after[b] == before[b]
  }

  predicate AllSendable(objects: seq<Record>) {
    forall i :: 0 <= i < |objects| ==> Sendable(objects[i])
  }

  /** The uploads of one bucket, into an emptied bucket. */
  method RestoreObjects(store: Store, h: Hashes, files: map<DataFile, seq<Byte>>, bucket: string, objects: seq<Record>)
    returns (error: Option<SnapshotError>)
    requires ObjectsLoad(h, objects, files) && bucket in store.buckets && store.buckets[bucket] == map[]
    modifies store
    ensures error.None? <==> AllSendable(objects)
    ensures OnlyChanged(old(store.buckets), store.buckets, bucket)
    ensures error.None? ==> RestoredBucket(objects, files, store.buckets[bucket])
  {
    for i := 0 to |objects|
      invariant OnlyChanged(old(store.buckets), store.buckets, bucket)
      invariant RestoredBucket(objects[..i], files, store.buckets[bucket])
      invariant AllSendable(objects[..i])
    {
      ghost var b := store.buckets[bucket];
      error := RestoreObject(store, h, files, bucket, objects[i]);
      if error.Some? {
        return;
      }
      RestoredNext(objects, i, files, b, store.buckets[bucket]);
    }
    assert objects[..|objects|] == objects;
    error := None;
  }

  /** The bucket can take the record. */
  ghost predicate Takes(rec: BucketRecord, buckets: map<string, Bucket>, versioned: set<string>) {
    rec.bucket in buckets && rec.bucket !in versioned && AllSendable(rec.objects)
  }

  /** One bucket: it ends up holding exactly the recorded objects, whatever it held before. */
  method RestoreBucket(store: Store, h: Hashes, files: map<DataFile, seq<Byte>>, rec: BucketRecord)
    returns (error: Option<SnapshotError>)
    requires ObjectsLoad(h, rec.objects, files)
    modifies store
    ensures error.None? <==> Takes(rec, old(store.buckets), store.versioned)
    ensures error.None? ==> rec.bucket in store.buckets && RestoredBucket(rec.objects, files, store.buckets[rec.bucket])
    ensures OnlyChanged(old(store.buckets), store.buckets, rec.bucket)
  {
    error := store.AssertUnversioned(rec.bucket);
    if error.Some? {
      return;
    }
    ClearBucket(store, rec.bucket);
    error := RestoreObjects(store, h, files, rec.bucket, rec.objects);
    if error.Some? {
      return;
    }
    var left := store.ListKeys(rec.bucket);
    SortedListIsUnique(left, Keys(rec.objects), store.buckets[rec.bucket].Keys);
    if left != Sort(StringLe, Keys(rec.objects)) {
      return Some(WrongKeys);
    }
    error := None;
  }

  /** No later record of the first n names the same bucket. */
  ghost predicate IsLast(inventory: seq<BucketRecord>, n: nat, i: nat)
    requires i < n <= |inventory|
  {
    forall l :: i < l < n ==> inventory[l].bucket != inventory[i].bucket
  }

  ghost predicate Named(inventory: seq<BucketRecord>, n: nat, bucket: string)
    requires n <= |inventory|
  {
    exists i :: 0 <= i < n && inventory[i].bucket == bucket
  }

  /** The bucket of the record holds what the record says. */
  ghost predicate BucketHolds(rec: BucketRecord, files: map<DataFile, seq<Byte>>, buckets: map<string, Bucket>) {
    rec.bucket in buckets && RestoredBucket(rec.objects, files, buckets[rec.bucket])
  }

  /** After the first n buckets: each holds what its last record says, and no other bucket has changed. */
  ghost predicate RestoredAll(inventory: seq<BucketRecord>, n: nat, files: map<DataFile, seq<Byte>>,
                              before: map<string, Bucket>, after: map<string, Bucket>)
    requires n <= |inventory|
  {
    && before.Keys == after.Keys
    && (forall b :: b in before && !Named(inventory, n, b) ==> after[b] == before[b])
    && (forall i :: 0 <= i < n && IsLast(inventory, n, i) ==> BucketHolds(inventory[i], files, after))
  }

  lemma RestoredAllNext(inventory: seq<BucketRecord>, n: nat, files: map<DataFile, seq<Byte>>,
                        before: map<string, Bucket>, middle: map<string, Bucket>, after: map<string, Bucket>)
    requires n < |inventory| && RestoredAll(inventory, n, files, before, middle)
    requires OnlyChanged(middle, after, inventory[n].bucket) && BucketHolds(inventory[n], files, after)
    ensures RestoredAll(inventory, n + 1, files, before, after)
  {
    forall i | 0 <= i < n + 1 && IsLast(inventory, n + 1, i)
      ensures BucketHolds(inventory[i], files, after)
    {
      if i < n {
        assert inventory[n].bucket != inventory[i].bucket;
        assert IsLast(inventory, n, i) && BucketHolds(inventory[i], files, middle);
      }
    }
    forall b | b in before && !Named(inventory, n + 1, b)
      ensures after[b] == before[b]
    {
      assert inventory[n].bucket != b;
      assert !Named(inventory, n, b);
    }
  }

  /** Every named bucket can take its record. */
  ghost predicate TakesAll(inventory: seq<BucketRecord>, buckets: map<string, Bucket>, versioned: set<string>) {
    forall i :: 0 <= i < |inventory| ==> Takes(inventory[i], buckets, versioned)
  }

  /** No bucket but the named ones has changed. */
  ghost predicate OthersKept(inventory: seq<BucketRecord>, before: map<string, Bucket>, after: map<string, Bucket>) {
    forall b :: b in before && !Named(inventory, |inventory|, b) ==> b in after && after[b] == before[b]
  }

  lemma FailureKeepsOthers(inventory: seq<BucketRecord>, n: nat, files: map<DataFile, seq<Byte>>,
                           before: map<string, Bucket>, middle: map<string, Bucket>, after: map<string, Bucket>)
    requires n < |inventory| && RestoredAll(inventory, n, files, before, middle)
    requires OnlyChanged(middle, after, inventory[n].bucket)
    ensures OthersKept(inventory, before, after)
  {
    forall b | b in before && !Named(inventory, |inventory|, b)
      ensures b in after && after[b] == before[b]
    {
      assert inventory[n].bucket != b;
      assert !Named(inventory, n, b);
    }
  }

  lemma TakesOneMore(inventory: seq<BucketRecord>, n: nat, buckets: map<string, Bucket>, versioned: set<string>)
    requires n < |inventory| && TakesAll(inventory[..n], buckets, versioned)
    ensures TakesAll(inventory[..n + 1], buckets, versioned) <==> Takes(inventory[n], buckets, versioned)
    ensures TakesAll(inventory, buckets, versioned) ==> Takes(inventory[n], buckets, versioned)
  {
    assert inventory[..n + 1] == inventory[..n] + [inventory[n]];
    assert inventory[..n + 1][n] == inventory[n];
  }

  ghost predicate AllLoad(h: Hashes, inventory: seq<BucketRecord>, files: map<DataFile, seq<Byte>>) {
    forall i :: 0 <= i < |inventory| ==> ObjectsLoad(h, inventory[i].objects, files)
  }

  method RestoreBuckets(store: Store, h: Hashes, inventory: seq<BucketRecord>, files: map<DataFile, seq<Byte>>)
    returns (error: Option<SnapshotError>)
    requires AllLoad(h, inventory, files)
    modifies store
    ensures error.None? <==> TakesAll(inventory, old(store.buckets), store.versioned)
    ensures error.None? ==> RestoredAll(inventory, |inventory|, files, old(store.buckets), store.buckets)
    ensures OthersKept(inventory, old(store.buckets), store.buckets)
  {
    ghost var before := store.buckets;
    for i := 0 to |inventory|
      invariant RestoredAll(inventory, i, files, before, store.buckets)
      invariant TakesAll(inventory[..i], before, store.versioned)
    {
      ghost var middle := store.buckets;
      TakesOneMore(inventory, i, before, store.versioned);
      TakenAlike(inventory[i], before, middle, store.versioned);
      error := RestoreBucket(store, h, files, inventory[i]);
      if error.Some? {
        FailureKeepsOthers(inventory, i, files, before, middle, store.buckets);
        return;
      }
      RestoredAllNext(inventory, i, files, before, middle, store.buckets);
    }
    assert inventory[..|inventory|] == inventory;
    error := None;
  }

  /** Whether a bucket can be restored depends only on which buckets exist. */
  lemma TakenAlike(rec: BucketRecord, before: map<string, Bucket>, after: map<string, Bucket>, versioned: set<string>)
    requires before.Keys == after.Keys
    ensures Takes(rec, before, versioned) == Takes(rec, after, versioned)
  {
    assert rec.bucket in before.Keys <==> rec.bucket in after.Keys;
  }

  /** `restore` finishes exactly when the snapshot is intact, every target is an unversioned bucket and every
      recorded header can be sent. It never touches a bucket the snapshot does not name. */
  method Restore(store: Store, h: Hashes, s: Snapshot, expected: seq<Mapping>) returns (error: Option<SnapshotError>)
    modifies store
    ensures error.None? <==> Loads(h, s, expected) && TakesAll(s.inventory, old(store.buckets), store.versioned)
    ensures error.None? ==> RestoredAll(s.inventory, |s.inventory|, s.files, old(store.buckets), store.buckets)
    ensures OthersKept(s.inventory, old(store.buckets), store.buckets)
  {
    var loaded := LoadInventory(h, s, expected);
    if loaded.Err? {
      return Some(loaded.error);
    }
    error := RestoreBuckets(store, h, s.inventory, s.files);
  }

  // ----- Backup and restore together -----

  /** Uploading what a record says about an object gives the object back. */
  lemma UploadInvertsBackup(h: Hashes, area: string, rec: Record, files: map<DataFile, seq<Byte>>, o: Object)
    requires Normal(o) && Describes(h, area, rec, files, o)
    ensures Sendable(rec) && Uploaded(rec, files[rec.dataFile]) == o
  {
    HeadersRoundTrip(o);
  }

  lemma SameBucket(h: Hashes, area: string, objects: seq<Record>, files: map<DataFile, seq<Byte>>, source: Bucket, b: Bucket)
    requires NormalBucket(source) && DescribesBucket(h, area, objects, files, source)
    requires RestoredBucket(objects, files, b)
    ensures b == source
  {
    assert b.Keys == source.Keys;
    forall k | k in source
      ensures b[k] == source[k]
    {
      assert k in Keys(objects);
      var i :| 0 <= i < |objects| && Keys(objects)[i] == k;
      UploadInvertsBackup(h, area, objects[i], files, source[k]);
    }
  }

  /** Every snapshot a backup makes is accepted again, and all its headers can be sent. */
  lemma BackupLoads(h: Hashes, s: Snapshot, mappings: seq<Mapping>, source: map<string, Bucket>)
    requires SnapshotOf(h, s, mappings, source)
    requires forall b :: b in source ==> NormalBucket(source[b])
    requires forall i :: 0 <= i < |mappings| ==> IsLabel(mappings[i].labelName) && IsBucketName(mappings[i].bucket)
    requires forall bytes :: IsSha256(h.ofBytes(bytes))
    ensures Loads(h, s, mappings)
    ensures forall i :: 0 <= i < |s.inventory| ==> AllSendable(s.inventory[i].objects)
  {
    forall i, j | 0 <= i < |s.inventory| && 0 <= j < |s.inventory[i].objects|
      ensures Sendable(s.inventory[i].objects[j]) && RecordLoads(h, s.inventory[i].objects[j], s.files)
    {
      var m, rec := mappings[i], s.inventory[i].objects[j];
      assert DescribesBucket(h, m.labelName, s.inventory[i].objects, s.files, source[m.bucket]);
      UploadInvertsBackup(h, m.labelName, rec, s.files, source[m.bucket][rec.key]);
    }
    forall i | 0 <= i < |mappings|
      ensures BucketLoads(h, s.inventory[i], s.files)
    {
      assert DescribesBucket(h, mappings[i].labelName, s.inventory[i].objects, s.files, source[mappings[i].bucket]);
    }
  }

  /** The last record that names the same bucket. */
  lemma {:induction false} LastOfBucket(mappings: seq<Mapping>, i: nat) returns (j: nat)
    requires i < |mappings|
    ensures i <= j < |mappings| && mappings[j].bucket == mappings[i].bucket
    ensures forall l :: j < l < |mappings| ==> mappings[l].bucket != mappings[i].bucket
    decreases |mappings| - i
  {
    j := i;
    if k :| i < k < |mappings| && mappings[k].bucket == mappings[i].bucket {
      j := LastOfBucket(mappings, k);
    }
  }

  /** Mapping by mapping, the same buckets. */
  ghost predicate NamesBuckets(inventory: seq<BucketRecord>, mappings: seq<Mapping>) {
    |inventory| == |mappings| && forall i :: 0 <= i < |mappings| ==> inventory[i].bucket == mappings[i].bucket
  }

  /** The last record naming a bucket decides what it holds; it holds the source bucket. */
  lemma RestoredFrom(h: Hashes, s: Snapshot, mappings: seq<Mapping>, source: map<string, Bucket>,
                     before: map<string, Bucket>, after: map<string, Bucket>, i: nat)
    requires SnapshotOf(h, s, mappings, source) && forall b :: b in source ==> NormalBucket(source[b])
    requires NamesBuckets(s.inventory, mappings)
    requires RestoredAll(s.inventory, |s.inventory|, s.files, before, after) && i < |mappings|
    ensures mappings[i].bucket in after && after[mappings[i].bucket] == source[mappings[i].bucket]
  {
    var j := LastOfBucket(mappings, i);
    var bucket := mappings[i].bucket;
    assert IsLast(s.inventory, |s.inventory|, j) by {
      forall l | j < l < |s.inventory|
        ensures s.inventory[l].bucket != s.inventory[j].bucket
      {
        assert mappings[l].bucket != bucket;
      }
    }
    assert s.inventory[j].bucket == bucket && BucketHolds(s.inventory[j], s.files, after);
    assert Recorded(h, s.inventory[j], mappings[j], s.files, source);
    SameBucket(h, mappings[j].labelName, s.inventory[j].objects, s.files, source[bucket], after[bucket]);
  }

  /** Restoring a backup, into any store, reproduces every backed-up bucket exactly and changes no other. */
  lemma RestoreReproduces(h: Hashes, s: Snapshot, mappings: seq<Mapping>, source: map<string, Bucket>,
                          before: map<string, Bucket>, after: map<string, Bucket>)
    requires SnapshotOf(h, s, mappings, source) && forall b :: b in source ==> NormalBucket(source[b])
    requires RestoredAll(s.inventory, |s.inventory|, s.files, before, after)
    ensures forall i :: 0 <= i < |mappings| ==>
              mappings[i].bucket in after && after[mappings[i].bucket] == source[mappings[i].bucket]
    ensures forall b :: b in before && (forall i :: 0 <= i < |mappings| ==> mappings[i].bucket != b) ==>
              b in after && after[b] == before[b]
  {
    assert NamesBuckets(s.inventory, mappings);
    forall i | 0 <= i < |mappings|
      ensures mappings[i].bucket in after && after[mappings[i].bucket] == source[mappings[i].bucket]
    {
      RestoredFrom(h, s, mappings, source, before, after, i);
    }
    forall b | b in before && forall i :: 0 <= i < |mappings| ==> mappings[i].bucket != b
      ensures b in after && after[b] == before[b]
    {
      assert !Named(s.inventory, |s.inventory|, b);
    }
  }
}
