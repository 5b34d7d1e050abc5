/** Which ZIP archives are accepted, and in which order their members are taken.

    The archive's central directory is given as a list of entries. Unicode normalization, case folding and
    lower-casing are parameters. */
module ArchiveMembers {
  import opened Common
  import opened ContentDigest
  import opened Ordering
  import opened Paths

  /** One ZIP directory entry, with the bytes its stream yields. */
  datatype Entry = Entry(filename: string, attributes: nat, flags: nat, compression: nat,
                         fileSize: int, compressSize: int, data: seq<Byte>)

  datatype Limits = Limits(maxArchiveBytes: nat, maxEntries: nat, maxFileBytes: nat, maxTotalBytes: nat,
                           maxRatio: real, chunkBytes: nat)

  datatype Unicode = Unicode(nfc: string -> string, casefold: string -> string, lower: string -> string)

  datatype Member = Member(info: Entry, path: string)

  datatype IngestError = UnsafeArchive | LimitExceeded | NoUsableAudio

  // ----- Member paths -----

  predicate Letter(c: char) { 'a' <= c <= 'z' || 'A' <= c <= 'Z' }

  /** `^[A-Za-z]:($|/)`; the end of the text may be followed by one newline. */
  predicate DriveLike(s: string) {
    |s| >= 2 && Letter(s[0]) && s[1] == ':' && (|s| == 2 || s[2] == '/' || s[2..] == "\n")
  }

  /** The letters of ASCII by their codes. */
  predicate AsciiLetter(code: int) { 65 <= code < 65 + 26 || 97 <= code < 97 + 26 }

  /** A drive is a letter and a colon, at the end of the text or before a slash or one last newline. */
  lemma DriveLikeExactly(s: string)
    ensures DriveLike(s) <==>
              exists c: char, rest: string ::
                AsciiLetter(c as int) && s == [c] + ":" + rest && (rest == "" || rest == "\n" || "/" <= rest)
  {
    if DriveLike(s) {
      assert s == [s[0]] + ":" + s[2..];
      assert |s| > 2 && s[2] == '/' ==> "/" <= s[2..];
    }
    if c: char, rest: string :| AsciiLetter(c as int) && s == [c] + ":" + rest && (rest == "" || rest == "\n" || "/" <= rest) {
      assert s[2..] == rest;
      assert "/" <= rest ==> rest[0] == '/';
    }
  }

  predicate EndsWithSlash(s: string) { s != "" && s[|s| - 1] == '/' }

  /** `_safe_member_path`. */
  function SafeMemberPath(u: Unicode, raw: string): Result<string, IngestError> {
    if raw == "" || '\0' in raw || '\\' in raw || raw[0] == '/' || DriveLike(raw) then Err(UnsafeArchive)
    else
      var parts := Parts(raw);
      if ".." in parts || parts == [] then Err(UnsafeArchive)
      else Ok(Join(Map(u.nfc, parts)) + if EndsWithSlash(raw) then "/" else "")
  }

  /** What normalization does to a path component: it never makes separators, dots or forbidden characters. */
  ghost predicate KeepsComponents(nfc: string -> string) {
    && (forall p :: Component(p) && p != ".." && '\0' !in p && '\\' !in p ==>
          Component(nfc(p)) && nfc(p) != ".." && '\0' !in nfc(p) && '\\' !in nfc(p))
    && (forall p :: nfc(nfc(p)) == nfc(p))
  }

  lemma {:induction false} PartsCharacters(parts: seq<string>, c: char)
    requires forall i :: 0 <= i < |parts| ==> c !in parts[i]
    ensures forall i :: 0 <= i < |Meaningful(parts)| ==> c !in Meaningful(parts)[i]
  {
    if parts != [] {
      PartsCharacters(parts[1..], c);
    }
  }

  lemma {:induction false} SplitCharacters(s: string, c: char)
    requires c !in s
    ensures forall i :: 0 <= i < |Split(s)| ==> c !in Split(s)[i]
  {
    if s != "" {
      SplitCharacters(s[1..], c);
    }
  }

  lemma {:induction false} JoinCharacters(parts: seq<string>, c: char)
    requires c != '/' && forall i :: 0 <= i < |parts| ==> c !in parts[i]
    ensures c !in Join(parts)
  {
    if |parts| > 1 {
      JoinCharacters(parts[1..], c);
    }
  }

  lemma JoinStarts(parts: seq<string>)
    requires Components(parts) && parts != []
    ensures Join(parts) != "" && Join(parts)[0] != '/' && !EndsWithSlash(Join(parts))
    decreases |parts|
  {
    if |parts| > 1 {
      JoinStarts(parts[1..]);
    }
  }

  /** An accepted path has exactly the normalized components of the raw one, and none of them climbs. */
  lemma SafePathStaysInside(u: Unicode, raw: string)
    requires KeepsComponents(u.nfc) && SafeMemberPath(u, raw).Ok?
    ensures var path := SafeMemberPath(u, raw).value;
            && Parts(path) == Map(u.nfc, Parts(raw)) && Parts(path) != [] && ".." !in Parts(path)
            && path != "" && path[0] != '/' && '\0' !in path && '\\' !in path
            && EndsWithSlash(path) == EndsWithSlash(raw)
  {
    var parts := Parts(raw);
    PartsAreComponents(raw);
    SplitCharacters(raw, '\0');
    PartsCharacters(Split(raw), '\0');
    SplitCharacters(raw, '\\');
    PartsCharacters(Split(raw), '\\');
    var normal := Map(u.nfc, parts);
    forall i | 0 <= i < |normal|
      ensures Component(normal[i]) && normal[i] != ".." && '\0' !in normal[i] && '\\' !in normal[i]
    {
      assert parts[i] in parts;
    }
    PartsOfJoin(normal);
    JoinCharacters(normal, '\0');
    JoinCharacters(normal, '\\');
    JoinStarts(normal);
    assert Join(normal) + "" == Join(normal);
  }

  /** Normalizing an accepted path again changes nothing, unless the normal form looks like a drive. */
  lemma NormalFormIsStable(u: Unicode, raw: string)
    requires KeepsComponents(u.nfc) && SafeMemberPath(u, raw).Ok?
    ensures var path := SafeMemberPath(u, raw).value;
            SafeMemberPath(u, path) == if DriveLike(path) then Err(UnsafeArchive) else Ok(path)
  {
    SafePathStaysInside(u, raw);
    var path := SafeMemberPath(u, raw).value;
    var parts := Map(u.nfc, Parts(raw));
    assert Map(u.nfc, parts) == parts;
  }

  /** Such a raw name is accepted although the path it becomes would not be. */
  lemma DotHidesDrive(u: Unicode)
    requires forall s :: u.nfc(s) == s
    ensures SafeMemberPath(u, "./C:/x") == Ok("C:/x") && SafeMemberPath(u, "C:/x") == Err(UnsafeArchive)
  {
    var raw := "./C:/x";
    RawParts();
    assert raw[0] == '.' && raw[5] == 'x' && !EndsWithSlash(raw);
    assert forall c :: c in raw ==> c in {'.', '/', 'C', ':', 'x'};
    assert Map(u.nfc, Parts(raw)) == ["C:", "x"];
    assert ["C:", "x"][1..] == ["x"];
    assert Join(["C:", "x"]) + "" == "C:/x";
  }

  lemma RawParts()
    ensures Parts("./C:/x") == ["C:", "x"]
  {
    SplitAt(".", "C:/x");
    SplitAt("C:", "x");
    SplitOne(".");
    SplitOne("C:");
    SplitOne("x");
    assert "./C:/x" == "." + "/" + "C:/x" && "C:/x" == "C:" + "/" + "x";
    var pieces := Split("./C:/x");
    assert pieces == [".", "C:", "x"];
    MeaningfulKeeps(["C:", "x"]);
    assert pieces[1..] == ["C:", "x"];
  }

  // ----- Entries -----

  /** A directory is named with a trailing slash. */
  predicate IsDirectory(e: Entry) { EndsWithSlash(e.filename) }

  const DIRECTORY_TYPE := 4
  const REGULAR_TYPE := 8

  /** The file type in the upper half of the external attributes. */
  function FileType(e: Entry): nat { e.attributes / 0x1000_0000 % 16 }

  /** An entry with a Unix mode in the upper 16 bits of its attributes has the type in the mode's upper 4 bits. */
  lemma FileTypeOfMode(e: Entry, kind: nat, permissions: nat, low: nat)
    requires kind < 16 && permissions < 0x1000 && low < 0x1_0000
    requires e.attributes == (kind * 0x1000 + permissions) * 0x1_0000 + low
    ensures FileType(e) == kind
  {
    assert e.attributes == kind * 0x1000_0000 + (permissions * 0x1_0000 + low);
  }

  const SUPPORTED_COMPRESSION: set<nat> := {0, 8, 12, 14}

  predicate RatioExceeds(e: Entry, maxRatio: real) {
    e.fileSize != 0 && (e.compressSize == 0 || e.fileSize as real / e.compressSize as real > maxRatio)
  }

  lemma RatioTimes(size: real, packed: real, ratio: real)
    requires packed > 0.0
    ensures size / packed > ratio <==> size > ratio * packed
  {
    var q := size / packed;
    assert q * packed == size;
    if q > ratio {
      assert (q - ratio) * packed > 0.0;
    } else {
      assert (ratio - q) * packed >= 0.0;
    }
  }

  /** An entry is packed too tightly exactly when its size is more than the ratio times its compressed size. */
  lemma RatioExactly(e: Entry, ratio: real)
    requires e.fileSize >= 0 && e.compressSize >= 0 && ratio >= 0.0
    ensures RatioExceeds(e, ratio) <==> e.fileSize as real > ratio * e.compressSize as real
  {
    if e.compressSize > 0 {
      RatioTimes(e.fileSize as real, e.compressSize as real, ratio);
    } else {
      assert e.compressSize as real == 0.0;
      assert ratio * 0.0 == 0.0;
    }
  }

  /** Everything one entry is checked for on its own. */
  predicate EntryAllowed(u: Unicode, e: Entry, limits: Limits) {
    && SafeMemberPath(u, e.filename).Ok?
    && FileType(e) in {0, if IsDirectory(e) then DIRECTORY_TYPE else REGULAR_TYPE}
    && e.flags % 2 == 0
    && e.compression in SUPPORTED_COMPRESSION
    && e.fileSize >= 0 && e.compressSize >= 0
    && (!IsDirectory(e) ==> e.fileSize <= limits.maxFileBytes && !RatioExceeds(e, limits.maxRatio))
  }

  function NormalPath(u: Unicode, e: Entry): string {
    var r := SafeMemberPath(u, e.filename);
    if r.Ok? then r.value else ""
  }

  /** Two paths with the same key would collide on some file system. */
  function FoldKey(u: Unicode, path: string): string { u.casefold(u.nfc(path)) }

  function Size(e: Entry): int { if IsDirectory(e) then 0 else e.fileSize }

  function Sizes(es: seq<Entry>): seq<int> { Map((e: Entry) => Size(e), es) }

  function Keys(u: Unicode, es: seq<Entry>): seq<string> { Map((e: Entry) => FoldKey(u, NormalPath(u, e)), es) }

  function Members(u: Unicode, es: seq<Entry>): seq<Member> { Map((e: Entry) => Member(e, NormalPath(u, e)), es) }

  ghost predicate AllAllowed(u: Unicode, es: seq<Entry>, limits: Limits) {
    forall i :: 0 <= i < |es| ==> EntryAllowed(u, es[i], limits)
  }

  /** Which archives are accepted. */
  ghost predicate Acceptable(u: Unicode, es: seq<Entry>, limits: Limits) {
    && |es| <= limits.maxEntries
    && AllAllowed(u, es, limits)
    && Distinct(Keys(u, es))
    && Total(Sizes(es)) <= limits.maxTotalBytes
  }

  /** Members are compared by key, then by path. */
  predicate MemberLe(u: Unicode, a: Member, b: Member) {
    var x, y := FoldKey(u, a.path), FoldKey(u, b.path);
    if x == y then StringLe(a.path, b.path) else StringLe(x, y)
  }

  function MemberOrder(u: Unicode): (Member, Member) -> bool { (a: Member, b: Member) => MemberLe(u, a, b) }

  /** The order in which an archive's members are processed. */
  function Canonical(u: Unicode, es: seq<Entry>): seq<Member> { Sort(MemberOrder(u), Members(u, es)) }

  /** The checks of one entry, in the order they are made. */
  method CheckEntry(u: Unicode, e: Entry, limits: Limits, seen: set<string>, total: int) returns (r: Result<int, IngestError>)
    ensures r.Ok? <==>
            && EntryAllowed(u, e, limits) && FoldKey(u, NormalPath(u, e)) !in seen
            && (!IsDirectory(e) ==> total + e.fileSize <= limits.maxTotalBytes)
    ensures r.Ok? ==> r.value == total + Size(e)
  {
    var normalized := SafeMemberPath(u, e.filename);
    if normalized.Err? {
      return Err(normalized.error);
    }
    if FoldKey(u, normalized.value) in seen {
      return Err(UnsafeArchive);
    }
    var fileType := FileType(e);
    if IsDirectory(e) {
      if fileType != 0 && fileType != DIRECTORY_TYPE {
        return Err(UnsafeArchive);
      }
    } else if fileType != 0 && fileType != REGULAR_TYPE {
      return Err(UnsafeArchive);
    }
    if e.flags % 2 == 1 || e.compression !in SUPPORTED_COMPRESSION || e.fileSize < 0 || e.compressSize < 0 {
      return Err(UnsafeArchive);
    }
    r := Ok(total);
    if !IsDirectory(e) {
      if e.fileSize > limits.maxFileBytes || total + e.fileSize > limits.maxTotalBytes || RatioExceeds(e, limits.maxRatio) {
        return Err(LimitExceeded);
      }
      r := Ok(total + e.fileSize);
    }
  }

  lemma PrefixNext(u: Unicode, es: seq<Entry>, i: nat)
    requires i < |es|
    ensures es[..i + 1] == es[..i] + [es[i]]
    ensures Sizes(es[..i + 1]) == Sizes(es[..i]) + [Size(es[i])]
    ensures Keys(u, es[..i + 1]) == Keys(u, es[..i]) + [FoldKey(u, NormalPath(u, es[i]))]
    ensures Members(u, es[..i + 1]) == Members(u, es[..i]) + [Member(es[i], NormalPath(u, es[i]))]
  {
    assert es[..i + 1] == es[..i] + [es[i]];
  }

  lemma TotalNext(u: Unicode, es: seq<Entry>, i: nat)
    requires i < |es|
    ensures Total(Sizes(es[..i + 1])) == Total(Sizes(es[..i])) + Size(es[i])
  {
    PrefixNext(u, es, i);
    TotalAppend(Sizes(es[..i]), [Size(es[i])]);
    assert [Size(es[i])][..0] == [];
  }

  /** The entry passes after these earlier ones. */
  ghost predicate Passes(u: Unicode, earlier: seq<Entry>, e: Entry, limits: Limits) {
    && EntryAllowed(u, e, limits)
    && FoldKey(u, NormalPath(u, e)) !in Keys(u, earlier)
    && (!IsDirectory(e) ==> Total(Sizes(earlier)) + e.fileSize <= limits.maxTotalBytes)
  }

  lemma TotalSoFar(u: Unicode, es: seq<Entry>, i: nat, limits: Limits)
    requires i < |es| && AllAllowed(u, es, limits)
    ensures Total(Sizes(es[..i])) + Size(es[i]) <= Total(Sizes(es))
  {
    forall j | 0 <= j < |es|
      ensures Sizes(es)[j] >= 0
    {
      assert EntryAllowed(u, es[j], limits);
    }
    TotalGrows(Sizes(es), i + 1);
    TotalNext(u, es, i);
    assert Sizes(es)[..i + 1] == Sizes(es[..i + 1]);
  }

  lemma KeyIsNew(u: Unicode, es: seq<Entry>, i: nat)
    requires i < |es| && Distinct(Keys(u, es))
    ensures FoldKey(u, NormalPath(u, es[i])) !in Keys(u, es[..i])
  {
    forall j | 0 <= j < i
      ensures Keys(u, es[..i])[j] != FoldKey(u, NormalPath(u, es[i]))
    {
      assert Keys(u, es)[j] != Keys(u, es)[i];
    }
  }

  /** In an acceptable archive every entry passes where it stands: the running total only grows. */
  lemma AllPass(u: Unicode, es: seq<Entry>, i: nat, limits: Limits)
    requires i < |es| && Acceptable(u, es, limits)
    ensures Passes(u, es[..i], es[i], limits)
  {
    TotalSoFar(u, es, i, limits);
    KeyIsNew(u, es, i);
    assert EntryAllowed(u, es[i], limits);
  }

  /** What the loop knows of the entries it has passed. */
  ghost predicate Reviewed(u: Unicode, earlier: seq<Entry>, limits: Limits, total: int, seen: set<string>, members: seq<Member>) {
    && total == Total(Sizes(earlier)) && total <= limits.maxTotalBytes
    && (forall k :: k in seen <==> k in Keys(u, earlier))
    && members == Members(u, earlier)
    && AllAllowed(u, earlier, limits) && Distinct(Keys(u, earlier))
  }

  lemma ReviewedNext(u: Unicode, es: seq<Entry>, i: nat, limits: Limits, total: int, seen: set<string>, members: seq<Member>)
    requires i < |es| && Reviewed(u, es[..i], limits, total, seen, members) && Passes(u, es[..i], es[i], limits)
    ensures Reviewed(u, es[..i + 1], limits, total + Size(es[i]), seen + {FoldKey(u, NormalPath(u, es[i]))},
                     members + [Member(es[i], NormalPath(u, es[i]))])
  {
    PrefixNext(u, es, i);
    TotalNext(u, es, i);
  }

  /** `_validate_archive_members`: accepts exactly the acceptable archives, and sorts their members. */
  method ValidateArchiveMembers(u: Unicode, es: seq<Entry>, limits: Limits) returns (r: Result<seq<Member>, IngestError>)
    ensures r.Ok? <==> Acceptable(u, es, limits)
    ensures r.Ok? ==> r.value == Canonical(u, es)
  {
    if |es| > limits.maxEntries {
      return Err(LimitExceeded);
    }
    var total := 0;
    var seen: set<string> := {};
    var members: seq<Member> := [];
    for i := 0 to |es|
      invariant Reviewed(u, es[..i], limits, total, seen, members)
    {
      var one := CheckEntry(u, es[i], limits, seen, total);
      if one.Err? {
        assert !Passes(u, es[..i], es[i], limits);
        assert !Acceptable(u, es, limits) by {
          if Acceptable(u, es, limits) {
            AllPass(u, es, i, limits);
          }
        }
        return Err(one.error);
      }
      ReviewedNext(u, es, i, limits, total, seen, members);
      total := one.value;
      seen := seen + {FoldKey(u, NormalPath(u, es[i]))};
      members := members + [Member(es[i], NormalPath(u, es[i]))];
    }
    assert es[..|es|] == es;
    r := Ok(Sort(MemberOrder(u), members));
  }

  // ----- The order of entries does not matter -----

  /** Among members with different keys the comparison is a total order. */
  lemma MembersOrdered(u: Unicode, ms: seq<Member>)
    requires forall i, j :: 0 <= i < j < |ms| ==> FoldKey(u, ms[i].path) != FoldKey(u, ms[j].path)
    ensures OrderOn(MemberOrder(u), multiset(ms))
  {
    var le := MemberOrder(u);
    forall a, b | a in multiset(ms) && b in multiset(ms)
      ensures le(a, b) || le(b, a)
      ensures le(a, b) && le(b, a) ==> a == b
    {
      MembersCompare(u, ms, a, b);
    }
    forall a, b, c | a in multiset(ms) && b in multiset(ms) && c in multiset(ms) && le(a, b) && le(b, c)
      ensures le(a, c)
    {
      MembersCompare(u, ms, a, b);
      MembersCompare(u, ms, b, c);
      MembersCompare(u, ms, a, c);
      if a != b && b != c {
        StringTransitive(FoldKey(u, a.path), FoldKey(u, b.path), FoldKey(u, c.path));
      }
    }
  }

  /** Within such a list, comparing members is comparing their keys, and the key identifies the member. */
  lemma MembersCompare(u: Unicode, ms: seq<Member>, a: Member, b: Member)
    requires forall i, j :: 0 <= i < j < |ms| ==> FoldKey(u, ms[i].path) != FoldKey(u, ms[j].path)
    requires a in ms && b in ms
    ensures MemberLe(u, a, b) || MemberLe(u, b, a)
    ensures MemberLe(u, a, b) <==> StringLe(FoldKey(u, a.path), FoldKey(u, b.path))
    ensures MemberLe(u, a, b) && MemberLe(u, b, a) ==> a == b
    ensures FoldKey(u, a.path) == FoldKey(u, b.path) ==> a == b
  {
    var i :| 0 <= i < |ms| && ms[i] == a;
    var j :| 0 <= j < |ms| && ms[j] == b;
    StringTotal(FoldKey(u, a.path), FoldKey(u, b.path));
    StringTotal(a.path, b.path);
  }

  /** Reordering the entries of an acceptable archive leaves it acceptable. */
  lemma AcceptableReordered(u: Unicode, es: seq<Entry>, fs: seq<Entry>, limits: Limits)
    requires multiset(es) == multiset(fs) && Acceptable(u, es, limits)
    ensures Acceptable(u, fs, limits)
  {
    assert |es| == |multiset(es)| == |multiset(fs)| == |fs|;
    forall i | 0 <= i < |fs|
      ensures EntryAllowed(u, fs[i], limits)
    {
      assert fs[i] in multiset(fs) && fs[i] in multiset(es);
      assert fs[i] in es;
    }
    var key := (e: Entry) => FoldKey(u, NormalPath(u, e));
    MapPermutes(key, es, fs);
    assert Keys(u, es) == Map(key, es) && Keys(u, fs) == Map(key, fs);
    DistinctIgnoresOrder(Keys(u, es), Keys(u, fs));
    var size := (e: Entry) => Size(e);
    MapPermutes(size, es, fs);
    assert Sizes(es) == Map(size, es) && Sizes(fs) == Map(size, fs);
    TotalPermutes(Sizes(es), Sizes(fs));
  }

  lemma CanonicalOrdered(u: Unicode, es: seq<Entry>, limits: Limits)
    requires Acceptable(u, es, limits)
    ensures OrderOn(MemberOrder(u), multiset(Members(u, es)))
  {
    var ms := Members(u, es);
    forall i, j | 0 <= i < j < |ms|
      ensures FoldKey(u, ms[i].path) != FoldKey(u, ms[j].path)
    {
      assert Keys(u, es)[i] != Keys(u, es)[j];
    }
    MembersOrdered(u, ms);
  }

  /** Whether an archive is accepted, and how its members are ordered, does not depend on the order of its entries. */
  lemma EntryOrderIsForgotten(u: Unicode, es: seq<Entry>, fs: seq<Entry>, limits: Limits)
    requires multiset(es) == multiset(fs)
    ensures Acceptable(u, es, limits) <==> Acceptable(u, fs, limits)
    ensures Acceptable(u, es, limits) ==> Canonical(u, es) == Canonical(u, fs)
  {
    if Acceptable(u, es, limits) {
      AcceptableReordered(u, es, fs, limits);
      CanonicalOrdered(u, es, limits);
      var member := (e: Entry) => Member(e, NormalPath(u, e));
      MapPermutes(member, es, fs);
      assert Members(u, es) == Map(member, es) && Members(u, fs) == Map(member, fs);
      SortIsCanonical(MemberOrder(u), Members(u, es), Members(u, fs));
    } else if Acceptable(u, fs, limits) {
      AcceptableReordered(u, fs, es, limits);
      assert false;
    }
  }
}
