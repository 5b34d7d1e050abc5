/** Extracting a validated archive: one system call at a time, any of which may fail. */
module ArchiveExtraction {
  import opened Common
  import opened Ordering
  import opened RecoveryArchive
  import Paths

  datatype Node = Dir | File(bytes: seq<Byte>) | Other

  /** What is below the destination directory; the destination itself is not listed. */
  type Tree = map<Path, Node>

  datatype Outcome = Done | Exists | Failed

  datatype Stats = Stats(members: nat, regularFiles: nat, unpackedBytes: int)

  datatype Space = Space(freeBytes: int, freeInodes: int, reserveBytes: int, reserveInodes: int)

  /** A proper ancestor below the destination. */
  predicate Above(p: Path, q: Path) { 0 < |p| < |q| && p == q[..|p|] }

  predicate IsDir(tree: Tree, p: Path) { p in tree && tree[p] == Dir }

  class Disk {
    var tree: Tree
    var calls: nat
    const fails: nat -> bool

    constructor (tree: Tree, fails: nat -> bool)
      ensures this.tree == tree && this.fails == fails
    {
      this.tree := tree;
      this.calls := 0;
      this.fails := fails;
    }

    ghost predicate Reliable() { forall c :: !fails(c) }

    method Mkdir(p: Path) returns (o: Outcome)
      requires p != []
      modifies this
      ensures o == Done ==> p !in old(tree) && tree == old(tree)[p := Dir] && (|p| == 1 || IsDir(tree, p[..|p| - 1]))
      ensures o != Done ==> tree == old(tree)
      ensures o == Exists ==> p in tree
      ensures Reliable() && (|p| == 1 || IsDir(old(tree), p[..|p| - 1])) ==> o == if p in old(tree) then Exists else Done
    {
      calls := calls + 1;
      if fails(calls - 1) {
        return Failed;
      }
      if p in tree {
        return Exists;
      }
      if |p| > 1 && !IsDir(tree, p[..|p| - 1]) {
        return Failed;
      }
      tree := tree[p := Dir];
      o := Done;
    }

    method Lstat(p: Path) returns (node: Option<Node>)
      requires p in tree
      modifies `calls
      ensures node.Some? ==> node.value == tree[p]
      ensures Reliable() ==> node.Some?
    {
      calls := calls + 1;
      node := if fails(calls - 1) then None else Some(tree[p]);
    }

    /** Exclusive creation of an empty file. */
    method Create(p: Path) returns (created: bool)
      requires p != []
      modifies this
      ensures created ==> p !in old(tree) && tree == old(tree)[p := File([])] && (|p| == 1 || IsDir(tree, p[..|p| - 1]))
      ensures !created ==> tree == old(tree)
      ensures Reliable() && (|p| == 1 || IsDir(old(tree), p[..|p| - 1])) ==> (created <==> p !in old(tree))
    {
      calls := calls + 1;
      created := !fails(calls - 1) && p !in tree && (|p| == 1 || IsDir(tree, p[..|p| - 1]));
      if created {
        tree := tree[p := File([])];
      }
    }

    method Append(p: Path, chunk: seq<Byte>) returns (written: bool)
      requires p in tree && tree[p].File?
      modifies this
      ensures tree == if written then old(tree)[p := File(old(tree)[p].bytes + chunk)] else old(tree)
      ensures Reliable() ==> written
    {
      calls := calls + 1;
      written := !fails(calls - 1);
      if written {
        tree := tree[p := File(tree[p].bytes + chunk)];
      }
    }
  }

  // ----- Parents -----

  /** What was there is still there, and new nodes are at the path or above it. */
  ghost predicate Grew(before: Tree, after: Tree, path: Path) {
    && (forall p :: p in before ==> p in after && after[p] == before[p])
    && (forall p :: p in after ==> p in before || p == path || Above(p, path))
  }

  /** The first n - 1 ancestors exist as directories; nothing else has changed. */
  ghost predicate ParentsMade(before: Tree, after: Tree, path: Path, n: nat) {
    && (forall p :: p in before ==> p in after && after[p] == before[p])
    && (forall p :: p in after ==> p in before || (Above(p, path) && |p| < n))
    && (forall p :: Above(p, path) && |p| < n ==> IsDir(after, p))
  }

  /** Nothing but directories stands above the path. */
  ghost predicate ParentsFree(tree: Tree, path: Path) {
    forall p :: Above(p, path) && p in tree ==> tree[p] == Dir
  }

  lemma ParentsMadeNext(before: Tree, middle: Tree, after: Tree, path: Path, n: nat)
    requires 0 < n < |path| && ParentsMade(before, middle, path, n) && IsDir(after, path[..n])
    requires after == middle || (path[..n] !in middle && after == middle[path[..n] := Dir])
    ensures ParentsMade(before, after, path, n + 1)
  {
    forall p | Above(p, path) && |p| < n + 1
      ensures IsDir(after, p)
    {
      if |p| == n {
        assert p == path[..n];
      }
    }
  }

  /** `_ensure_private_parents`. */
  method EnsurePrivateParents(disk: Disk, path: Path) returns (ready: bool)
    requires path != []
    modifies disk
    ensures Grew(old(disk.tree), disk.tree, path)
    ensures ready ==> ParentsMade(old(disk.tree), disk.tree, path, |path|)
    ensures disk.Reliable() ==> (ready <==> ParentsFree(old(disk.tree), path))
  {
    ghost var before := disk.tree;
    for n := 1 to |path|
      invariant ParentsMade(before, disk.tree, path, n)
    {
      ghost var middle := disk.tree;
      assert Above(path[..n], path) && path[..n][..n - 1] == path[..n - 1];
      assert n > 1 ==> Above(path[..n - 1], path);
      var made := disk.Mkdir(path[..n]);
      if made == Failed {
        return false;
      }
      if made == Exists {
        var node := disk.Lstat(path[..n]);
        if node != Some(Dir) {
          assert path[..n] in before;
          return false;
        }
      }
      ParentsMadeNext(before, middle, disk.tree, path, n);
    }
    ready := true;
  }

  // ----- One member -----

  /** The second reading yields this member's content, of the reviewed size. */
  predicate Yields(m: Member, again: seq<Member>, data: seq<Byte>) {
    var current := Lookup(again, Paths.Trimmed(m.name));
    && current.Some? && current.value.kind == Regular && current.value.size == m.size
    && current.value.data == data && |data| == m.size
  }

  /** One member has been extracted. */
  ghost predicate MemberMade(before: Tree, after: Tree, path: Path, m: Member, again: seq<Member>) {
    && Grew(before, after, path)
    && (forall p :: Above(p, path) ==> IsDir(after, p))
    && path in after
    && (m.kind == Directory ==> after[path] == Dir)
    && (m.kind == Regular ==> path !in before && after[path].File? && Yields(m, again, after[path].bytes))
  }

  /** Nothing stands in the member's way. */
  ghost predicate WayIsFree(tree: Tree, path: Path, m: Member) {
    && ParentsFree(tree, path)
    && (path in tree ==> m.kind == Directory && tree[path] == Dir)
  }

  /** Copies one file through exclusive creation, in reads of any size. */
  method WriteFile(disk: Disk, path: Path, size: int, data: seq<Byte>) returns (r: Result<(), ArchiveError>)
    requires path != [] && (|path| == 1 || IsDir(disk.tree, path[..|path| - 1]))
    modifies disk
    ensures Grew(old(disk.tree), disk.tree, path)
    ensures r.Ok? ==> path !in old(disk.tree) && |data| == size && disk.tree == old(disk.tree)[path := File(data)]
    ensures disk.Reliable() && |data| == size ==> (r.Ok? <==> path !in old(disk.tree))
  {
    ghost var before := disk.tree;
    var created := disk.Create(path);
    if !created {
      return Err(SystemError);
    }
    var written := 0;
    while written < |data|
      invariant written <= |data| && path !in before && disk.tree == before[path := File(data[..written])]
    {
      var n :| 0 < n <= |data| - written;
      if written + n > size {
        return Err(ArchiveChanged);
      }
      assert data[..written + n] == data[..written] + data[written..written + n];
      var ok := disk.Append(path, data[written..written + n]);
      if !ok {
        return Err(SystemError);
      }
      written := written + n;
    }
    assert data[..written] == data;
    if written != size {
      return Err(ArchiveChanged);
    }
    r := Ok(());
  }

  method ExtractDirectory(disk: Disk, path: Path) returns (r: Result<(), ArchiveError>)
    requires path != [] && (|path| == 1 || IsDir(disk.tree, path[..|path| - 1]))
    modifies disk
    ensures Grew(old(disk.tree), disk.tree, path)
    ensures r.Ok? ==> IsDir(disk.tree, path)
    ensures disk.Reliable() ==> (r.Ok? <==> path in old(disk.tree) ==> old(disk.tree)[path] == Dir)
  {
    var made := disk.Mkdir(path);
    if made == Failed {
      return Err(SystemError);
    }
    if made == Exists {
      var node := disk.Lstat(path);
      if node != Some(Dir) {
        return Err(UnsafeTarget);
      }
    }
    r := Ok(());
  }

  lemma GrewTwice(before: Tree, middle: Tree, after: Tree, path: Path)
    requires Grew(before, middle, path) && Grew(middle, after, path)
    ensures Grew(before, after, path)
  {}

  lemma ParentIsMade(before: Tree, after: Tree, path: Path)
    requires path != [] && ParentsMade(before, after, path, |path|)
    ensures |path| == 1 || IsDir(after, path[..|path| - 1])
    ensures path in after <==> path in before
  {
    if |path| > 1 {
      assert Above(path[..|path| - 1], path);
    }
  }

  /** One turn of the extraction loop. */
  method ExtractMember(disk: Disk, path: Path, m: Member, again: seq<Member>) returns (r: Result<(), ArchiveError>)
    requires path != [] && m.kind != Special
    modifies disk
    ensures Grew(old(disk.tree), disk.tree, path)
    ensures r.Ok? ==> MemberMade(old(disk.tree), disk.tree, path, m, again)
    ensures disk.Reliable() && (m.kind == Regular ==> exists data :: Yields(m, again, data)) ==>
              (r.Ok? <==> WayIsFree(old(disk.tree), path, m))
  {
    ghost var before := disk.tree;
    var ready := EnsurePrivateParents(disk, path);
    if !ready {
      return Err(UnsafeTarget);
    }
    ghost var middle := disk.tree;
    ParentIsMade(before, middle, path);
    if m.kind == Directory {
      r := ExtractDirectory(disk, path);
    } else {
      var current := Lookup(again, Paths.Trimmed(m.name));
      if current.None? || current.value.size != m.size || current.value.kind != Regular {
        return Err(ArchiveChanged);
      }
      r := WriteFile(disk, path, m.size, current.value.data);
    }
    GrewTwice(before, middle, disk.tree, path);
  }

  // ----- The whole extraction -----

  /** At or above some member. */
  ghost predicate Reached(paths: seq<Path>, p: Path) {
    exists i :: 0 <= i < |paths| && (p == paths[i] || Above(p, paths[i]))
  }

  /** What one member ends up as. */
  ghost predicate Placed(before: Tree, tree: Tree, path: Path, m: Member, again: seq<Member>) {
    && path in tree
    && (forall p :: Above(p, path) ==> IsDir(tree, p))
    && (m.kind == Directory ==> tree[path] == Dir)
    && (m.kind == Regular ==> path !in before && tree[path].File? && Yields(m, again, tree[path].bytes))
  }

  /** The nodes are those that were there, unchanged, plus exactly the paths at or above a member. */
  ghost predicate Spans(before: Tree, tree: Tree, paths: seq<Path>) {
    && (forall p :: p in tree <==> p in before || Reached(paths, p))
    && (forall p :: p in before ==> tree[p] == before[p])
  }

  ghost predicate AllPlaced(before: Tree, tree: Tree, ms: seq<Member>, root: string, again: seq<Member>) {
    forall i :: 0 <= i < |ms| ==> Placed(before, tree, PathOf(ms[i], root), ms[i], again)
  }

  /** The tree is what was there before, plus exactly the members and the directories above them. */
  ghost predicate Extracted(before: Tree, tree: Tree, ms: seq<Member>, root: string, again: seq<Member>) {
    Spans(before, tree, PathsOf(ms, root)) && AllPlaced(before, tree, ms, root, again)
  }

  lemma PlacedNext(before: Tree, middle: Tree, after: Tree, path: Path, m: Member, again: seq<Member>)
    requires Placed(before, middle, path, m, again)
    requires forall p :: p in middle ==> p in after && after[p] == middle[p]
    ensures Placed(before, after, path, m, again)
  {}

  lemma ReachedNext(paths: seq<Path>, path: Path, p: Path)
    ensures Reached(paths + [path], p) <==> Reached(paths, p) || p == path || Above(p, path)
  {
    var more := paths + [path];
    assert more[|paths|] == path;
    if Reached(paths, p) {
      var i :| 0 <= i < |paths| && (p == paths[i] || Above(p, paths[i]));
      assert more[i] == paths[i];
    }
    if Reached(more, p) {
      var i :| 0 <= i < |more| && (p == more[i] || Above(p, more[i]));
      assert i < |paths| ==> more[i] == paths[i];
    }
  }

  lemma SpansNext(before: Tree, middle: Tree, after: Tree, paths: seq<Path>, path: Path)
    requires Spans(before, middle, paths) && Grew(middle, after, path)
    requires path in after && forall p :: Above(p, path) ==> IsDir(after, p)
    ensures Spans(before, after, paths + [path])
  {
    forall p
      ensures p in after <==> p in before || Reached(paths + [path], p)
    {
      ReachedNext(paths, path, p);
    }
  }

  lemma AllPlacedNext(before: Tree, middle: Tree, after: Tree, ms: seq<Member>, m: Member, root: string, again: seq<Member>)
    requires AllPlaced(before, middle, ms, root, again) && Spans(before, middle, PathsOf(ms, root))
    requires MemberMade(middle, after, PathOf(m, root), m, again)
    ensures AllPlaced(before, after, ms + [m], root, again)
  {
    var more := ms + [m];
    forall j | 0 <= j < |more|
      ensures Placed(before, after, PathOf(more[j], root), more[j], again)
    {
      if j < |ms| {
        PlacedNext(before, middle, after, PathOf(ms[j], root), ms[j], again);
      }
    }
  }

  lemma ExtractedNext(before: Tree, middle: Tree, after: Tree, ms: seq<Member>, i: nat, root: string, again: seq<Member>)
    requires i < |ms| && Extracted(before, middle, ms[..i], root, again)
    requires MemberMade(middle, after, PathOf(ms[i], root), ms[i], again)
    ensures Extracted(before, after, ms[..i + 1], root, again)
  {
    PrefixNext(ms, i, root);
    SpansNext(before, middle, after, PathsOf(ms[..i], root), PathOf(ms[i], root));
    AllPlacedNext(before, middle, after, ms[..i], ms[i], root, again);
  }

  /** Everything that is new lies below the root. */
  ghost predicate NewIsBelow(before: Tree, after: Tree, root: string) {
    && (forall p :: p in before ==> p in after && after[p] == before[p])
    && (forall p :: p in after && p !in before ==> p != [] && p[0] == root)
  }

  lemma NewIsBelowNext(before: Tree, middle: Tree, after: Tree, path: Path, root: string)
    requires NewIsBelow(before, middle, root) && Grew(middle, after, path) && path != [] && path[0] == root
    ensures NewIsBelow(before, after, root)
  {}

  predicate HasSpace(space: Space, bytes: int, files: nat) {
    && space.freeBytes >= bytes + space.reserveBytes
    && (space.freeInodes == 0 || space.freeInodes >= files + space.reserveInodes)
  }

  /** What is left after extracting covers both reserves; a file system that counts no inodes passes on bytes. */
  lemma SpaceExactly(space: Space, bytes: int, files: nat)
    ensures HasSpace(space, bytes, files) <==>
              && space.freeBytes - bytes >= space.reserveBytes
              && (space.freeInodes != 0 ==> space.freeInodes - files >= space.reserveInodes)
  {}

  /** Some file of the archive is an ancestor of another member. */
  ghost predicate FileAboveMember(ms: seq<Member>, root: string) {
    exists i, j :: 0 <= i < |ms| && 0 <= j < |ms| && ms[i].kind == Regular && Above(PathOf(ms[i], root), PathOf(ms[j], root))
  }

  /** Each file member streams as many bytes as it declares. */
  ghost predicate Honest(ms: seq<Member>) {
    forall i :: 0 <= i < |ms| && ms[i].kind == Regular ==> |ms[i].data| == ms[i].size
  }

  /** In an empty destination every node is there because of some member. */
  lemma MemberAt(tree: Tree, ms: seq<Member>, i: nat, root: string, p: Path) returns (j: nat)
    requires i < |ms| && Extracted(map[], tree, ms[..i], root, ms) && p in tree
    ensures j < i && (p == PathOf(ms[j], root) || Above(p, PathOf(ms[j], root)))
    ensures Placed(map[], tree, PathOf(ms[j], root), ms[j], ms)
  {
    var paths := PathsOf(ms[..i], root);
    assert Reached(paths, p);
    j :| 0 <= j < i && (p == paths[j] || Above(p, paths[j]));
    assert ms[..i][j] == ms[j];
  }

  /** In an empty destination only a file above another member can be in the way. */
  lemma BlockedByFile(tree: Tree, ms: seq<Member>, i: nat, root: string)
    requires i < |ms| && Extracted(map[], tree, ms[..i], root, ms) && AllAllowed(ms, root) && Distinct(PathsOf(ms, root))
    requires !WayIsFree(tree, PathOf(ms[i], root), ms[i])
    ensures FileAboveMember(ms, root)
  {
    var path := PathOf(ms[i], root);
    if !ParentsFree(tree, path) {
      var p :| Above(p, path) && p in tree && tree[p] != Dir;
      var j := MemberAt(tree, ms, i, root, p);
      assert MemberAllowed(ms[j], root);
      assert ms[j].kind == Regular && Above(PathOf(ms[j], root), PathOf(ms[i], root));
    } else {
      var j := MemberAt(tree, ms, i, root, path);
      assert PathsOf(ms, root)[j] != PathsOf(ms, root)[i];
      assert MemberAllowed(ms[i], root);
      assert ms[i].kind == Regular && Above(PathOf(ms[i], root), PathOf(ms[j], root));
    }
  }

  /** After a successful extraction no file is an ancestor of another member. */
  lemma NoFileAboveMember(before: Tree, tree: Tree, ms: seq<Member>, root: string, again: seq<Member>)
    requires Extracted(before, tree, ms, root, again)
    ensures !FileAboveMember(ms, root)
  {
    forall i, j | 0 <= i < |ms| && 0 <= j < |ms| && ms[i].kind == Regular
      ensures !Above(PathOf(ms[i], root), PathOf(ms[j], root))
    {
      assert Placed(before, tree, PathOf(ms[i], root), ms[i], again);
      assert Placed(before, tree, PathOf(ms[j], root), ms[j], again);
    }
  }

  lemma HonestYields(ms: seq<Member>, i: nat, root: string)
    requires i < |ms| && AllAllowed(ms, root) && Distinct(PathsOf(ms, root)) && Honest(ms) && ms[i].kind == Regular
    ensures Yields(ms[i], ms, ms[i].data)
  {
    LookupFindsReviewed(ms, i, root);
  }

  /** The archive read twice the same, whole, into an empty destination that never fails. */
  ghost predicate Undisturbed(disk: Disk, before: Tree, ms: seq<Member>, again: seq<Member>) {
    disk.Reliable() && before == map[] && again == ms && Honest(ms)
  }

  method ExtractMembers(disk: Disk, ms: seq<Member>, again: seq<Member>, root: string) returns (r: Result<(), ArchiveError>)
    requires AllAllowed(ms, root) && Distinct(PathsOf(ms, root))
    modifies disk
    ensures r.Ok? ==> Extracted(old(disk.tree), disk.tree, ms, root, again)
    ensures NewIsBelow(old(disk.tree), disk.tree, root)
    ensures Undisturbed(disk, old(disk.tree), ms, again) ==> (r.Ok? <==> !FileAboveMember(ms, root))
  {
    ghost var before := disk.tree;
    for i := 0 to |ms|
      invariant Extracted(before, disk.tree, ms[..i], root, again) && NewIsBelow(before, disk.tree, root)
    {
      ghost var middle := disk.tree;
      var m := ms[i];
      RecoveryArchive.SafeMemberStaysInside(m.name, root);
      var path := PathOf(m, root);
      if Undisturbed(disk, before, ms, again) && m.kind == Regular {
        HonestYields(ms, i, root);
      }
      r := ExtractMember(disk, path, m, again);
      NewIsBelowNext(before, middle, disk.tree, path, root);
      if r.Err? {
        if Undisturbed(disk, before, ms, again) {
          BlockedByFile(middle, ms, i, root);
        }
        return;
      }
      ExtractedNext(before, middle, disk.tree, ms, i, root, again);
    }
    assert ms[..|ms|] == ms;
    NoFileAboveMember(before, disk.tree, ms, root, again);
    r := Ok(());
  }

  /** `extract_archive`. Success leaves exactly the members and the directories above them; whatever happens,
      nothing that was there is changed and everything new lies below the root. On an unchanged archive and an
      empty, faultless destination it succeeds exactly when the archive is acceptable, there is space, and no
      file is an ancestor of another member, which validation does not check. */
  method ExtractArchive(disk: Disk, ms: seq<Member>, again: seq<Member>, root: string, maxMembers: nat, maxBytes: nat, space: Space)
    returns (r: Result<Stats, ArchiveError>)
    modifies disk
    ensures r.Ok? ==> Acceptable(ms, root, maxMembers, maxBytes) && Extracted(old(disk.tree), disk.tree, ms, root, again)
    ensures r.Ok? ==> r.value == Stats(|ms|, RegularCount(ms), Total(RegularSizes(ms)))
    ensures NewIsBelow(old(disk.tree), disk.tree, root)
    ensures Undisturbed(disk, old(disk.tree), ms, again) ==>
              (r.Ok? <==> && Acceptable(ms, root, maxMembers, maxBytes)
                          && HasSpace(space, Total(RegularSizes(ms)), RegularCount(ms)) && !FileAboveMember(ms, root))
  {
    var validated := ValidatedMembers(ms, root, maxMembers, maxBytes);
    if validated.Err? {
      return Err(validated.error);
    }
    var (regular, bytes) := validated.value;
    if !HasSpace(space, bytes, regular) {
      return Err(NoSpace);
    }
    var done := ExtractMembers(disk, ms, again, root);
    r := if done.Ok? then Ok(Stats(|ms|, regular, bytes)) else Err(done.error);
  }

  /** A one-letter root, a file in it, and a path below that file. */
  lemma LetterPaths(root: string, file: string, below: string)
    requires root == "r" && file == "r/a" && below == "r/a/b"
    ensures SafeMember(root, root) == Some([root])
    ensures SafeMember(file, root) == Some([root, "a"]) && SafeMember(below, root) == Some([root, "a", "b"])
  {
    assert Paths.Join([root]) == root && Paths.Join(["a"]) == "a" && Paths.Join(["b"]) == "b";
    assert [root, "a"][1..] == ["a"] && [root, "a", "b"][1..] == ["a", "b"] && ["a", "b"][1..] == ["b"];
    assert Paths.Join([root, "a"]) == file;
    assert Paths.Join(["a", "b"]) == "a/b";
    assert Paths.Join([root, "a", "b"]) == below;
    PathOfJoin([root], root, Member(root, Directory, 0, false, []));
    PathOfJoin([root, "a"], root, Member(file, Regular, 0, false, []));
    PathOfJoin([root, "a", "b"], root, Member(below, Regular, 0, false, []));
  }

  lemma {:induction false} ZerosTotal(s: seq<int>)
    requires forall i :: 0 <= i < |s| ==> s[i] == 0
    ensures Total(s) == 0
  {
    if s != [] {
      ZerosTotal(s[..|s| - 1]);
    }
  }

  /** Validation accepts an archive that extraction cannot finish: a directory, a file in it, and a file
      below that file. */
  lemma FileBelowFileIsAccepted(root: string, file: string, below: string, ms: seq<Member>)
    requires root == "r" && file == "r/a" && below == "r/a/b"
    requires ms == [Member(root, Directory, 0, false, []), Member(file, Regular, 0, false, []),
                    Member(below, Regular, 0, false, [])]
    ensures Acceptable(ms, root, 3, 0) && FileAboveMember(ms, root)
  {
    LetterPaths(root, file, below);
    var paths := PathsOf(ms, root);
    assert paths[0] == [root] && paths[1] == [root, "a"] && paths[2] == [root, "a", "b"];
    ZerosTotal(RegularSizes(ms));
    assert ms[1].kind == Regular && Above(PathOf(ms[1], root), PathOf(ms[2], root));
  }

  // ----- Bytes -----

  function NodeSize(tree: Tree, p: Path): int { if p in tree && tree[p].File? then |tree[p].bytes| else 0 }

  function NodeSizes(tree: Tree, paths: seq<Path>): seq<int> { Map((p: Path) => NodeSize(tree, p), paths) }

  /** The bytes in the extracted files are the validated sum, within the limit. */
  lemma WrittenBytes(before: Tree, tree: Tree, ms: seq<Member>, root: string, again: seq<Member>, maxMembers: nat, maxBytes: nat)
    requires Acceptable(ms, root, maxMembers, maxBytes) && Extracted(before, tree, ms, root, again)
    ensures Total(NodeSizes(tree, PathsOf(ms, root))) == Total(RegularSizes(ms)) <= maxBytes
  {
    forall i | 0 <= i < |ms|
      ensures NodeSizes(tree, PathsOf(ms, root))[i] == RegularSizes(ms)[i]
    {
      assert Placed(before, tree, PathOf(ms[i], root), ms[i], again);
      assert MemberAllowed(ms[i], root);
    }
    assert NodeSizes(tree, PathsOf(ms, root)) == RegularSizes(ms);
  }
}
