/** Validating and extracting a recovery archive below one component root.

    A tar member is a value; the extracted tree maps paths, as component lists below the destination, to nodes.
    The system calls that fail are given by an oracle. */
module RecoveryArchive {
  import opened Common
  import opened Ordering
  import opened Paths

  type Path = seq<string>

  datatype Kind = Directory | Regular | Special

  /** `sparse` covers the sparse map and GNU sparse headers. */
  datatype Member = Member(name: string, kind: Kind, size: int, sparse: bool, data: seq<Byte>)

  datatype ArchiveError = UnsafeMember | DuplicateMember | UnsupportedMember | LimitExceeded | RootMissing
                        | NoSpace | UnsafeTarget | ArchiveChanged | SystemError

  // ----- Member paths -----

  /** `_safe_member`. */
  function SafeMember(name: string, root: string): Option<Path> {
    if name == "" || '\\' in name || HasControl(name) then None
    else
      var trimmed := Trimmed(name);
      var parts := Parts(trimmed);
      if (trimmed != "" && trimmed[0] == '/') || ".." in parts || parts == [] || parts[0] != root then None
      else Some(parts)
  }

  function PathOf(m: Member, root: string): Path {
    var p := SafeMember(m.name, root);
    if p.Some? then p.value else []
  }

  /** An accepted path lies below the root: relative components only, the first of them the root. */
  lemma SafeMemberStaysInside(name: string, root: string)
    requires SafeMember(name, root).Some?
    ensures var p := SafeMember(name, root).value; p != [] && p[0] == root && Components(p) && ".." !in p
  {
    PartsAreComponents(Trimmed(name));
  }

  lemma JoinInjective(a: Path, b: Path)
    requires Components(a) && Components(b) && Join(a) == Join(b)
    ensures a == b
  {
    PartsOfJoin(a);
    PartsOfJoin(b);
  }

  lemma PathOfJoin(parts: Path, root: string, m: Member)
    requires Components(parts) && parts != [] && parts[0] == root && ".." !in parts && m.name == Join(parts)
    requires '\\' !in m.name && !HasControl(m.name) && m.name != "" && m.name[0] != '/' && m.name[|m.name| - 1] != '/'
    ensures SafeMember(m.name, root) == Some(parts) && PathOf(m, root) == parts
  {
    PartsOfJoin(parts);
  }

  // ----- Validation -----

  predicate MemberAllowed(m: Member, root: string) {
    SafeMember(m.name, root).Some? && m.kind != Special && m.size >= 0 && !m.sparse
  }

  function RegularSize(m: Member): int { if m.kind == Regular then m.size else 0 }

  function RegularSizes(ms: seq<Member>): seq<int> { Map((m: Member) => RegularSize(m), ms) }

  function RegularCount(ms: seq<Member>): nat {
    if ms == [] then 0 else RegularCount(ms[..|ms| - 1]) + if ms[|ms| - 1].kind == Regular then 1 else 0
  }

  function PathsOf(ms: seq<Member>, root: string): seq<Path> { Map((m: Member) => PathOf(m, root), ms) }

  ghost predicate AllAllowed(ms: seq<Member>, root: string) {
    forall i :: 0 <= i < |ms| ==> MemberAllowed(ms[i], root)
  }

  /** Which archives are accepted. */
  ghost predicate Acceptable(ms: seq<Member>, root: string, maxMembers: nat, maxBytes: nat) {
    && |ms| <= maxMembers && AllAllowed(ms, root) && Distinct(PathsOf(ms, root))
    && Total(RegularSizes(ms)) <= maxBytes && [root] in PathsOf(ms, root)
  }

  ghost predicate NamedBy(n: string, paths: seq<Path>) { exists i :: 0 <= i < |paths| && Join(paths[i]) == n }

  /** The canonical texts seen so far stand for the paths seen so far. */
  ghost predicate Names(names: set<string>, paths: seq<Path>) {
    forall n :: n in names <==> NamedBy(n, paths)
  }

  lemma NamesNext(names: set<string>, paths: seq<Path>, p: Path)
    requires Names(names, paths)
    ensures Names(names + {Join(p)}, paths + [p])
  {
    var next, more := names + {Join(p)}, paths + [p];
    assert more[|paths|] == p;
    forall n
      ensures n in next <==> NamedBy(n, more)
    {
      if n in names {
        var i :| 0 <= i < |paths| && Join(paths[i]) == n;
        assert more[i] == paths[i];
      }
      if NamedBy(n, more) && n != Join(p) {
        var i :| 0 <= i < |more| && Join(more[i]) == n;
        assert paths[i] == more[i];
      }
    }
  }

  /** What the loop knows of the members it has read. */
  ghost predicate Reviewed(ms: seq<Member>, root: string, maxMembers: nat, maxBytes: nat, names: set<string>, bytes: int) {
    && |ms| <= maxMembers && AllAllowed(ms, root) && Distinct(PathsOf(ms, root))
    && bytes == Total(RegularSizes(ms)) && bytes <= maxBytes && Names(names, PathsOf(ms, root))
  }

  lemma PrefixNext(ms: seq<Member>, i: nat, root: string)
    requires i < |ms|
    ensures ms[..i + 1] == ms[..i] + [ms[i]]
    ensures PathsOf(ms[..i + 1], root) == PathsOf(ms[..i], root) + [PathOf(ms[i], root)]
    ensures Total(RegularSizes(ms[..i + 1])) == Total(RegularSizes(ms[..i])) + RegularSize(ms[i])
    ensures RegularCount(ms[..i + 1]) == RegularCount(ms[..i]) + if ms[i].kind == Regular then 1 else 0
  {
    var more := ms[..i + 1];
    assert more[..i] == ms[..i] && more[i] == ms[i];
    assert RegularSizes(more)[..i] == RegularSizes(ms[..i]);
  }

  lemma PathsAreComponents(ms: seq<Member>, root: string)
    requires AllAllowed(ms, root)
    ensures forall i :: 0 <= i < |ms| ==> Components(PathsOf(ms, root)[i])
  {
    forall i | 0 <= i < |ms|
      ensures Components(PathsOf(ms, root)[i])
    {
      SafeMemberStaysInside(ms[i].name, root);
    }
  }

  /** A text is new exactly when its path is. */
  lemma NewName(names: set<string>, ms: seq<Member>, root: string, m: Member)
    requires AllAllowed(ms, root) && Names(names, PathsOf(ms, root)) && SafeMember(m.name, root).Some?
    ensures Join(PathOf(m, root)) in names <==> PathOf(m, root) in PathsOf(ms, root)
  {
    var paths, p := PathsOf(ms, root), PathOf(m, root);
    PathsAreComponents(ms, root);
    SafeMemberStaysInside(m.name, root);
    if Join(p) in names {
      var i :| 0 <= i < |paths| && Join(paths[i]) == Join(p);
      JoinInjective(paths[i], p);
    }
  }

  lemma ReviewedNext(ms: seq<Member>, i: nat, root: string, maxMembers: nat, maxBytes: nat, names: set<string>, bytes: int)
    requires i < |ms| && Reviewed(ms[..i], root, maxMembers, maxBytes, names, bytes) && MemberAllowed(ms[i], root)
    requires PathOf(ms[i], root) !in PathsOf(ms[..i], root)
    requires i + 1 <= maxMembers && bytes + RegularSize(ms[i]) <= maxBytes
    ensures Reviewed(ms[..i + 1], root, maxMembers, maxBytes, names + {Join(PathOf(ms[i], root))}, bytes + RegularSize(ms[i]))
  {
    PrefixNext(ms, i, root);
    NamesNext(names, PathsOf(ms[..i], root), PathOf(ms[i], root));
  }

  lemma BytesSoFar(ms: seq<Member>, i: nat, root: string)
    requires i < |ms| && AllAllowed(ms, root)
    ensures Total(RegularSizes(ms[..i + 1])) <= Total(RegularSizes(ms))
  {
    forall j | 0 <= j < |ms|
      ensures RegularSizes(ms)[j] >= 0
    {
      assert MemberAllowed(ms[j], root);
    }
    TotalGrows(RegularSizes(ms), i + 1);
    assert RegularSizes(ms)[..i + 1] == RegularSizes(ms[..i + 1]);
  }

  lemma PathIsNew(ms: seq<Member>, i: nat, root: string)
    requires i < |ms| && Distinct(PathsOf(ms, root))
    ensures PathOf(ms[i], root) !in PathsOf(ms[..i], root)
  {
    forall j | 0 <= j < i
      ensures PathsOf(ms[..i], root)[j] != PathOf(ms[i], root)
    {
      assert PathsOf(ms, root)[j] != PathsOf(ms, root)[i];
    }
  }

  /** In an acceptable archive every member passes where it stands. */
  lemma AllPass(ms: seq<Member>, i: nat, root: string, maxMembers: nat, maxBytes: nat)
    requires i < |ms| && Acceptable(ms, root, maxMembers, maxBytes)
    ensures MemberAllowed(ms[i], root) && PathOf(ms[i], root) !in PathsOf(ms[..i], root)
    ensures i + 1 <= maxMembers && Total(RegularSizes(ms[..i + 1])) <= maxBytes
  {
    BytesSoFar(ms, i, root);
    PathIsNew(ms, i, root);
    assert MemberAllowed(ms[i], root);
  }

  lemma RootText(ms: seq<Member>, root: string, names: set<string>)
    requires AllAllowed(ms, root) && Names(names, PathsOf(ms, root))
    ensures root in names <==> [root] in PathsOf(ms, root)
  {
    var paths := PathsOf(ms, root);
    assert Join([root]) == root;
    if [root] in paths {
      var i :| 0 <= i < |paths| && paths[i] == [root];
      assert Join(paths[i]) == root;
    }
    if root in names {
      var i :| 0 <= i < |paths| && Join(paths[i]) == root;
      SafeMemberStaysInside(ms[i].name, root);
      assert Component(paths[i][0]);
      JoinInjective(paths[i], [root]);
    }
  }

  /** `_validated_members` accepts exactly the acceptable archives. */
  method ValidatedMembers(ms: seq<Member>, root: string, maxMembers: nat, maxBytes: nat)
    returns (r: Result<(nat, int), ArchiveError>)
    ensures r.Ok? <==> Acceptable(ms, root, maxMembers, maxBytes)
    ensures r.Ok? ==> r.value == (RegularCount(ms), Total(RegularSizes(ms)))
  {
    var names: set<string> := {};
    var regular, bytes := 0, 0;
    for i := 0 to |ms|
      invariant Reviewed(ms[..i], root, maxMembers, maxBytes, names, bytes) && regular == RegularCount(ms[..i])
    {
      if Acceptable(ms, root, maxMembers, maxBytes) {
        AllPass(ms, i, root, maxMembers, maxBytes);
      }
      PrefixNext(ms, i, root);
      var m := ms[i];
      var path := SafeMember(m.name, root);
      if path.None? {
        return Err(UnsafeMember);
      }
      NewName(names, ms[..i], root, m);
      if Join(path.value) in names {
        return Err(DuplicateMember);
      }
      if m.kind == Special || m.size < 0 || m.sparse {
        return Err(UnsupportedMember);
      }
      if m.kind == Regular {
        regular := regular + 1;
      }
      if i + 1 > maxMembers || bytes + RegularSize(m) > maxBytes {
        return Err(LimitExceeded);
      }
      ReviewedNext(ms, i, root, maxMembers, maxBytes, names, bytes);
      names := names + {Join(path.value)};
      bytes := bytes + RegularSize(m);
    }
    assert ms[..|ms|] == ms;
    RootText(ms, root, names);
    if root !in names {
      return Err(RootMissing);
    }
    r := Ok((regular, bytes));
  }

  // ----- The second reading of the archive -----

  /** The member listed last under this name, trailing slashes aside. */
  function Lookup(again: seq<Member>, key: string): Option<Member> {
    if again == [] then None
    else if Trimmed(again[|again| - 1].name) == key then Some(again[|again| - 1])
    else Lookup(again[..|again| - 1], key)
  }

  lemma {:induction false} LookupFinds(again: seq<Member>, i: nat)
    requires i < |again|
    requires forall j :: 0 <= j < |again| && j != i ==> Trimmed(again[j].name) != Trimmed(again[i].name)
    ensures Lookup(again, Trimmed(again[i].name)) == Some(again[i])
  {
    if i < |again| - 1 {
      LookupFinds(again[..|again| - 1], i);
    }
  }

  /** If the archive has not changed, every lookup finds the member that was reviewed. */
  lemma LookupFindsReviewed(ms: seq<Member>, i: nat, root: string)
    requires i < |ms| && AllAllowed(ms, root) && Distinct(PathsOf(ms, root))
    ensures Lookup(ms, Trimmed(ms[i].name)) == Some(ms[i])
  {
    forall j | 0 <= j < |ms| && j != i
      ensures Trimmed(ms[j].name) != Trimmed(ms[i].name)
    {
      assert PathsOf(ms, root)[j] != PathsOf(ms, root)[i];
      assert MemberAllowed(ms[j], root) && MemberAllowed(ms[i], root);
    }
    LookupFinds(ms, i);
  }
}
