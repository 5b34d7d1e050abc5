/** Creating and verifying the checksum ledger of a directory tree. */
module ChecksumLedger {
  import opened Common
  import opened Ordering
  import opened Paths
  import opened LedgerText

  type Path = seq<string>

  datatype Node = Dir | File(data: seq<Byte>, writable: bool) | Other

  /** What is below the root directory. */
  type Tree = map<Path, Node>

  datatype LedgerError = EntryLimit | NotRegular | InvalidPath | FileLimit | LedgerMissing | LedgerWritable
                       | InvalidSize | InvalidText | WrongInventory | WrongDigest | AlreadyExists | TemporaryExists

  /** UTF-8 and SHA-256, as far as the ledger depends on them. */
  datatype Codec = Codec(encode: string -> seq<Byte>, decode: seq<Byte> -> Option<string>, hash: seq<Byte> -> string)

  ghost predicate Lawful(c: Codec) {
    && (forall s :: c.decode(c.encode(s)) == Some(s))
    && (forall s :: s != "" ==> c.encode(s) != [])
    && (forall d :: IsSha256(c.hash(d)))
  }

  const MAX_LEDGER_BYTES: nat := 16 * 1024 * 1024
  const RELEASE_LEDGER: string := "RELEASE_SHA256SUMS"

  // ----- Trees -----

  /** Every node has a proper name and stands in a directory. */
  ghost predicate WellFormed(tree: Tree) {
    forall p :: p in tree ==>
      p != [] && Components(p) && ".." !in p && (|p| > 1 ==> p[..|p| - 1] in tree && tree[p[..|p| - 1]] == Dir)
  }

  /** What one directory lists. */
  function Children(tree: Tree, dir: Path): set<Path> {
    set p | p in tree && p != [] && p[..|p| - 1] == dir
  }

  predicate Listed(tree: Tree, ledger: string, p: Path) { p in tree && tree[p].File? && p != [ledger] }

  function Texts(tree: Tree, ledger: string, some: set<Path>): set<string> {
    set p | p in some && Listed(tree, ledger, p) :: Join(p)
  }

  function ContentAt(tree: Tree, text: string): seq<Byte> {
    var p := Parts(text);
    if p in tree && tree[p].File? then tree[p].data else []
  }

  /** The contents of these files, by path text. */
  function Contents(tree: Tree, texts: set<string>): map<string, seq<Byte>> {
    map t | t in texts :: ContentAt(tree, t)
  }

  /** All regular files but the ledger. */
  function Files(tree: Tree, ledger: string): map<string, seq<Byte>> {
    Contents(tree, Texts(tree, ledger, tree.Keys))
  }

  /** Exactly the regular files are in the inventory, each under its own text. */
  lemma FilesAreTheRegularFiles(tree: Tree, ledger: string, p: Path)
    requires WellFormed(tree) && p in tree
    ensures Listed(tree, ledger, p) ==> Join(p) in Files(tree, ledger) && Files(tree, ledger)[Join(p)] == tree[p].data
    ensures Join(p) in Files(tree, ledger) ==> Listed(tree, ledger, p)
  {
    PartsOfJoin(p);
    if Join(p) in Files(tree, ledger) {
      var q :| q in tree.Keys && Listed(tree, ledger, q) && Join(q) == Join(p);
      PartsOfJoin(q);
    }
  }

  /** The trees whose inventory is taken. */
  ghost predicate Inventoried(tree: Tree, ledger: string) {
    && |tree.Keys| <= 2 * MAX_LEDGER_FILES && |Texts(tree, ledger, tree.Keys)| <= MAX_LEDGER_FILES
    && AllPass(tree, ledger, tree.Keys)
  }

  ghost predicate AllPass(tree: Tree, ledger: string, some: set<Path>)
    requires some <= tree.Keys
  {
    forall p :: p in some ==> EntryPasses(tree, ledger, p)
  }

  predicate EntryPasses(tree: Tree, ledger: string, p: Path)
    requires p in tree
  {
    tree[p] != Other && (Listed(tree, ledger, p) ==> ValidPath(Join(p), ledger))
  }

  // ----- The walk -----

  /** The entries of the directories already read. */
  ghost function Seen(tree: Tree, done: set<Path>): set<Path> {
    set p | p in tree && p != [] && p[..|p| - 1] in done
  }

  predicate IsDirectory(tree: Tree, d: Path) { d == [] || (d in tree && tree[d] == Dir) }

  /** What the walk knows between directories: each known directory is either read or pending. */
  ghost predicate Walked(tree: Tree, done: set<Path>, pending: seq<Path>) {
    && ([] in done || [] in pending)
    && (forall d :: d in done ==> d == [] || d in Seen(tree, done))
    && (forall d :: d in pending ==> d !in done && IsDirectory(tree, d) && (d == [] || d in Seen(tree, done)))
    && Distinct(pending)
    && (forall p :: p in Seen(tree, done) && tree[p] == Dir ==> p in done || p in pending)
  }

  /** With nothing pending, everything has been seen. */
  lemma {:induction false} EverythingSeen(tree: Tree, done: set<Path>, p: Path)
    requires WellFormed(tree) && Walked(tree, done, []) && p in tree
    ensures p in Seen(tree, done)
    decreases |p|
  {
    if |p| > 1 {
      EverythingSeen(tree, done, p[..|p| - 1]);
    } else {
      assert p[..|p| - 1] == [];
    }
  }

  lemma SubsetSize<T>(a: set<T>, b: set<T>)
    requires a <= b
    ensures |a| <= |b|
  {
    assert b == a + (b - a) && a !! b - a;
  }

  lemma TextsGrow(tree: Tree, ledger: string, some: set<Path>)
    requires some <= tree.Keys
    ensures |some| <= |tree.Keys| && |Texts(tree, ledger, some)| <= |Texts(tree, ledger, tree.Keys)|
  {
    SubsetSize(some, tree.Keys);
    SubsetSize(Texts(tree, ledger, some), Texts(tree, ledger, tree.Keys));
  }

  /** The entries looked at have passed the checks, and the inventory holds their regular files. */
  ghost predicate Taken(tree: Tree, ledger: string, some: set<Path>, inventory: map<string, seq<Byte>>, count: nat) {
    && some <= tree.Keys && count == |some| && inventory == Contents(tree, Texts(tree, ledger, some))
    && |some| <= 2 * MAX_LEDGER_FILES && |Texts(tree, ledger, some)| <= MAX_LEDGER_FILES && AllPass(tree, ledger, some)
  }

  lemma TextsNext(tree: Tree, ledger: string, some: set<Path>, p: Path)
    ensures Texts(tree, ledger, some + {p}) == Texts(tree, ledger, some) + if Listed(tree, ledger, p) then {Join(p)} else {}
  {}

  lemma ContentsNext(tree: Tree, texts: set<string>, p: Path)
    requires WellFormed(tree) && p in tree && tree[p].File?
    ensures Contents(tree, texts + {Join(p)}) == Contents(tree, texts)[Join(p) := tree[p].data]
    ensures |Contents(tree, texts + {Join(p)})| == |texts + {Join(p)}|
  {
    PartsOfJoin(p);
    assert Contents(tree, texts + {Join(p)}).Keys == texts + {Join(p)};
  }

  /** The inventory after one more entry. */
  function WithEntry(tree: Tree, ledger: string, inventory: map<string, seq<Byte>>, p: Path): map<string, seq<Byte>> {
    if Listed(tree, ledger, p) then inventory[Join(p) := tree[p].data] else inventory
  }

  lemma ContentsSize(tree: Tree, texts: set<string>)
    ensures |Contents(tree, texts)| == |texts|
  {
    assert Contents(tree, texts).Keys == texts;
  }

  lemma InventoryNext(tree: Tree, ledger: string, some: set<Path>, p: Path)
    requires WellFormed(tree) && p in tree
    ensures WithEntry(tree, ledger, Contents(tree, Texts(tree, ledger, some)), p) == Contents(tree, Texts(tree, ledger, some + {p}))
  {
    TextsNext(tree, ledger, some, p);
    if Listed(tree, ledger, p) {
      ContentsNext(tree, Texts(tree, ledger, some), p);
    } else {
      assert Texts(tree, ledger, some) + {} == Texts(tree, ledger, some);
    }
  }

  lemma TakenNext(tree: Tree, ledger: string, some: set<Path>, inventory: map<string, seq<Byte>>, count: nat, p: Path)
    requires WellFormed(tree) && Taken(tree, ledger, some, inventory, count) && p in tree && p !in some
    ensures var after := WithEntry(tree, ledger, inventory, p);
            Taken(tree, ledger, some + {p}, after, count + 1) <==>
            count + 1 <= 2 * MAX_LEDGER_FILES && |after| <= MAX_LEDGER_FILES && EntryPasses(tree, ledger, p)
    ensures Inventoried(tree, ledger) ==> Taken(tree, ledger, some + {p}, WithEntry(tree, ledger, inventory, p), count + 1)
  {
    InventoryNext(tree, ledger, some, p);
    ContentsSize(tree, Texts(tree, ledger, some + {p}));
    TextsGrow(tree, ledger, some + {p});
    AllPassNext(tree, ledger, some, p);
  }

  lemma AllPassNext(tree: Tree, ledger: string, some: set<Path>, p: Path)
    requires some <= tree.Keys && p in tree
    ensures AllPass(tree, ledger, some + {p}) <==> AllPass(tree, ledger, some) && EntryPasses(tree, ledger, p)
    ensures AllPass(tree, ledger, tree.Keys) ==> EntryPasses(tree, ledger, p)
  {}

  /** The checks of one entry. */
  method TakeEntry(tree: Tree, ledger: string, inventory: map<string, seq<Byte>>, count: nat, p: Path)
    returns (r: Result<map<string, seq<Byte>>, LedgerError>)
    requires p in tree && |inventory| <= MAX_LEDGER_FILES
    ensures r.Ok? <==> && count + 1 <= 2 * MAX_LEDGER_FILES && EntryPasses(tree, ledger, p)
                       && |WithEntry(tree, ledger, inventory, p)| <= MAX_LEDGER_FILES
    ensures r.Ok? ==> r.value == WithEntry(tree, ledger, inventory, p)
  {
    if count + 1 > 2 * MAX_LEDGER_FILES {
      return Err(EntryLimit);
    }
    match tree[p] {
      case Dir =>
        r := Ok(inventory);
      case Other =>
        return Err(NotRegular);
      case File(data, _) =>
        if p == [ledger] {
          return Ok(inventory);
        }
        var text := Join(p);
        if !ValidPath(text, ledger) {
          return Err(InvalidPath);
        }
        var after := inventory[text := data];
        if |after| > MAX_LEDGER_FILES {
          return Err(FileLimit);
        }
        r := Ok(after);
    }
  }

  /** One entry more; in a tree that can be inventoried every entry passes, whenever it is met. */
  method NextEntry(tree: Tree, ledger: string, ghost some: set<Path>, inventory: map<string, seq<Byte>>, count: nat, p: Path)
    returns (r: Result<map<string, seq<Byte>>, LedgerError>)
    requires WellFormed(tree) && Taken(tree, ledger, some, inventory, count) && p in tree && p !in some
    ensures r.Ok? ==> Taken(tree, ledger, some + {p}, r.value, count + 1)
    ensures Inventoried(tree, ledger) ==> r.Ok?
  {
    TakenNext(tree, ledger, some, inventory, count, p);
    ContentsSize(tree, Texts(tree, ledger, some));
    ghost var after := WithEntry(tree, ledger, inventory, p);
    assert Inventoried(tree, ledger) ==> |after| <= MAX_LEDGER_FILES by {
      if Inventoried(tree, ledger) {
        ContentsSize(tree, Texts(tree, ledger, some + {p}));
      }
    }
    r := TakeEntry(tree, ledger, inventory, count, p);
  }

  /** The subdirectories among some entries, each once. */
  ghost predicate Subdirectories(tree: Tree, found: seq<Path>, entries: set<Path>) {
    Distinct(found) && forall p :: p in found <==> p in entries && p in tree && tree[p] == Dir
  }

  lemma MoveOne<T>(all: set<T>, rest: set<T>, read: set<T>, some: set<T>, x: T)
    requires read !! rest && read + rest == all && x in rest
    ensures read + {x} !! rest - {x} && (read + {x}) + (rest - {x}) == all
    ensures some + (read + {x}) == (some + read) + {x}
  {}

  lemma SubdirectoriesNext(tree: Tree, found: seq<Path>, entries: set<Path>, p: Path)
    requires Subdirectories(tree, found, entries) && p in tree && p !in entries
    ensures Subdirectories(tree, if tree[p] == Dir then found + [p] else found, entries + {p})
  {}

  /** One directory: its entries are taken in any order, and its subdirectories become pending. */
  method ReadDirectory(tree: Tree, ledger: string, dir: Path, ghost some: set<Path>, inventory: map<string, seq<Byte>>, count: nat)
    returns (r: Result<(map<string, seq<Byte>>, nat, seq<Path>), LedgerError>)
    requires WellFormed(tree) && Taken(tree, ledger, some, inventory, count) && Children(tree, dir) !! some
    ensures r.Ok? ==> Taken(tree, ledger, some + Children(tree, dir), r.value.0, r.value.1)
    ensures r.Ok? ==> Subdirectories(tree, r.value.2, Children(tree, dir))
    ensures Inventoried(tree, ledger) ==> r.Ok?
  {
    var entries := Children(tree, dir);
    var rest := entries;
    var inventory, count := inventory, count;
    var found: seq<Path> := [];
    ghost var read: set<Path> := {};
    assert some + read == some;
    while rest != {}
      invariant read !! rest && read + rest == entries
      invariant Taken(tree, ledger, some + read, inventory, count)
      invariant Subdirectories(tree, found, read)
      decreases rest
    {
      var p :| p in rest;
      var one := NextEntry(tree, ledger, some + read, inventory, count, p);
      if one.Err? {
        return Err(one.error);
      }
      inventory := one.value;
      count := count + 1;
      SubdirectoriesNext(tree, found, read, p);
      if tree[p] == Dir {
        found := found + [p];
      }
      MoveOne(entries, rest, read, some, p);
      rest, read := rest - {p}, read + {p};
    }
    assert read == entries;
    r := Ok((inventory, count, found));
  }

  lemma SeenNext(tree: Tree, done: set<Path>, dir: Path)
    requires dir !in done
    ensures Seen(tree, done + {dir}) == Seen(tree, done) + Children(tree, dir) && Children(tree, dir) !! Seen(tree, done)
  {}

  lemma DistinctAppend<T>(a: seq<T>, b: seq<T>)
    requires Distinct(a) && Distinct(b) && forall x :: x in a ==> x !in b
    ensures Distinct(a + b)
  {
    forall i, j | 0 <= i < j < |a + b|
      ensures (a + b)[i] != (a + b)[j]
    {
      if i < |a| <= j {
        assert a[i] in a && b[j - |a|] in b;
      }
    }
  }

  lemma WalkedNext(tree: Tree, done: set<Path>, left: seq<Path>, dir: Path, found: seq<Path>)
    requires Walked(tree, done, left + [dir]) && Subdirectories(tree, found, Children(tree, dir))
    ensures Walked(tree, done + {dir}, left + found)
  {
    var pending := left + [dir];
    assert pending[|left|] == dir && dir in pending;
    SeenNext(tree, done, dir);
    forall d | d in left
      ensures d in pending && d != dir && d !in found
    {
      var i :| 0 <= i < |left| && left[i] == d;
      assert pending[i] == d;
    }
    assert Distinct(left) by {
      assert forall i :: 0 <= i < |left| ==> pending[i] == left[i];
    }
    DistinctAppend(left, found);
    forall p | p in Seen(tree, done + {dir}) && tree[p] == Dir
      ensures p in done + {dir} || p in left + found
    {
      if p in Seen(tree, done) && p in pending {
        var i :| 0 <= i < |pending| && pending[i] == p;
        assert i < |left| ==> left[i] == p;
      }
    }
  }

  lemma LastOf<T>(s: seq<T>)
    requires s != []
    ensures s == s[..|s| - 1] + [s[|s| - 1]] && s[|s| - 1] in s
  {}

  lemma AllSeen(tree: Tree, done: set<Path>)
    requires WellFormed(tree) && Walked(tree, done, [])
    ensures Seen(tree, done) == tree.Keys
  {
    forall p | p in tree
      ensures p in Seen(tree, done)
    {
      EverythingSeen(tree, done, p);
    }
  }

  /** How many directories may still be read. */
  ghost function Left(tree: Tree, done: set<Path>): nat { |tree.Keys + {[]} - done| }

  lemma LeftDecreases(tree: Tree, done: set<Path>, dir: Path)
    requires IsDirectory(tree, dir) && dir !in done
    ensures Left(tree, done + {dir}) < Left(tree, done)
  {
    var before, after := tree.Keys + {[]} - done, tree.Keys + {[]} - (done + {dir});
    assert dir in before && before == after + {dir};
  }

  /** Pops one directory and reads it. */
  method ReadTop(tree: Tree, ledger: string, pending: seq<Path>, ghost done: set<Path>, inventory: map<string, seq<Byte>>, count: nat)
    returns (r: Result<(map<string, seq<Byte>>, nat, seq<Path>), LedgerError>)
    requires WellFormed(tree) && pending != [] && Walked(tree, done, pending)
    requires Taken(tree, ledger, Seen(tree, done), inventory, count)
    ensures r.Ok? ==> Walked(tree, done + {pending[|pending| - 1]}, r.value.2)
    ensures r.Ok? ==> Taken(tree, ledger, Seen(tree, done + {pending[|pending| - 1]}), r.value.0, r.value.1)
    ensures Left(tree, done + {pending[|pending| - 1]}) < Left(tree, done)
    ensures Inventoried(tree, ledger) ==> r.Ok?
  {
    var dir, left := pending[|pending| - 1], pending[..|pending| - 1];
    LastOf(pending);
    SeenNext(tree, done, dir);
    LeftDecreases(tree, done, dir);
    r := ReadDirectory(tree, ledger, dir, Seen(tree, done), inventory, count);
    if r.Ok? {
      WalkedNext(tree, done, left, dir, r.value.2);
      r := Ok((r.value.0, r.value.1, left + r.value.2));
    }
  }

  /** `_regular_file_inventory`: the stack walk finds exactly the regular files, in any tree that can be
      inventoried, and fails for every other. */
  method RegularFileInventory(tree: Tree, ledger: string) returns (r: Result<map<string, seq<Byte>>, LedgerError>)
    requires WellFormed(tree)
    ensures r.Ok? <==> Inventoried(tree, ledger)
    ensures r.Ok? ==> r.value == Files(tree, ledger)
  {
    var inventory: map<string, seq<Byte>> := map[];
    var pending: seq<Path> := [[]];
    var count := 0;
    ghost var done: set<Path> := {};
    WalkStarts(tree, ledger);
    while pending != []
      invariant Walked(tree, done, pending)
      invariant Taken(tree, ledger, Seen(tree, done), inventory, count)
      decreases Left(tree, done)
    {
      var one := ReadTop(tree, ledger, pending, done, inventory, count);
      if one.Err? {
        return Err(one.error);
      }
      done := done + {pending[|pending| - 1]};
      inventory, count, pending := one.value.0, one.value.1, one.value.2;
    }
    AllSeen(tree, done);
    TakenAll(tree, ledger, inventory, count);
    r := Ok(inventory);
  }

  lemma TakenAll(tree: Tree, ledger: string, inventory: map<string, seq<Byte>>, count: nat)
    requires Taken(tree, ledger, tree.Keys, inventory, count)
    ensures Inventoried(tree, ledger) && inventory == Files(tree, ledger)
  {}

  lemma WalkStarts(tree: Tree, ledger: string)
    ensures Walked(tree, {}, [[]]) && Taken(tree, ledger, Seen(tree, {}), map[], 0)
  {
    assert Seen(tree, {}) == {};
    var root: Path := [];
    assert [root][0] == root;
  }

  // ----- Verifying -----

  function Digests(c: Codec, files: map<string, seq<Byte>>): map<string, string> {
    map p | p in files :: c.hash(files[p])
  }

  /** What the ledger file says, if it can be read at all. */
  function Recorded(c: Codec, tree: Tree, ledger: string): Option<map<string, string>> {
    if [ledger] !in tree || !tree[[ledger]].File? then None
    else
      var file := tree[[ledger]];
      if ledger == RELEASE_LEDGER && file.writable then None
      else if file.data == [] || |file.data| > MAX_LEDGER_BYTES || c.decode(file.data).None? then None
      else Parse(c.decode(file.data).value, ledger)
  }

  /** `_load_checksum_ledger`. */
  method LoadChecksumLedger(c: Codec, tree: Tree, ledger: string) returns (r: Result<map<string, string>, LedgerError>)
    ensures r.Ok? <==> Recorded(c, tree, ledger).Some?
    ensures r.Ok? ==> r.value == Recorded(c, tree, ledger).value
  {
    if [ledger] !in tree || !tree[[ledger]].File? {
      return Err(LedgerMissing);
    }
    var file := tree[[ledger]];
    if ledger == RELEASE_LEDGER && file.writable {
      return Err(LedgerWritable);
    }
    if file.data == [] || |file.data| > MAX_LEDGER_BYTES {
      return Err(InvalidSize);
    }
    var text := c.decode(file.data);
    if text.None? || text.value == "" || text.value[|text.value| - 1] != '\n' {
      return Err(InvalidText);
    }
    var expected := LoadLines(SplitLines(text.value), ledger);
    if expected.None? {
      return Err(InvalidText);
    }
    r := Ok(expected.value);
  }

  /** The tree matches its ledger. */
  ghost predicate Matches(c: Codec, tree: Tree, ledger: string) {
    Inventoried(tree, ledger) && Recorded(c, tree, ledger) == Some(Digests(c, Files(tree, ledger)))
  }

  predicate Agrees(c: Codec, expected: map<string, string>, actual: map<string, seq<Byte>>, p: string) {
    p in expected && p in actual && c.hash(actual[p]) == expected[p]
  }

  lemma SameDigests(c: Codec, expected: map<string, string>, actual: map<string, seq<Byte>>)
    requires expected.Keys == actual.Keys
    ensures expected == Digests(c, actual) <==> forall p :: p in expected ==> Agrees(c, expected, actual, p)
  {
    var digests := Digests(c, actual);
    if forall p :: p in expected ==> Agrees(c, expected, actual, p) {
      assert digests.Keys == actual.Keys;
      forall p | p in expected
        ensures expected[p] == digests[p]
      {
        assert Agrees(c, expected, actual, p);
      }
      assert expected == digests;
    }
  }

  lemma AllListedAgree(c: Codec, expected: map<string, string>, actual: map<string, seq<Byte>>, keys: seq<string>)
    requires Lists(keys, expected.Keys) && forall j :: 0 <= j < |keys| ==> Agrees(c, expected, actual, keys[j])
    ensures forall p :: p in expected ==> Agrees(c, expected, actual, p)
  {
    forall p | p in expected
      ensures Agrees(c, expected, actual, p)
    {
      assert p in keys;
    }
  }

  /** The digests of the recorded files, compared one by one. */
  method CompareDigests(c: Codec, expected: map<string, string>, actual: map<string, seq<Byte>>) returns (same: bool)
    requires expected.Keys == actual.Keys
    ensures same <==> forall p :: p in expected ==> Agrees(c, expected, actual, p)
  {
    var keys := SortedList(expected.Keys);
    for i := 0 to |keys|
      invariant forall j :: 0 <= j < i ==> Agrees(c, expected, actual, keys[j])
    {
      assert keys[i] in expected.Keys;
      if c.hash(actual[keys[i]]) != expected[keys[i]] {
        assert !Agrees(c, expected, actual, keys[i]);
        return false;
      }
    }
    AllListedAgree(c, expected, actual, keys);
    same := true;
  }

  /** `_verify_checksum_ledger` accepts a tree exactly when its files and their hashes are those of the ledger. */
  method VerifyChecksumLedger(c: Codec, tree: Tree, ledger: string) returns (error: Option<LedgerError>)
    requires WellFormed(tree)
    ensures error.None? <==> Matches(c, tree, ledger)
  {
    var expected := LoadChecksumLedger(c, tree, ledger);
    if expected.Err? {
      return Some(expected.error);
    }
    var actual := RegularFileInventory(tree, ledger);
    if actual.Err? {
      return Some(actual.error);
    }
    assert Digests(c, actual.value).Keys == actual.value.Keys;
    if expected.value.Keys != actual.value.Keys {
      return Some(WrongInventory);
    }
    SameDigests(c, expected.value, actual.value);
    var same := CompareDigests(c, expected.value, actual.value);
    error := if same then None else Some(WrongDigest);
  }

  lemma RecordedDigest(c: Codec, tree: Tree, ledger: string, p: Path)
    requires WellFormed(tree) && Listed(tree, ledger, p)
    ensures Matches(c, tree, ledger) ==>
              && Recorded(c, tree, ledger).Some? && Join(p) in Recorded(c, tree, ledger).value
              && Recorded(c, tree, ledger).value[Join(p)] == c.hash(tree[p].data)
  {
    FilesAreTheRegularFiles(tree, ledger, p);
  }

  lemma SameRecord(c: Codec, tree: Tree, after: Tree, ledger: string)
    requires ([ledger] in tree <==> [ledger] in after) && ([ledger] in tree ==> tree[[ledger]] == after[[ledger]])
    ensures Recorded(c, tree, ledger) == Recorded(c, after, ledger)
  {}

  lemma StaysWellFormed(tree: Tree, p: Path, data: seq<Byte>)
    requires WellFormed(tree) && p in tree && tree[p].File?
    ensures WellFormed(tree[p := File(data, tree[p].writable)])
  {}

  /** Changing the bytes of one file in an accepted tree is noticed, unless their hashes collide. */
  lemma ChangedFileIsNoticed(c: Codec, tree: Tree, ledger: string, p: Path, data: seq<Byte>)
    requires WellFormed(tree) && Matches(c, tree, ledger) && Listed(tree, ledger, p)
    requires c.hash(data) != c.hash(tree[p].data)
    ensures !Matches(c, tree[p := File(data, tree[p].writable)], ledger)
  {
    var changed := tree[p := File(data, tree[p].writable)];
    StaysWellFormed(tree, p, data);
    RecordedDigest(c, tree, ledger, p);
    RecordedDigest(c, changed, ledger, p);
    SameRecord(c, tree, changed, ledger);
  }

  // ----- Creating -----

  /** The tree with its ledger. */
  function WithLedger(c: Codec, tree: Tree, ledger: string, text: string): Tree {
    tree[[ledger] := File(c.encode(text), false)]
  }

  /** The text that is written for these files, whatever the order they were found in. */
  ghost predicate IsLedgerOf(c: Codec, files: map<string, seq<Byte>>, paths: seq<string>, text: string) {
    && Lists(paths, files.Keys) && Sorted(StringLe, paths)
    && text == Print(paths, Digests(c, files))
  }

  /** The ledger text depends on the files only. */
  lemma LedgerIsDetermined(c: Codec, files: map<string, seq<Byte>>, a: seq<string>, s: string, b: seq<string>, t: string)
    requires IsLedgerOf(c, files, a, s) && IsLedgerOf(c, files, b, t)
    ensures s == t
  {
    SortedListIsUnique(a, b, files.Keys);
    SortedListIsUnique(b, b, files.Keys);
  }

  /** What a tree must satisfy for its new ledger to be accepted. */
  ghost predicate Ledgerable(c: Codec, tree: Tree, ledger: string, text: string) {
    && |tree.Keys| < 2 * MAX_LEDGER_FILES && Files(tree, ledger) != map[]
    && (forall p :: p in Files(tree, ledger) ==> !HasBreak(p))
    && |c.encode(text)| <= MAX_LEDGER_BYTES
  }

  lemma SameTexts(c: Codec, tree: Tree, ledger: string, text: string)
    requires [ledger] !in tree
    ensures var after := WithLedger(c, tree, ledger, text);
            Texts(after, ledger, after.Keys) == Texts(tree, ledger, tree.Keys) && |after.Keys| == |tree.Keys| + 1
  {
    var after := WithLedger(c, tree, ledger, text);
    assert after.Keys == tree.Keys + {[ledger]};
    forall p
      ensures Listed(after, ledger, p) <==> Listed(tree, ledger, p)
    {
    }
  }

  lemma SameContent(c: Codec, tree: Tree, ledger: string, text: string, t: string)
    requires WellFormed(tree) && [ledger] !in tree && t in Texts(tree, ledger, tree.Keys)
    ensures ContentAt(WithLedger(c, tree, ledger, text), t) == ContentAt(tree, t)
  {
    var p :| p in tree.Keys && Listed(tree, ledger, p) && Join(p) == t;
    PartsOfJoin(p);
  }

  /** Adding the ledger changes nothing else in the inventory. */
  lemma LedgerIsNotListed(c: Codec, tree: Tree, ledger: string, text: string)
    requires WellFormed(tree) && [ledger] !in tree && Component(ledger) && ledger != ".."
    ensures var after := WithLedger(c, tree, ledger, text);
            && WellFormed(after) && Files(after, ledger) == Files(tree, ledger)
            && Texts(after, ledger, after.Keys) == Texts(tree, ledger, tree.Keys)
            && |after.Keys| == |tree.Keys| + 1
  {
    var after := WithLedger(c, tree, ledger, text);
    SameTexts(c, tree, ledger, text);
    var texts := Texts(tree, ledger, tree.Keys);
    forall t | t in texts
      ensures ContentAt(after, t) == ContentAt(tree, t)
    {
      SameContent(c, tree, ledger, text, t);
    }
    SameContents(tree, after, texts);
    StaysWellFormedWith(tree, ledger, after[[ledger]]);
  }

  lemma SameContents(tree: Tree, after: Tree, texts: set<string>)
    requires forall t :: t in texts ==> ContentAt(after, t) == ContentAt(tree, t)
    ensures Contents(after, texts) == Contents(tree, texts)
  {}

  lemma StaysWellFormedWith(tree: Tree, name: string, node: Node)
    requires WellFormed(tree) && [name] !in tree && Component(name) && name != ".."
    ensures WellFormed(tree[[name] := node])
  {
    var after := tree[[name] := node];
    forall p | p in after
      ensures p != [] && Components(p) && ".." !in p
      ensures |p| > 1 ==> p[..|p| - 1] in after && after[p[..|p| - 1]] == Dir
    {
      if p != [name] {
        assert p in tree;
      }
    }
  }

  lemma InventoriedAfter(c: Codec, tree: Tree, ledger: string, text: string)
    requires WellFormed(tree) && [ledger] !in tree && Component(ledger) && ledger != ".." && Inventoried(tree, ledger)
    ensures Inventoried(WithLedger(c, tree, ledger, text), ledger) <==> |tree.Keys| < 2 * MAX_LEDGER_FILES
  {
    LedgerIsNotListed(c, tree, ledger, text);
    var after := WithLedger(c, tree, ledger, text);
    forall p | p in after
      ensures EntryPasses(after, ledger, p)
    {
      assert p != [ledger] ==> EntryPasses(tree, ledger, p) && after[p] == tree[p];
    }
  }

  lemma PrintedDigests(c: Codec, tree: Tree, ledger: string, paths: seq<string>)
    requires Lawful(c) && WellFormed(tree) && Inventoried(tree, ledger) && Lists(paths, Files(tree, ledger).Keys)
    ensures Printable(paths, Digests(c, Files(tree, ledger)), ledger)
  {
    var files := Files(tree, ledger);
    var texts := Texts(tree, ledger, tree.Keys);
    assert files.Keys == texts;
    forall t | t in texts
      ensures ValidPath(t, ledger)
    {
      var p :| p in tree.Keys && Listed(tree, ledger, p) && Join(p) == t;
      assert EntryPasses(tree, ledger, p);
    }
    DistinctSize(paths, texts);
  }

  lemma {:induction false} DistinctSize(keys: seq<string>, all: set<string>)
    requires Lists(keys, all)
    ensures |keys| == |all|
  {
    if keys == [] {
      assert all == {};
    } else {
      var init, last := keys[..|keys| - 1], keys[|keys| - 1];
      assert keys == init + [last];
      forall k
        ensures k in init <==> k in all - {last}
      {
        assert k in keys <==> k in init || k == last;
      }
      DistinctSize(init, all - {last});
    }
  }

  lemma NewLedgerIsRead(c: Codec, tree: Tree, ledger: string, text: string)
    requires Lawful(c)
    ensures Recorded(c, WithLedger(c, tree, ledger, text), ledger) ==
              if text == "" || |c.encode(text)| > MAX_LEDGER_BYTES then None else Parse(text, ledger)
  {}

  lemma NothingToPrint(c: Codec, files: map<string, seq<Byte>>, paths: seq<string>, text: string)
    requires IsLedgerOf(c, files, paths, text)
    ensures text == "" <==> files == map[]
    ensures paths == [] <==> files == map[]
  {
    if paths == [] {
      assert files.Keys == {};
    } else {
      assert paths[0] in files.Keys;
    }
  }

  /** The new ledger is accepted exactly for trees that have files, whose paths break no line, and that stay
      within the limits with the ledger added. */
  lemma NewLedgerIsAccepted(c: Codec, tree: Tree, ledger: string, paths: seq<string>, text: string)
    requires Lawful(c) && WellFormed(tree) && [ledger] !in tree && Component(ledger) && ledger != ".." && Inventoried(tree, ledger)
    requires IsLedgerOf(c, Files(tree, ledger), paths, text)
    ensures Matches(c, WithLedger(c, tree, ledger, text), ledger) <==> Ledgerable(c, tree, ledger, text)
  {
    InventoriedAfter(c, tree, ledger, text);
    LedgerIsNotListed(c, tree, ledger, text);
    NewLedgerIsRead(c, tree, ledger, text);
    NothingToPrint(c, Files(tree, ledger), paths, text);
    PrintedDigests(c, tree, ledger, paths);
    LedgerReadsBack(paths, Digests(c, Files(tree, ledger)), ledger);
  }

  /** One line per file, in order. */
  method PrintLines(c: Codec, files: map<string, seq<Byte>>, paths: seq<string>) returns (text: string)
    requires forall p :: p in paths ==> p in files
    ensures text == Print(paths, Digests(c, files))
  {
    text := "";
    ghost var whole := Print(paths, Digests(c, files));
    for k := 0 to |paths|
      invariant text + Print(paths[k..], Digests(c, files)) == whole
    {
      ghost var left := paths[k..];
      assert left[0] == paths[k] && left[1..] == paths[k + 1..] && paths[k] in paths;
      var line := Line(c.hash(files[paths[k]]), paths[k]) + "\n";
      ghost var rest := Print(left[1..], Digests(c, files));
      assert text + (line + rest) == (text + line) + rest;
      text := text + line;
    }
    assert paths[|paths|..] == [];
  }

  class Folder {
    var tree: Tree

    constructor (tree: Tree)
      ensures this.tree == tree
    {
      this.tree := tree;
    }

    /** Writes the text under a temporary name and renames it. */
    method Place(c: Codec, ledger: string, temporary: string, text: string)
      requires [ledger] !in tree && [temporary] !in tree && temporary != ledger
      modifies this
      ensures tree == WithLedger(c, old(tree), ledger, text)
    {
      tree := tree[[temporary] := File(c.encode(text), false)];
      tree := (tree - {[temporary]})[[ledger] := tree[[temporary]]];
    }

    /** `_create_ledger`. A ledger that verification then rejects stays in place. */
    method CreateLedger(c: Codec, ledger: string, temporary: string)
      returns (error: Option<LedgerError>, ghost paths: seq<string>, ghost text: string)
      requires Lawful(c) && WellFormed(tree) && Component(ledger) && ledger != ".." && temporary != ledger
      modifies this
      ensures if [ledger] in old(tree) || [temporary] in old(tree) || !Inventoried(old(tree), ledger)
              then error.Some? && tree == old(tree)
              else IsLedgerOf(c, Files(old(tree), ledger), paths, text) && tree == WithLedger(c, old(tree), ledger, text)
                   && (error.None? <==> Ledgerable(c, old(tree), ledger, text))
      ensures error.None? ==> Matches(c, tree, ledger)
    {
      paths, text := [], "";
      if [ledger] in tree {
        return Some(AlreadyExists), paths, text;
      }
      var inventory := RegularFileInventory(tree, ledger);
      if inventory.Err? {
        return Some(inventory.error), paths, text;
      }
      var keys := SortedList(inventory.value.Keys);
      var lines := PrintLines(c, inventory.value, keys);
      paths, text := keys, lines;
      if [temporary] in tree {
        return Some(TemporaryExists), paths, text;
      }
      LedgerIsNotListed(c, tree, ledger, lines);
      NewLedgerIsAccepted(c, tree, ledger, keys, lines);
      Place(c, ledger, temporary, lines);
      error := VerifyChecksumLedger(c, tree, ledger);
    }
  }
}
