/** Publishing an archive and its checksum into a shared directory without overwriting anything.

    Other processes may create, change and delete their own files between any two of our calls; they
    leave ours alone. Every call of ours may fail, before or after taking effect, and an interrupt may
    end the run between calls. */
module Publication {
  import opened Common

  /** Directory entries by name, and file contents by inode. */
  datatype Dir = Dir(entries: map<string, nat>, contents: map<nat, seq<Byte>>)

  /** The directory and the inodes of the two files this run has created in it. */
  datatype State = State(dir: Dir, archive: Option<nat>, checksum: Option<nat>)

  /** What went wrong in a run, apart from calls that failed without any effect. */
  datatype Fault =
    | FlushFailed
    | LinkUncounted(name: string)     // the link was made, and the call reported failure
    | RemovalFailed(name: string)     // the name was not removed, by failure or by refusal
    | RemovalUncounted(name: string)  // the name was removed, and the call reported failure
    | Interrupted                     // with a final link made

  /** What is left of this run under the final names. */
  datatype Left = Neither | ChecksumOnly | ArchiveOnly | Both

  predicate IsOurs(s: State, inode: nat) {
    s.archive == Some(inode) || s.checksum == Some(inode)
  }

  /** The entry exists and is this file of ours. */
  predicate Bound(s: State, name: string, inode: Option<nat>) {
    inode.Some? && name in s.dir.entries && s.dir.entries[name] == inode.value
  }

  // ----- Names -----

  function ChecksumName(archiveName: string): string { archiveName + ".sha256" }

  function Temporary(name: string, token: string): string { "." + name + ".tmp." + token }

  const TOKEN_LENGTH: nat := 24

  lemma NamesDiffer(a: string, token: string)
    requires |token| == TOKEN_LENGTH
    ensures a != ChecksumName(a)
    ensures Temporary(a, token) !in {a, ChecksumName(a), Temporary(ChecksumName(a), token)}
    ensures Temporary(ChecksumName(a), token) !in {a, ChecksumName(a)}
  {
    assert |ChecksumName(a)| == |a| + 7;
    assert |Temporary(a, token)| == |a| + 30 && |Temporary(ChecksumName(a), token)| == |a| + 37;
  }

  // ----- Steps -----

  /** Our files stay in the store under distinct inodes, and entries refer to stored files. */
  predicate Sound(s: State) {
    && (s.archive.Some? ==> s.archive.value in s.dir.contents)
    && (s.checksum.Some? ==> s.checksum.value in s.dir.contents && s.checksum != s.archive)
    && forall n :: n in s.dir.entries ==> s.dir.entries[n] in s.dir.contents
  }

  /** What other processes may do: anything that leaves our files, names and bytes, alone. */
  predicate Foreign(s: State, t: State) {
    && t.archive == s.archive && t.checksum == s.checksum && Sound(t)
    && (forall n :: n in s.dir.entries && IsOurs(s, s.dir.entries[n]) ==> n in t.dir.entries && t.dir.entries[n] == s.dir.entries[n])
    && (forall n :: n in t.dir.entries && IsOurs(s, t.dir.entries[n]) ==> n in s.dir.entries && t.dir.entries[n] == s.dir.entries[n])
    && (forall i :: i in s.dir.contents && IsOurs(s, i) ==> i in t.dir.contents && t.dir.contents[i] == s.dir.contents[i])
  }

  /** A step of ours that neither replaces, removes nor changes a file of anybody else. */
  ghost predicate Respectful(s: State, t: State) {
    forall n :: n in s.dir.entries && !IsOurs(s, s.dir.entries[n]) ==>
      && n in t.dir.entries && t.dir.entries[n] == s.dir.entries[n] && !IsOurs(t, t.dir.entries[n])
      && (s.dir.entries[n] in s.dir.contents ==>
            s.dir.entries[n] in t.dir.contents && t.dir.contents[s.dir.entries[n]] == s.dir.contents[s.dir.entries[n]])
  }

  /** A file of ours that existed before still has its bytes. */
  ghost predicate Kept(s: State, t: State, inode: Option<nat>) {
    inode.Some? && IsOurs(s, inode.value) && inode.value in s.dir.contents ==>
      inode.value in t.dir.contents && t.dir.contents[inode.value] == s.dir.contents[inode.value]
  }

  /** Our files keep their bytes, and their names except perhaps this one. */
  ghost predicate KeptBut(s: State, t: State, name: string) {
    && t.archive == s.archive && t.checksum == s.checksum
    && (forall i :: IsOurs(s, i) && i in s.dir.contents ==> i in t.dir.contents && t.dir.contents[i] == s.dir.contents[i])
    && (forall n, i :: n != name && IsOurs(s, i) ==> (Bound(t, n, Some(i)) <==> Bound(s, n, Some(i))))
  }

  /** The name stands for the same file, or for none, before and after. */
  predicate SameName(s: State, t: State, n: string) {
    (n in s.dir.entries <==> n in t.dir.entries) && (n in s.dir.entries ==> t.dir.entries[n] == s.dir.entries[n])
  }

  ghost predicate OnlyName(s: State, t: State, name: string) {
    forall n :: n != name ==> SameName(s, t, n)
  }

  lemma OnlyNameTwice(s: State, t: State, u: State, name: string)
    requires OnlyName(s, t, name) && OnlyName(t, u, name)
    ensures OnlyName(s, u, name)
  {
    forall n | n != name
      ensures SameName(s, u, n)
    {
      assert SameName(s, t, n) && SameName(t, u, n);
    }
  }

  lemma SameEntriesKeep(s: State, t: State, u: State, name: string)
    requires OnlyName(s, t, name) && u.dir.entries == t.dir.entries
    ensures OnlyName(s, u, name)
  {
    forall n | n != name
      ensures SameName(s, u, n)
    {
      assert SameName(s, t, n);
    }
  }

  /** Creating a file finds an inode that is not in use. */
  method UnusedInode(used: set<nat>) returns (inode: nat)
    ensures inode !in used
  {
    var rest := used;
    inode := 0;
    while rest != {}
      invariant rest <= used && forall i :: i in used && i !in rest ==> i < inode
      decreases rest
    {
      var i :| i in rest;
      if i >= inode {
        inode := i + 1;
      }
      rest := rest - {i};
    }
  }

  lemma ForeignKeeps(s: State, t: State, name: string)
    requires Sound(s) && Foreign(s, t)
    ensures KeptBut(s, t, name)
    ensures forall i :: IsOurs(s, i) ==> (Bound(t, name, Some(i)) <==> Bound(s, name, Some(i)))
  {}

  lemma KeptButTwice(s: State, t: State, u: State, name: string)
    requires KeptBut(s, t, name) && KeptBut(t, u, name)
    ensures KeptBut(s, u, name)
  {}

  function AfterUnlink(s: State, name: string): State { s.(dir := s.dir.(entries := s.dir.entries - {name})) }

  function AfterLink(s: State, name: string, inode: nat): State { s.(dir := s.dir.(entries := s.dir.entries[name := inode])) }

  lemma UnlinkEffect(s: State, name: string, inode: nat)
    requires Sound(s) && IsOurs(s, inode) && Bound(s, name, Some(inode))
    ensures var t := AfterUnlink(s, name);
            Sound(t) && Respectful(s, t) && KeptBut(s, t, name) && OnlyName(s, t, name)
  {}

  lemma LinkEffect(s: State, name: string, inode: nat)
    requires Sound(s) && IsOurs(s, inode) && name !in s.dir.entries
    ensures var t := AfterLink(s, name, inode);
            Sound(t) && Respectful(s, t) && KeptBut(s, t, name) && OnlyName(s, t, name)
  {}

  /** The publication of one pair of names and contents. */
  datatype Job = Job(archiveName: string, token: string, archive: seq<Byte>, checksum: seq<Byte>) {
    function Names(): (string, string, string, string) {
      (archiveName, ChecksumName(archiveName), Temporary(archiveName, token), Temporary(ChecksumName(archiveName), token))
    }
  }

  /** Whenever our archive is linked under its final name, so is our checksum, both complete. */
  ghost predicate Paired(j: Job, s: State) {
    Bound(s, j.archiveName, s.archive) ==>
      && Bound(s, ChecksumName(j.archiveName), s.checksum)
      && s.archive.value in s.dir.contents && s.dir.contents[s.archive.value] == j.archive
      && s.checksum.value in s.dir.contents && s.dir.contents[s.checksum.value] == j.checksum
  }

  /** The checksum is linked and both files are complete, so the archive may be linked too. */
  ghost predicate ReadyToLink(j: Job, s: State) {
    && s.archive.Some? && Bound(s, ChecksumName(j.archiveName), s.checksum)
    && s.archive.value in s.dir.contents && s.dir.contents[s.archive.value] == j.archive
    && s.checksum.value in s.dir.contents && s.dir.contents[s.checksum.value] == j.checksum
  }

  function LeftBehind(j: Job, s: State): Left {
    match (Bound(s, j.archiveName, s.archive), Bound(s, ChecksumName(j.archiveName), s.checksum))
    case (true, true) => Both
    case (true, false) => ArchiveOnly
    case (false, true) => ChecksumOnly
    case (false, false) => Neither
  }

  lemma KeptButLeaves(j: Job, s: State, t: State, name: string)
    requires KeptBut(s, t, name) && name != j.archiveName && name != ChecksumName(j.archiveName)
    ensures LeftBehind(j, t) == LeftBehind(j, s)
  {
    if s.archive.Some? {
      assert IsOurs(s, s.archive.value);
    }
    if s.checksum.Some? {
      assert IsOurs(s, s.checksum.value);
    }
  }

  /** The faults that decide what stays under the final names. */
  predicate OnFinal(j: Job, f: Fault) {
    match f
    case FlushFailed => false
    case Interrupted => true
    case LinkUncounted(_) => true
    case RemovalFailed(n) => n == j.archiveName || n == ChecksumName(j.archiveName)
    case RemovalUncounted(n) => n == j.archiveName || n == ChecksumName(j.archiveName)
  }

  /** A link was not counted or the run was interrupted after one, or the rollback could not finish. */
  predicate Strands(j: Job, faults: set<Fault>) {
    || LinkUncounted(j.archiveName) in faults || LinkUncounted(ChecksumName(j.archiveName)) in faults
    || Interrupted in faults
    || RemovalFailed(j.archiveName) in faults || RemovalFailed(ChecksumName(j.archiveName)) in faults
    || RemovalUncounted(j.archiveName) in faults
  }

  function Temporaries(j: Job): set<string> {
    {Temporary(j.archiveName, j.token), Temporary(ChecksumName(j.archiveName), j.token)}
  }

  /** Both links and their flushes were done, and then removing a temporary name reported failure. */
  predicate CleanupBroke(j: Job, faults: set<Fault>, links: set<string>) {
    && links == {j.archiveName, ChecksumName(j.archiveName)} && FlushFailed !in faults
    && exists n :: n in Temporaries(j) && (RemovalFailed(n) in faults || RemovalUncounted(n) in faults)
  }

  /** What the linking leaves behind, told by its faults. */
  predicate Accounts(j: Job, s: State, faults: set<Fault>, links: set<string>, published: bool) {
    && (published ==> LeftBehind(j, s) == Both && faults == {} && links == {j.archiveName, ChecksumName(j.archiveName)})
    && (!published ==> (LeftBehind(j, s) == Neither <==> !Strands(j, faults)))
    && (!published && !Strands(j, faults) && links == {j.archiveName, ChecksumName(j.archiveName)} ==> FlushFailed in faults)
    && (LeftBehind(j, s) == ArchiveOnly <==>
          LinkUncounted(j.archiveName) in faults && RemovalFailed(ChecksumName(j.archiveName)) !in faults)
  }

  /** What a rollback does that knows of these links; a removal that reports failure ends it. */
  predicate RollsBack(j: Job, s: State, f: set<Fault>, knowsChecksum: bool, knowsArchive: bool, t: State, g: set<Fault>) {
    var a, c := j.archiveName, ChecksumName(j.archiveName);
    && t.archive == s.archive && t.checksum == s.checksum
    && f <= g && g <= f + {FlushFailed, RemovalFailed(a), RemovalUncounted(a), RemovalFailed(c), RemovalUncounted(c)}
    && (!knowsArchive ==> (RemovalFailed(a) in g ==> RemovalFailed(a) in f) && (RemovalUncounted(a) in g ==> RemovalUncounted(a) in f))
    && (!knowsChecksum ==> (RemovalFailed(c) in g ==> RemovalFailed(c) in f))
    && (Bound(t, a, t.archive) <==> Bound(s, a, s.archive) && (knowsArchive ==> RemovalFailed(a) in g))
    && (Bound(t, c, t.checksum) <==>
          && Bound(s, c, s.checksum)
          && (knowsChecksum ==> RemovalFailed(a) in g || RemovalUncounted(a) in g || RemovalFailed(c) in g))
  }

  /** However far the linking got before a rollback began, its faults tell what stays. */
  lemma RollBackAccounts(j: Job, s: State, f: set<Fault>, links: set<string>, knowsChecksum: bool, knowsArchive: bool,
                         t: State, g: set<Fault>)
    requires RollsBack(j, s, f, knowsChecksum, knowsArchive, t, g)
    requires f <= {FlushFailed, LinkUncounted(j.archiveName), LinkUncounted(ChecksumName(j.archiveName))}
    requires Bound(s, j.archiveName, s.archive) <==> knowsArchive || LinkUncounted(j.archiveName) in f
    requires Bound(s, ChecksumName(j.archiveName), s.checksum) <==> knowsChecksum || LinkUncounted(ChecksumName(j.archiveName)) in f
    requires LinkUncounted(j.archiveName) in f ==> knowsChecksum && !knowsArchive
    requires LinkUncounted(ChecksumName(j.archiveName)) in f ==> !knowsChecksum
    requires knowsArchive ==> knowsChecksum && FlushFailed in f
    requires j.archiveName in links ==> knowsArchive || LinkUncounted(j.archiveName) in f
    ensures Accounts(j, t, g, links, false)
  {
    assert |ChecksumName(j.archiveName)| == |j.archiveName| + 7;
  }

  /** Removing the temporary names changes nothing about the final ones. */
  lemma CleanupAccounts(j: Job, s: State, f: set<Fault>, links: set<string>, published: bool, t: State, g: set<Fault>, cleaned: bool)
    requires |j.token| == TOKEN_LENGTH
    requires Accounts(j, s, f, links, published) && LeftBehind(j, t) == LeftBehind(j, s)
    requires cleaned ==> g == f
    requires !cleaned ==> exists n :: n in Temporaries(j) && (g == f + {RemovalFailed(n)} || g == f + {RemovalUncounted(n)})
    ensures published && cleaned ==> LeftBehind(j, t) == Both
    ensures !(published && cleaned) ==> (LeftBehind(j, t) != Neither <==> Strands(j, g) || CleanupBroke(j, g, links))
    ensures !(published && cleaned) && CleanupBroke(j, g, links) && !Strands(j, g) ==> LeftBehind(j, t) == Both
    ensures LeftBehind(j, t) == ArchiveOnly <==> LinkUncounted(j.archiveName) in g && RemovalFailed(ChecksumName(j.archiveName)) !in g
  {
    NamesDiffer(j.archiveName, j.token);
    assert Strands(j, g) == Strands(j, f);
  }

  /** The largest chunk read at once. */
  const CHUNK: nat := 1024 * 1024

  class Publisher {
    const job: Job
    /** Nobody else acts, and nothing of ours fails or is interrupted, except that no name in `stuck`
        can be removed, and linking a name in `uncounted` reports failure after taking effect. */
    const quiet: bool
    const stuck: set<string>
    const uncounted: set<string>
    var state: State
    /** Every state of the directory so far. */
    ghost var trace: set<State>
    /** Some step of ours replaced, removed or changed a file of anybody else. */
    ghost var harmed: bool
    ghost var faults: set<Fault>
    /** The final names under which a link was made. */
    ghost var links: set<string>

    /** The archive was linked without the run noticing. */
    ghost predicate Unnoticed()
      reads this
    {
      LinkUncounted(job.archiveName) in faults
    }

    ghost predicate Valid()
      reads this
    {
      && |job.token| == TOKEN_LENGTH
      && Sound(state) && state in trace
      && (!Unnoticed() ==> forall s :: s in trace ==> Paired(job, s))
      && !harmed
    }

    constructor (job: Job, dir: Dir, quiet: bool, stuck: set<string>, uncounted: set<string>)
      requires |job.token| == TOKEN_LENGTH
      requires forall n :: n in dir.entries ==> dir.entries[n] in dir.contents
      ensures Valid() && this.job == job && this.quiet == quiet && this.stuck == stuck && this.uncounted == uncounted
      ensures state == State(dir, None, None)
      ensures trace == {state} && faults == {} && links == {}
    {
      this.job := job;
      this.quiet := quiet;
      this.stuck := stuck;
      this.uncounted := uncounted;
      state := State(dir, None, None);
      trace := {State(dir, None, None)};
      harmed := false;
      faults := {};
      links := {};
    }

    /** None of the four names is taken. */
    predicate NamesFree(s: State) {
      && job.archiveName !in s.dir.entries && ChecksumName(job.archiveName) !in s.dir.entries
      && Temporary(job.archiveName, job.token) !in s.dir.entries
      && Temporary(ChecksumName(job.archiveName), job.token) !in s.dir.entries
    }

    /** Other processes run for a while. */
    method Interfere()
      requires Valid()
      modifies this`state, this`trace
      ensures Valid() && old(trace) <= trace && Foreign(old(state), state)
      ensures quiet ==> state == old(state)
    {
      var other: State := *;
      if !quiet && Foreign(state, other) {
        state := other;
        trace := trace + {other};
      }
    }

    /** One effect of ours. */
    method Take(next: State)
      requires Valid() && Sound(next) && Respectful(state, next) && (Unnoticed() || Paired(job, next))
      modifies this`state, this`trace, this`harmed
      ensures Valid() && old(trace) <= trace && state == next
    {
      harmed := harmed || !Respectful(state, next);
      state := next;
      trace := trace + {next};
    }

    /** Exclusive creation of a temporary file. A call that fails after taking effect leaves a file
        the run does not know. */
    method Create(name: string, isArchive: bool) returns (ok: bool)
      requires Valid() && name != job.archiveName && name != ChecksumName(job.archiveName)
      requires if isArchive then state.archive == None else state.checksum == None
      requires LeftBehind(job, state) == Neither
      modifies this`state, this`trace, this`harmed
      ensures Valid() && old(trace) <= trace && LeftBehind(job, state) == Neither
      ensures !ok ==> state.archive == old(state).archive && state.checksum == old(state).checksum
      ensures ok && isArchive ==>
                state.archive.Some? && state.checksum == old(state).checksum && state.dir.contents[state.archive.value] == []
      ensures ok && !isArchive ==>
                state.checksum.Some? && state.archive == old(state).archive && state.dir.contents[state.checksum.value] == []
      ensures Kept(old(state), state, old(state).archive) && Kept(old(state), state, old(state).checksum)
      ensures quiet ==> (ok <==> name !in old(state).dir.entries) && OnlyName(old(state), state, name)
      ensures ok && quiet ==> Bound(state, name, if isArchive then state.archive else state.checksum)
    {
      Interfere();
      if name in state.dir.entries {
        return false;
      }
      var fails: bool, effect: bool := *, *;
      var inode := UnusedInode(state.dir.contents.Keys);
      var dir := Dir(state.dir.entries[name := inode], state.dir.contents[inode := []]);
      if fails && !quiet {
        if effect {
          Take(state.(dir := dir));
        }
        return false;
      }
      Take(if isArchive then State(dir, Some(inode), state.checksum) else State(dir, state.archive, Some(inode)));
      ok := true;
    }

    /** Appends to one of our files while nothing is linked under a final name. */
    method Append(inode: nat, bytes: seq<Byte>) returns (ok: bool)
      requires Valid() && IsOurs(state, inode) && LeftBehind(job, state) == Neither
      modifies this`state, this`trace, this`harmed
      ensures Valid() && old(trace) <= trace && LeftBehind(job, state) == Neither
      ensures state.archive == old(state).archive && state.checksum == old(state).checksum
      ensures ok ==> state.dir.contents[inode] == old(state).dir.contents[inode] + bytes
      ensures forall i :: IsOurs(state, i) && i != inode ==> state.dir.contents[i] == old(state).dir.contents[i]
      ensures quiet ==> ok && state.dir.entries == old(state).dir.entries
    {
      Interfere();
      var fails: bool, effect: bool := *, *;
      ok := quiet || !fails;
      if ok || effect {
        Take(state.(dir := state.dir.(contents := state.dir.contents[inode := state.dir.contents[inode] + bytes])));
      }
    }

    /** The removal itself, after the identity has been checked; it may fail, before or after the name
        is gone. */
    method Unlink(name: string, inode: nat) returns (ok: bool)
      requires Valid() && Bound(state, name, Some(inode)) && IsOurs(state, inode)
      requires name == ChecksumName(job.archiveName) ==> !Bound(state, job.archiveName, state.archive) || Unnoticed()
      modifies this`state, this`trace, this`harmed, this`faults
      ensures Valid() && old(trace) <= trace && KeptBut(old(state), state, name)
      ensures ok ==> faults == old(faults) && !Bound(state, name, Some(inode))
      ensures !ok ==> faults == old(faults) + {if Bound(state, name, Some(inode)) then RemovalFailed(name) else RemovalUncounted(name)}
      ensures quiet ==> (ok <==> name !in stuck) && OnlyName(old(state), state, name)
      ensures quiet && !ok ==> RemovalFailed(name) in faults
    {
      ghost var before := state;
      Interfere();
      ForeignKeeps(before, state, name);
      var fails: bool, effect: bool := *, *;
      ok := if quiet then name !in stuck else !fails;
      if ok || (effect && !quiet) {
        ghost var middle := state;
        UnlinkEffect(state, name, inode);
        Take(AfterUnlink(state, name));
        KeptButTwice(before, middle, state, name);
      }
      if !ok {
        faults := faults + {if Bound(state, name, Some(inode)) then RemovalFailed(name) else RemovalUncounted(name)};
      }
    }

    /** `_unlink_if_identity`: removes a name only while it is the given file of ours. What it could
        not do is recorded. */
    method UnlinkIfIdentity(name: string, inode: nat) returns (ok: bool)
      requires Valid() && IsOurs(state, inode)
      requires name == ChecksumName(job.archiveName) ==> !Bound(state, job.archiveName, state.archive) || Unnoticed()
      modifies this`state, this`trace, this`harmed, this`faults
      ensures Valid() && old(trace) <= trace && KeptBut(old(state), state, name)
      ensures ok ==> faults == old(faults) && !Bound(state, name, Some(inode))
      ensures !ok ==>
                || (&& faults == old(faults) + {RemovalFailed(name)}
                    && (Bound(state, name, Some(inode)) <==> Bound(old(state), name, Some(inode))))
                || (faults == old(faults) + {RemovalUncounted(name)} && !Bound(state, name, Some(inode)))
      ensures quiet ==> (ok <==> name in old(state).dir.entries ==> old(state).dir.entries[name] == inode && name !in stuck)
      ensures quiet ==> OnlyName(old(state), state, name)
      ensures quiet && !ok ==> RemovalFailed(name) in faults
    {
      ghost var before := state;
      Interfere();
      ForeignKeeps(before, state, name);
      ForeignKeeps(before, state, job.archiveName);
      var fails: bool := *;
      if name !in state.dir.entries && (quiet || !fails) {
        return true;
      }
      if name !in state.dir.entries || state.dir.entries[name] != inode || (fails && !quiet) {
        faults := faults + {RemovalFailed(name)};
        return false;
      }
      ghost var middle := state;
      ok := Unlink(name, inode);
      KeptButTwice(before, middle, state, name);
    }

    /** A hard link under a name that must not exist yet. */
    method Link(name: string, inode: nat) returns (ok: bool)
      requires Valid() && IsOurs(state, inode)
      requires || (name == ChecksumName(job.archiveName) && state.checksum == Some(inode))
               || (name == job.archiveName && state.archive == Some(inode) && ReadyToLink(job, state))
      modifies this`state, this`trace, this`harmed, this`faults, this`links
      ensures Valid() && old(trace) <= trace && KeptBut(old(state), state, name)
      ensures ok ==> Bound(state, name, Some(inode)) && faults == old(faults) && links == old(links) + {name}
      ensures !ok ==>
                || (&& (Bound(state, name, Some(inode)) <==> Bound(old(state), name, Some(inode)))
                    && faults == old(faults) && links == old(links))
                || (&& Bound(state, name, Some(inode)) && !Bound(old(state), name, Some(inode))
                    && faults == old(faults) + {LinkUncounted(name)} && links == old(links) + {name})
      ensures quiet ==> (ok <==> name !in old(state).dir.entries && name !in uncounted) && OnlyName(old(state), state, name)
      ensures quiet && name !in old(state).dir.entries ==> Bound(state, name, Some(inode))
    {
      ghost var before := state;
      Interfere();
      ForeignKeeps(before, state, name);
      if name in state.dir.entries {
        return false;
      }
      var fails: bool, effect: bool := *, *;
      ok := if quiet then name !in uncounted else !fails;
      if ok || effect || quiet {
        ghost var middle := state;
        LinkEffect(state, name, inode);
        Take(AfterLink(state, name, inode));
        links := links + {name};
        KeptButTwice(before, middle, state, name);
      }
      if !ok && (effect || quiet) {
        faults := faults + {LinkUncounted(name)};
      }
    }

    /** A call that only reads or flushes. */
    method Flush() returns (ok: bool)
      requires Valid()
      modifies this`state, this`trace, this`faults
      ensures Valid() && old(trace) <= trace && Foreign(old(state), state)
      ensures faults == if ok then old(faults) else old(faults) + {FlushFailed}
      ensures quiet ==> ok && state == old(state)
    {
      Interfere();
      var fails: bool := *;
      ok := quiet || !fails;
      if !ok {
        faults := faults + {FlushFailed};
      }
    }

    /** An interrupt reaches the run with a final link made: no handler rolls back. */
    method Interruption() returns (interrupted: bool)
      requires Valid()
      modifies this`faults
      ensures Valid() && faults == if interrupted then old(faults) + {Interrupted} else old(faults)
      ensures quiet ==> !interrupted
    {
      interrupted := *;
      interrupted := interrupted && !quiet;
      if interrupted {
        faults := faults + {Interrupted};
      }
    }

    /** The two copy loops: chunks from the source, each written out however the system cuts it up. */
    method CopyLoop(source: seq<Byte>, inode: nat) returns (ok: bool)
      requires Valid() && IsOurs(state, inode) && state.dir.contents[inode] == [] && LeftBehind(job, state) == Neither
      modifies this`state, this`trace, this`harmed
      ensures Valid() && old(trace) <= trace && LeftBehind(job, state) == Neither
      ensures state.archive == old(state).archive && state.checksum == old(state).checksum
      ensures ok ==> state.dir.contents[inode] == source
      ensures forall i :: IsOurs(state, i) && i != inode ==> state.dir.contents[i] == old(state).dir.contents[i]
      ensures quiet ==> ok && state.dir.entries == old(state).dir.entries
    {
      var offset := 0;
      ok := true;
      while offset < |source|
        invariant Valid() && old(trace) <= trace && 0 <= offset <= |source| && ok && LeftBehind(job, state) == Neither
        invariant state.archive == old(state).archive && state.checksum == old(state).checksum
        invariant state.dir.contents[inode] == source[..offset]
        invariant quiet ==> state.dir.entries == old(state).dir.entries
        invariant forall i :: IsOurs(state, i) && i != inode ==> state.dir.contents[i] == old(state).dir.contents[i]
      {
        var end := if offset + CHUNK <= |source| then offset + CHUNK else |source|;
        while offset < end
          invariant Valid() && old(trace) <= trace && 0 <= offset <= end <= |source| && ok && LeftBehind(job, state) == Neither
          invariant state.archive == old(state).archive && state.checksum == old(state).checksum
          invariant state.dir.contents[inode] == source[..offset]
          invariant quiet ==> state.dir.entries == old(state).dir.entries
          invariant forall i :: IsOurs(state, i) && i != inode ==> state.dir.contents[i] == old(state).dir.contents[i]
        {
          var accepted: int := *;
          var consumed := if 0 < accepted <= end - offset then accepted else end - offset;
          ok := Append(inode, source[offset..offset + consumed]);
          if !ok {
            return;
          }
          assert source[..offset] + source[offset..offset + consumed] == source[..offset + consumed];
          offset := offset + consumed;
        }
      }
      assert source[..offset] == source;
    }

    /** The name does not stand for this file of ours, unless removing it failed. */
    ghost predicate Swept(name: string, inode: Option<nat>)
      reads `state, `faults
    {
      Bound(state, name, inode) ==> RemovalFailed(name) in faults
    }

    /** Both temporary names are gone as far as their removals worked; one that reports failure ends the removing. */
    ghost predicate TemporariesSwept()
      reads `state, `faults
    {
      var a, c := Temporary(job.archiveName, job.token), Temporary(ChecksumName(job.archiveName), job.token);
      && Swept(a, state.archive)
      && (Bound(state, c, state.checksum) ==>
            RemovalFailed(c) in faults || RemovalFailed(a) in faults || RemovalUncounted(a) in faults)
    }

    /** `_copy_descriptor_to_at`: a complete temporary copy, or none of ours under that name unless
        removing it failed too. A source whose size is not the recorded one is refused. */
    method CopyTo(source: seq<Byte>, size: nat, name: string, isArchive: bool) returns (ok: bool)
      requires Valid() && name != job.archiveName && name != ChecksumName(job.archiveName)
      requires if isArchive then state.archive == None else state.checksum == None
      requires LeftBehind(job, state) == Neither
      modifies this`state, this`trace, this`harmed, this`faults
      ensures Valid() && old(trace) <= trace && LeftBehind(job, state) == Neither
      ensures if isArchive then state.checksum == old(state).checksum else state.archive == old(state).archive
      ensures Kept(old(state), state, if isArchive then old(state).checksum else old(state).archive)
      ensures ok ==>
                var inode := if isArchive then state.archive else state.checksum;
                |source| == size && inode.Some? && state.dir.contents[inode.value] == source
      ensures ok ==> faults == old(faults)
      ensures !ok ==> Swept(name, if isArchive then state.archive else state.checksum)
      ensures old(faults) <= faults && forall f :: f in faults && OnFinal(job, f) ==> f in old(faults)
      ensures quiet ==> (ok <==> name !in old(state).dir.entries && |source| == size) && OnlyName(old(state), state, name)
      ensures quiet && ok ==> Bound(state, name, if isArchive then state.archive else state.checksum)
    {
      ok := Create(name, isArchive);
      if !ok {
        return;
      }
      var inode := if isArchive then state.archive.value else state.checksum.value;
      ghost var created := state;
      ok := CopyLoop(source, inode);
      if quiet {
        SameEntriesKeep(old(state), created, state, name);
      }
      if ok && |source| != size {
        ok := false;
      }
      if ok {
        ok := Flush();
      }
      if !ok {
        ghost var middle := state;
        var _ := UnlinkIfIdentity(name, inode);
        KeptButLeaves(job, middle, state, name);
        if quiet {
          OnlyNameTwice(old(state), middle, state, name);
        }
      }
    }

    /** The handler of a failed publication: the archive's name goes before the checksum's, and a
        removal that reports failure ends it. It only knows of the links that were counted. */
    method RollBack(publishedChecksum: bool, publishedArchive: bool)
      requires Valid() && state.archive.Some? && state.checksum.Some?
      requires publishedArchive ==> Bound(state, job.archiveName, state.archive)
      requires !publishedArchive && Bound(state, job.archiveName, state.archive) ==> Unnoticed()
      requires publishedChecksum ==> Bound(state, ChecksumName(job.archiveName), state.checksum)
      requires forall f :: f in faults ==> f.FlushFailed? || f.LinkUncounted?
      modifies this`state, this`trace, this`harmed, this`faults
      ensures Valid() && old(trace) <= trace
      ensures RollsBack(job, old(state), old(faults), publishedChecksum, publishedArchive, state, faults)
      ensures quiet && publishedChecksum && !publishedArchive ==>
                (RemovalFailed(ChecksumName(job.archiveName)) in faults <==> ChecksumName(job.archiveName) in stuck)
    {
      if publishedArchive {
        var ok := UnlinkIfIdentity(job.archiveName, state.archive.value);
        if !ok {
          return;
        }
      }
      if publishedChecksum {
        var ok := UnlinkIfIdentity(ChecksumName(job.archiveName), state.checksum.value);
        if !ok {
          return;
        }
      }
      var _ := Flush();
    }

    /** The second half: with the checksum linked and flushed, link and flush the archive. */
    method LinkArchive() returns (published: bool)
      requires Valid() && ReadyToLink(job, state) && LeftBehind(job, state) == ChecksumOnly
      requires faults == {} && links == {ChecksumName(job.archiveName)}
      modifies this`state, this`trace, this`harmed, this`faults, this`links
      ensures Valid() && old(trace) <= trace
      ensures state.archive == old(state).archive && state.checksum == old(state).checksum
      ensures Accounts(job, state, faults, links, published)
      ensures quiet && job.archiveName !in old(state).dir.entries ==>
                && (published <==> job.archiveName !in uncounted)
                && LeftBehind(job, state) ==
                   (if job.archiveName in uncounted && ChecksumName(job.archiveName) !in stuck then ArchiveOnly else Both)
      ensures quiet && published ==> OnlyName(old(state), state, job.archiveName)
    {
      var ok := Link(job.archiveName, state.archive.value);
      if !ok {
        ghost var reached, known := state, faults;
        RollBack(true, false);
        RollBackAccounts(job, reached, known, links, true, false, state, faults);
        return false;
      }
      var interrupted := Interruption();
      if interrupted {
        return false;
      }
      ok := Flush();
      if !ok {
        ghost var reached, known := state, faults;
        RollBack(true, true);
        RollBackAccounts(job, reached, known, links, true, true, state, faults);
        return false;
      }
      published := true;
    }

    /** The first half: link and flush the checksum. */
    method LinkChecksum() returns (linked: bool)
      requires Valid() && LeftBehind(job, state) == Neither && faults == {} && links == {}
      requires state.archive.Some? && state.checksum.Some?
      modifies this`state, this`trace, this`harmed, this`faults, this`links
      ensures Valid() && old(trace) <= trace
      ensures state.archive == old(state).archive && state.checksum == old(state).checksum
      ensures linked ==> forall i :: IsOurs(state, i) ==> state.dir.contents[i] == old(state).dir.contents[i]
      ensures linked ==> LeftBehind(job, state) == ChecksumOnly && faults == {} && links == {ChecksumName(job.archiveName)}
      ensures !linked ==> Accounts(job, state, faults, links, false)
      ensures quiet && ChecksumName(job.archiveName) !in old(state).dir.entries ==>
                && (linked <==> ChecksumName(job.archiveName) !in uncounted)
                && LeftBehind(job, state) == ChecksumOnly
      ensures quiet && linked ==> OnlyName(old(state), state, ChecksumName(job.archiveName))
    {
      NamesDiffer(job.archiveName, job.token);
      linked := Link(ChecksumName(job.archiveName), state.checksum.value);
      if !linked {
        ghost var reached, known := state, faults;
        RollBack(false, false);
        RollBackAccounts(job, reached, known, links, false, false, state, faults);
        return false;
      }
      var interrupted := Interruption();
      if interrupted {
        return false;
      }
      linked := Flush();
      if !linked {
        ghost var reached, known := state, faults;
        RollBack(true, false);
        RollBackAccounts(job, reached, known, links, true, false, state, faults);
      }
    }

    /** What the linking leaves when only the links in `uncounted` and the removals in `stuck` go wrong. */
    function LeftByLinking(): Left {
      if ChecksumName(job.archiveName) in uncounted then ChecksumOnly
      else if job.archiveName in uncounted && ChecksumName(job.archiveName) !in stuck then ArchiveOnly
      else Both
    }

    /** The two links, each followed by a flush. */
    method LinkBoth() returns (published: bool)
      requires Valid() && LeftBehind(job, state) == Neither && faults == {} && links == {}
      requires state.archive.Some? && state.checksum.Some?
      requires state.dir.contents[state.archive.value] == job.archive && state.dir.contents[state.checksum.value] == job.checksum
      modifies this`state, this`trace, this`harmed, this`faults, this`links
      ensures Valid() && old(trace) <= trace
      ensures state.archive == old(state).archive && state.checksum == old(state).checksum
      ensures Accounts(job, state, faults, links, published)
      ensures quiet && job.archiveName !in old(state).dir.entries && ChecksumName(job.archiveName) !in old(state).dir.entries ==>
                && (published <==> job.archiveName !in uncounted && ChecksumName(job.archiveName) !in uncounted)
                && LeftBehind(job, state) == LeftByLinking()
      ensures quiet && published ==>
                forall n :: n != job.archiveName && n != ChecksumName(job.archiveName) ==> SameName(old(state), state, n)
    {
      NamesDiffer(job.archiveName, job.token);
      ghost var before := state;
      published := LinkChecksum();
      assert quiet && published ==> SameName(before, state, job.archiveName);
      ghost var middle := state;
      if published {
        published := LinkArchive();
        assert quiet && published ==> forall n :: SameName(before, middle, n) && SameName(middle, state, n) ==> SameName(before, state, n);
      }
    }

    /** Removing the temporary names, on every way out, until a removal reports failure. */
    method RemoveTemporaries(archiveCopied: bool, checksumCopied: bool) returns (ok: bool)
      requires Valid()
      requires (archiveCopied ==> state.archive.Some?) && (checksumCopied ==> state.checksum.Some?)
      modifies this`state, this`trace, this`harmed, this`faults
      ensures Valid() && old(trace) <= trace
      ensures state.archive == old(state).archive && state.checksum == old(state).checksum
      ensures LeftBehind(job, state) == LeftBehind(job, old(state))
      requires !archiveCopied ==> Swept(Temporary(job.archiveName, job.token), state.archive)
      requires !checksumCopied ==> Swept(Temporary(ChecksumName(job.archiveName), job.token), state.checksum)
      ensures TemporariesSwept()
      ensures ok ==> faults == old(faults)
      ensures !ok ==> exists n :: n in Temporaries(job)
                        && (faults == old(faults) + {RemovalFailed(n)} || faults == old(faults) + {RemovalUncounted(n)})
      ensures (quiet && (archiveCopied ==> Bound(old(state), Temporary(job.archiveName, job.token), old(state).archive))
               && (checksumCopied ==> Bound(old(state), Temporary(ChecksumName(job.archiveName), job.token), old(state).checksum))) ==>
                (ok <==> && (archiveCopied ==> Temporary(job.archiveName, job.token) !in stuck)
                         && (checksumCopied ==> Temporary(ChecksumName(job.archiveName), job.token) !in stuck))
    {
      NamesDiffer(job.archiveName, job.token);
      ok := true;
      if archiveCopied {
        ok := UnlinkIfIdentity(Temporary(job.archiveName, job.token), state.archive.value);
      }
      if ok && checksumCopied {
        ok := UnlinkIfIdentity(Temporary(ChecksumName(job.archiveName), job.token), state.checksum.value);
      }
    }

    /** The four names are free and both sources have their recorded sizes. */
    predicate Fits(s: State, archiveSize: nat, checksumSize: nat) {
      NamesFree(s) && |job.archive| == archiveSize && |job.checksum| == checksumSize
    }

    /** The two temporary copies. */
    method CopyBoth(archiveSize: nat, checksumSize: nat) returns (archiveCopied: bool, checksumCopied: bool)
      requires Valid() && state.archive == None && state.checksum == None && faults == {}
      modifies this`state, this`trace, this`harmed, this`faults
      ensures Valid() && old(trace) <= trace && LeftBehind(job, state) == Neither
      ensures (archiveCopied ==> state.archive.Some?) && (checksumCopied ==> archiveCopied && state.checksum.Some?)
      ensures checksumCopied ==>
                && |job.archive| == archiveSize && |job.checksum| == checksumSize && faults == {}
                && state.dir.contents[state.archive.value] == job.archive && state.dir.contents[state.checksum.value] == job.checksum
      ensures forall f :: f in faults ==> !OnFinal(job, f)
      ensures quiet ==> SameName(old(state), state, job.archiveName) && SameName(old(state), state, ChecksumName(job.archiveName))
      ensures quiet ==>
                (checksumCopied <==> && (forall n :: n in Temporaries(job) ==> n !in old(state).dir.entries)
                                     && |job.archive| == archiveSize && |job.checksum| == checksumSize)
      ensures !archiveCopied ==> Swept(Temporary(job.archiveName, job.token), state.archive) && state.checksum == None
      ensures !checksumCopied ==> Swept(Temporary(ChecksumName(job.archiveName), job.token), state.checksum)
      ensures quiet && archiveCopied ==> Bound(state, Temporary(job.archiveName, job.token), state.archive)
      ensures quiet && checksumCopied ==> Bound(state, Temporary(ChecksumName(job.archiveName), job.token), state.checksum)
    {
      NamesDiffer(job.archiveName, job.token);
      ghost var names := job.Names();
      ghost var before := state;
      checksumCopied := false;
      archiveCopied := CopyTo(job.archive, archiveSize, Temporary(job.archiveName, job.token), true);
      assert quiet ==> SameName(before, state, names.0) && SameName(before, state, names.1) && SameName(before, state, names.3);
      if archiveCopied {
        ghost var middle := state;
        checksumCopied := CopyTo(job.checksum, checksumSize, Temporary(ChecksumName(job.archiveName), job.token), false);
        assert quiet ==> SameName(middle, state, names.0) && SameName(middle, state, names.1) && SameName(middle, state, names.2);
      }
    }

    /** `_publish_pair`. Success leaves both files with the snapshot bytes. A call that raises leaves
        something exactly when a link was not counted, the run was interrupted after a link, a name could
        not be rolled back, or everything but the removal of a temporary name had been done. Throughout,
        no file of anybody else is touched, and our archive is not linked without our checksum unless its
        own link was not counted (`Valid`). */
    method PublishPair(archiveSize: nat, checksumSize: nat) returns (published: bool)
      requires Valid() && state.archive == None && state.checksum == None && faults == {} && links == {}
      modifies this
      ensures Valid() && old(trace) <= trace
      ensures published ==> LeftBehind(job, state) == Both && |job.archive| == archiveSize && |job.checksum| == checksumSize
      ensures !published ==> (LeftBehind(job, state) != Neither <==> Strands(job, faults) || CleanupBroke(job, faults, links))
      ensures !published && CleanupBroke(job, faults, links) && !Strands(job, faults) ==> LeftBehind(job, state) == Both
      ensures !published && faults == {} ==> LeftBehind(job, state) == Neither
      ensures TemporariesSwept()
      ensures LeftBehind(job, state) == ArchiveOnly <==> Unnoticed() && RemovalFailed(ChecksumName(job.archiveName)) !in faults
      ensures quiet ==> LeftBehind(job, state) == if Fits(old(state), archiveSize, checksumSize) then LeftByLinking() else Neither
      ensures quiet ==>
                (published <==> && Fits(old(state), archiveSize, checksumSize) && Temporaries(job) !! stuck
                                && {job.archiveName, ChecksumName(job.archiveName)} !! uncounted)
    {
      NamesDiffer(job.archiveName, job.token);
      Interfere();
      if job.archiveName in state.dir.entries || ChecksumName(job.archiveName) in state.dir.entries {
        return false;
      }
      published := false;
      ghost var names := job.Names();
      var archiveCopied, checksumCopied := CopyBoth(archiveSize, checksumSize);
      if checksumCopied {
        ghost var copied := state;
        published := LinkBoth();
        assert quiet && published ==> SameName(copied, state, names.2) && SameName(copied, state, names.3);
      }
      ghost var ended, known := state, faults;
      var cleaned := RemoveTemporaries(archiveCopied, checksumCopied);
      CleanupAccounts(job, ended, known, links, published, state, faults, cleaned);
      published := published && cleaned;
    }
  }

  const EXAMPLE: Job := Job("a", seq(TOKEN_LENGTH, i => '0'), [1], [2])

  /** With nothing amiss but one temporary name that cannot be removed, the call raises and both files
      are published. */
  method RaisesWithBoth() returns (published: bool, left: Left)
    ensures !published && left == Both
  {
    var p := new Publisher(EXAMPLE, Dir(map[], map[]), true, {Temporary("a", EXAMPLE.token)}, {});
    published := p.PublishPair(1, 1);
    left := LeftBehind(EXAMPLE, p.state);
  }

  /** With nothing amiss but the archive's link reporting failure after it was made, the rollback takes
      the checksum away and the archive stays without it. */
  method RaisesWithArchiveOnly() returns (published: bool, left: Left)
    ensures !published && left == ArchiveOnly
  {
    var p := new Publisher(EXAMPLE, Dir(map[], map[]), true, {}, {"a"});
    published := p.PublishPair(1, 1);
    left := LeftBehind(EXAMPLE, p.state);
  }
}
