/** Projecting secrets to several profiles at once, as a transaction over directories and symlinks.

    Every change to a directory is one call of `Host.Attempt`, which may fail before or after its
    effect and appends the directory state to `trace`. A crash can leave any state of the trace. */
module SecretProjection {
  import opened Common

  datatype File = Partial | Sealed(value: string) | Unsafe

  /** A generation directory; `sealed` once it has its final owner and mode. */
  datatype Generation = Generation(files: map<string, File>, sealed: bool)

  datatype Link = Absent | To(name: string) | NotALink

  /** One profile's directory: `current`, the generation directories, the `.current-` symlinks, and
      whether it holds any other entry. */
  datatype Root = Root(current: Link, generations: map<string, Generation>, temporaries: map<string, string>, strange: bool)

  datatype Profile = Profile(name: string, secretNames: seq<string>)

  datatype Staged = Staged(name: string, previous: Option<string>)

  /** Rejected: a state was refused. Raised: a call failed or the process was interrupted. */
  datatype Outcome = Done | Rejected | Raised

  predicate IsGenerationName(name: string) {
    "generation-" <= name && '/' !in name
  }

  ghost function Names(p: Profile): set<string> {
    set n | n in p.secretNames
  }

  // ----- What a directory must look like -----

  predicate Expected(p: Profile, g: Generation) {
    forall n :: n in g.files ==> n in p.secretNames && g.files[n] != Unsafe
  }

  predicate FullInventory(p: Profile, g: Generation) {
    && Expected(p, g)
    && (forall n :: n in g.files ==> g.files[n].Sealed? && g.files[n].value != "")
    && (forall n :: n in p.secretNames ==> n in g.files)
  }

  /** Exactly the profile's secrets, each of them sealed and not empty. */
  lemma FullInventoryExactly(p: Profile, g: Generation)
    ensures FullInventory(p, g) <==>
              g.files.Keys == Names(p) && forall n :: n in Names(p) ==> g.files[n].Sealed? && g.files[n].value != ""
  {}

  /** Exactly the prefix and a rest without slashes. */
  lemma GenerationNameExactly(name: string)
    ensures IsGenerationName(name) <==> exists rest :: name == "generation-" + rest && '/' !in rest
  {
    if IsGenerationName(name) {
      assert name == "generation-" + name[11..];
    }
  }

  predicate Complete(p: Profile, g: Generation) {
    g.sealed && FullInventory(p, g)
  }

  /** What `_remove_generation` insists on before it deletes anything. */
  predicate Removable(p: Profile, r: Root, name: string, allowIncomplete: bool) {
    && IsGenerationName(name)
    && (name in r.generations ==>
          if allowIncomplete then Expected(p, r.generations[name]) else FullInventory(p, r.generations[name]))
  }

  predicate HasComplete(p: Profile, r: Root, name: string) {
    IsGenerationName(name) && name in r.generations && Complete(p, r.generations[name])
  }

  /** `current` is absent or names a complete generation. */
  predicate Safe(p: Profile, r: Root) {
    r.current == Absent || (r.current.To? && HasComplete(p, r, r.current.name))
  }

  /** Safe, and every leftover is something the next run may delete. */
  predicate Recoverable(p: Profile, r: Root) {
    && Safe(p, r) && !r.strange
    && forall g :: g in r.generations ==> IsGenerationName(g) && Expected(p, r.generations[g])
  }

  ghost predicate Good(profiles: seq<Profile>, roots: seq<Root>) {
    |profiles| == |roots| && forall i :: 0 <= i < |roots| ==> Recoverable(profiles[i], roots[i])
  }

  function Target(link: Link): Option<string> {
    if link.To? then Some(link.name) else None
  }

  function LinkTo(target: Option<string>): Link {
    match target case Some(name) => To(name) case None => Absent
  }

  /** Only the generation `current` names is left. */
  ghost predicate Tidy(r: Root) {
    && r.temporaries == map[]
    && forall g :: g in r.generations ==> r.current == To(g)
  }

  /** A generation holding exactly these values. */
  ghost predicate Holds(p: Profile, g: Generation, values: map<string, string>) {
    Complete(p, g) && forall n :: n in p.secretNames ==> n in values && g.files[n] == Sealed(values[n])
  }

  /** Deleting from, or deleting, a generation that is not current. */
  lemma ShrinkKeeps(p: Profile, r: Root, name: string, less: Generation)
    requires Recoverable(p, r) && name in r.generations && r.current != To(name)
    requires less.files.Keys <= r.generations[name].files.Keys
    requires forall n :: n in less.files ==> less.files[n] == r.generations[name].files[n]
    ensures Recoverable(p, r.(generations := r.generations[name := less]))
    ensures Recoverable(p, r.(generations := r.generations - {name}))
  {}

  // ----- What a call may change -----

  ghost predicate OnlyRoot(before: seq<Root>, after: seq<Root>, i: nat) {
    |before| == |after| && forall j :: 0 <= j < |before| && j != i ==> after[j] == before[j]
  }

  ghost predicate OnlyGeneration(before: Root, after: Root, name: string) {
    && after.current == before.current && after.temporaries == before.temporaries && after.strange == before.strange
    && forall g :: g != name ==>
         && (g in after.generations <==> g in before.generations)
         && (g in before.generations ==> after.generations[g] == before.generations[g])
  }

  /** Files may be missing, and nothing else differs. */
  predicate Less(before: Generation, after: Generation) {
    forall n :: n in after.files ==> n in before.files && after.files[n] == before.files[n]
  }

  /** No generation holds a file it did not hold before. */
  ghost predicate NothingNew(before: Root, after: Root) {
    forall g :: g in after.generations ==>
      after.generations[g].files == map[] || (g in before.generations && Less(before.generations[g], after.generations[g]))
  }

  /** Leftovers may go; `current` and the generation it names stay as they are. */
  ghost predicate Shrunk(before: Root, after: Root) {
    && after.current == before.current && after.strange == before.strange
    && after.temporaries.Keys <= before.temporaries.Keys
    && after.generations.Keys <= before.generations.Keys
    && NothingNew(before, after)
    && forall g :: before.current == To(g) ==>
         && (g in after.generations <==> g in before.generations)
         && (g in before.generations ==> after.generations[g] == before.generations[g])
  }

  lemma ShrunkNext(start: Root, before: Root, after: Root, name: string)
    requires Shrunk(start, before) && OnlyGeneration(before, after, name) && before.current != To(name)
    requires name in after.generations ==>
               name in before.generations && Less(before.generations[name], after.generations[name])
    ensures Shrunk(start, after)
  {
    forall g | g in after.generations && after.generations[g].files != map[]
      ensures g in start.generations && Less(start.generations[g], after.generations[g])
    {
      assert g in before.generations;
    }
  }

  /** Sweeping a directory: what is still to be looked at, and what has been kept. */
  ghost predicate Sweeping(p: Profile, start: Root, now: Root, generations: set<string>, temporaries: set<string>, previous: Option<string>) {
    && Shrunk(start, now) && Safe(p, now) && previous == Target(now.current)
    && generations <= start.generations.Keys && temporaries <= start.temporaries.Keys
    && now.temporaries.Keys <= temporaries && generations <= now.generations.Keys
    && (forall g :: g in start.generations && g !in generations ==> IsGenerationName(g) && Expected(p, start.generations[g]))
    && (forall g :: g in generations ==> now.current != To(g))
    && (forall g :: g in now.generations ==> g in generations || now.current == To(g))
    && (forall g :: g in generations ==> now.generations[g] == start.generations[g])
  }

  lemma SweepGeneration(p: Profile, start: Root, now: Root, generations: set<string>, temporaries: set<string>, previous: Option<string>,
                        g: string, after: Root)
    requires Sweeping(p, start, now, generations, temporaries, previous) && g in generations
    requires OnlyGeneration(now, after, g)
    requires g in after.generations ==> g in now.generations && Less(now.generations[g], after.generations[g])
    ensures Shrunk(start, after) && Safe(p, after)
    ensures g !in after.generations && Removable(p, now, g, true) ==> Sweeping(p, start, after, generations - {g}, temporaries, previous)
  {
    ShrunkNext(start, now, after, g);
  }

  lemma SweepTemporary(p: Profile, start: Root, now: Root, generations: set<string>, temporaries: set<string>, previous: Option<string>, name: string)
    requires Sweeping(p, start, now, generations, temporaries, previous)
    ensures Sweeping(p, start, now.(temporaries := now.temporaries - {name}), generations, temporaries - {name}, previous)
  {}

  lemma DropTemporary(p: Profile, r: Root, temporary: string)
    requires Recoverable(p, r)
    ensures Recoverable(p, r.(temporaries := r.temporaries - {temporary}))
  {}

  /** Like `Shrunk`, but other generations may also have been added. */
  ghost predicate CurrentKept(before: Root, after: Root) {
    && after.current == before.current && after.strange == before.strange
    && forall g :: before.current == To(g) ==>
         && (g in after.generations <==> g in before.generations)
         && (g in before.generations ==> after.generations[g] == before.generations[g])
  }

  lemma GrowKeeps(p: Profile, r: Root, name: string, more: Generation)
    requires Recoverable(p, r) && r.current != To(name)
    requires IsGenerationName(name) && Expected(p, more)
    ensures Recoverable(p, r.(generations := r.generations[name := more]))
  {}

  lemma SwitchKeeps(p: Profile, r: Root, link: Link, temporaries: map<string, string>)
    requires Recoverable(p, r)
    requires link == r.current || link == Absent
             || (link.To? && HasComplete(p, r, link.name))
    ensures Recoverable(p, r.(current := link, temporaries := temporaries))
  {}

  ghost function Previous(target: Option<string>): set<string> {
    match target case Some(name) => {name} case None => {}
  }

  /** Staging has left the old `current` beside one complete new generation, and nothing else. */
  ghost predicate Ready(p: Profile, before: Root, after: Root, st: Staged, values: map<string, string>) {
    && Safe(p, after) && after.current == before.current && !after.strange
    && after.temporaries == map[]
    && st.previous == Target(before.current)
    && IsGenerationName(st.name) && after.current != To(st.name)
    && after.generations.Keys == {st.name} + Previous(st.previous)
    && Holds(p, after.generations[st.name], values)
  }

  lemma BuiltAfterSweep(p: Profile, before: Root, swept: Root, after: Root, name: string)
    requires Shrunk(before, swept) && Safe(p, swept) && OnlyGeneration(swept, after, name)
    requires after == swept || name !in swept.generations
    ensures CurrentKept(before, after)
    ensures after == swept || name !in after.generations || after.generations[name].files == map[] ==> NothingNew(before, after)
  {
    if after == swept || name !in after.generations || after.generations[name].files == map[] {
      forall g | g in after.generations && after.generations[g].files != map[]
        ensures g in before.generations && Less(before.generations[g], after.generations[g])
      {
        assert g in swept.generations;
      }
    }
  }

  predicate DistinctNames(p: Profile) {
    forall i, j :: 0 <= i < j < |p.secretNames| ==> p.secretNames[i] != p.secretNames[j]
  }

  /** A suffix of zeros longer than every name in use. */
  method NewSuffix(prefix: string, used: set<string>) returns (suffix: string)
    ensures '/' !in suffix && prefix + suffix !in used
  {
    var rest := used;
    suffix := "";
    while rest != {}
      invariant rest <= used && '/' !in suffix
      invariant forall n :: n in used && n !in rest ==> |n| < |prefix + suffix|
      decreases |rest|, 0
    {
      var n :| n in rest;
      suffix := Longer(suffix, |n|);
      rest := rest - {n};
    }
  }

  function Longer(s: string, n: nat): (r: string)
    requires '/' !in s
    ensures |r| > n && |r| >= |s| && '/' !in r
    decreases if n < |s| then 0 else n + 1 - |s|
  {
    if |s| > n then s else Longer(s + "0", n)
  }

  ghost predicate Usable(p: Profile, values: map<string, string>) {
    forall n :: n in p.secretNames ==> n in values && values[n] != ""
  }

  /** Only the link and temporaries may differ, and the link is the old one or `link`. */
  ghost predicate MaySwitch(before: Root, after: Root, link: Link) {
    && after.generations == before.generations && after.strange == before.strange
    && (after.current == before.current || after.current == link)
  }

  lemma ReadyIsInTransit(p: Profile, before: Root, after: Root, st: Staged, values: map<string, string>)
    requires Ready(p, before, after, st, values)
    ensures InTransit(p, after, st) && after.current == LinkTo(st.previous) && after.current != To(st.name)
  {}

  /** Removing the staged generation again leaves `current` and what it names as they were, and nothing new. */
  lemma StagedRemoved(p: Profile, before: Root, ready: Root, after: Root, st: Staged, values: map<string, string>)
    requires Ready(p, before, ready, st, values) && CurrentKept(before, ready)
    requires OnlyGeneration(ready, after, st.name)
    ensures CurrentKept(before, after)
    ensures st.name !in after.generations ==> NothingNew(before, after)
  {}

  /** The first profiles have been staged, and the others are as they were. */
  ghost predicate StagedUpTo(profiles: seq<Profile>, before: seq<Root>, now: seq<Root>, staged: seq<Staged>, values: map<string, string>) {
    && |staged| <= |now| == |before| == |profiles|
    && (forall j :: |staged| <= j < |now| ==> now[j] == before[j])
    && (forall j :: 0 <= j < |staged| ==>
          && Ready(profiles[j], before[j], now[j], staged[j], values) && CurrentKept(before[j], now[j])
          && Recoverable(profiles[j], before[j]))
  }

  lemma StagedOneMore(profiles: seq<Profile>, before: seq<Root>, now: seq<Root>, next: seq<Root>, staged: seq<Staged>, st: Staged,
                      values: map<string, string>)
    requires StagedUpTo(profiles, before, now, staged, values) && |staged| < |now| && OnlyRoot(now, next, |staged|)
    requires var i := |staged|;
             && Ready(profiles[i], before[i], next[i], st, values) && CurrentKept(before[i], next[i])
             && Recoverable(profiles[i], before[i])
    ensures StagedUpTo(profiles, before, next, staged + [st], values)
  {}

  /** After a failed staging and the removal of what was staged, every `current` is kept, and nothing is new
      where nothing was left. */
  lemma AllKept(profiles: seq<Profile>, before: seq<Root>, now: seq<Root>, failed: seq<Root>, after: seq<Root>, staged: seq<Staged>,
                values: map<string, string>)
    requires StagedUpTo(profiles, before, now, staged, values) && |staged| < |now| && OnlyRoot(now, failed, |staged|)
    requires CurrentKept(before[|staged|], failed[|staged|])
    requires |after| == |failed| && forall j :: |staged| <= j < |after| ==> after[j] == failed[j]
    requires forall j :: 0 <= j < |staged| ==> CurrentKept(before[j], after[j])
    ensures forall i :: 0 <= i < |after| ==> CurrentKept(before[i], after[i])
    ensures (forall j :: 0 <= j < |staged| ==> NothingNew(before[j], after[j])) && NothingNew(before[|staged|], failed[|staged|]) ==>
              forall i :: 0 <= i < |after| ==> NothingNew(before[i], after[i])
  {}

  /** One generation left, named by `current`, holding the new values. */
  ghost predicate Published(p: Profile, r: Root, values: map<string, string>) {
    && r.current.To? && r.generations.Keys == {r.current.name} && r.temporaries == map[]
    && Holds(p, r.generations[r.current.name], values)
  }

  /** How far a run got, as told by its result: still staging, perhaps with an interrupt just after a
      profile was staged; activating, with the rollback and
      removal finished or not, and the number of failures when they began; or past the last switch. */
  datatype Phase = Staging(dropped: bool) | Activating(finished: bool, lost: bool, broke: nat) | Committed

  // ----- Giving up on an activation -----

  /** A whole rollback of the first `activated` profiles followed by a whole removal of every staged
      generation. */
  ghost function Abort(w: seq<Root>, staged: seq<Staged>, activated: nat): (r: seq<Root>)
    requires |w| == |staged|
    ensures |r| == |w|
  {
    seq(|w|, i requires 0 <= i < |w| =>
      var current := if i < activated then LinkTo(staged[i].previous) else w[i].current;
      Root(current, w[i].generations - {staged[i].name}, w[i].temporaries, w[i].strange))
  }

  /** Profile i was staged beside its old generation, and its link names one of the two. */
  ghost predicate InTransit(p: Profile, r: Root, st: Staged) {
    && HasComplete(p, r, st.name) && st.previous != Some(st.name)
    && (st.previous.Some? ==> HasComplete(p, r, st.previous.value))
    && (r.current == To(st.name) || r.current == LinkTo(st.previous))
  }

  ghost predicate AllInTransit(profiles: seq<Profile>, w: seq<Root>, staged: seq<Staged>) {
    && |profiles| == |w| == |staged|
    && forall i :: 0 <= i < |w| ==> InTransit(profiles[i], w[i], staged[i])
  }

  /** Giving up leaves every `current` sound exactly when no link was switched without being counted. */
  lemma AbortIsSafe(profiles: seq<Profile>, w: seq<Root>, staged: seq<Staged>, activated: nat)
    requires AllInTransit(profiles, w, staged) && activated <= |w|
    ensures forall i :: 0 <= i < |w| ==>
              (Safe(profiles[i], Abort(w, staged, activated)[i]) <==> i < activated || w[i].current != To(staged[i].name))
    ensures (forall i :: 0 <= i < |w| ==> Safe(profiles[i], Abort(w, staged, activated)[i]))
            <==> (forall i :: activated <= i < |w| ==> w[i].current != To(staged[i].name))
    ensures forall i :: 0 <= i < |w| && (i < activated || w[i].current != To(staged[i].name)) ==>
              Abort(w, staged, activated)[i].current == LinkTo(staged[i].previous)
  {
    var after := Abort(w, staged, activated);
    forall i | 0 <= i < |w|
      ensures Safe(profiles[i], after[i]) <==> i < activated || w[i].current != To(staged[i].name)
    {
      assert InTransit(profiles[i], w[i], staged[i]);
      assert staged[i].name !in after[i].generations;
    }
  }

  /** The uncounted switch can happen: the link is replaced, the call then fails (say in fsync), and
      the check that would count it fails to read the link. `current` is left dangling, and every
      later run refuses the directory. */
  lemma UncountedSwitchDangles()
    ensures var p := Profile("api", ["k"]);
            var g := Generation(map["k" := Sealed("v")], true);
            var w := [Root(To("generation-b"), map["generation-a" := g, "generation-b" := g], map[], false)];
            var staged := [Staged("generation-b", Some("generation-a"))];
            && AllInTransit([p], w, staged)
            && !Safe(p, Abort(w, staged, 0)[0])
  {
    var p := Profile("api", ["k"]);
    var g := Generation(map["k" := Sealed("v")], true);
    var w := [Root(To("generation-b"), map["generation-a" := g, "generation-b" := g], map[], false)];
    var staged := [Staged("generation-b", Some("generation-a"))];
    assert Complete(p, g);
    assert IsGenerationName("generation-a") && IsGenerationName("generation-b") by {
      assert "generation-a"[..11] == "generation-" && "generation-b"[..11] == "generation-";
    }
    assert "generation-a"[11] != "generation-b"[11];
    AbortIsSafe([p], w, staged, 0);
    assert w[0].current == To(staged[0].name);
  }

  // ----- The host -----

  class Host {
    const profiles: seq<Profile>
    /** No call fails, nothing interrupts the run, and names drawn at random are new. */
    const quiet: bool
    var roots: seq<Root>
    ghost var trace: set<seq<Root>>
    /** How many calls have failed and interrupts have come so far. */
    ghost var failures: nat
    /** How many of these were interrupts between two calls. */
    ghost var interrupts: nat

    ghost predicate Valid()
      reads `roots, `trace
    {
      |roots| == |profiles| && roots in trace
    }

    /** Failures are only added, and none on a quiet host. */
    ghost predicate Steady(before: nat)
      reads `failures
    {
      before <= failures && (quiet ==> failures == before)
    }

    /** Every state so far, so every state a crash could have left, can be recovered from. */
    ghost predicate AlwaysGood()
      reads `trace
    {
      forall s :: s in trace ==> Good(profiles, s)
    }

    constructor (profiles: seq<Profile>, roots: seq<Root>, quiet: bool)
      requires |profiles| == |roots|
      ensures Valid() && this.profiles == profiles && this.roots == roots && this.quiet == quiet && trace == {roots}
      ensures failures == 0 && interrupts == 0
    {
      this.profiles := profiles;
      this.quiet := quiet;
      failures, interrupts := 0, 0;
      this.roots := roots;
      trace := {roots};
    }

    /** One system call that would turn directory i into `target`. It may fail, with or without
        having taken effect; an interrupt after it is a failure with effect. */
    method Attempt(i: nat, target: Root) returns (ok: bool)
      requires Valid() && i < |roots|
      modifies `roots, `trace, `failures
      ensures Valid() && trace == old(trace) + {roots}
      ensures roots == old(roots) || roots == old(roots)[i := target]
      ensures ok ==> roots == old(roots)[i := target]
      ensures Steady(old(failures)) && (ok <==> failures == old(failures))
      ensures old(AlwaysGood()) && Recoverable(profiles[i], target) ==> AlwaysGood()
    {
      var effect: bool := *;
      ok := *;
      ok := ok || quiet;
      if effect || ok {
        roots := roots[i := target];
      }
      if !ok {
        failures := failures + 1;
      }
      trace := trace + {roots};
    }

    /** A call without effect on directories, such as fsync. */
    method Sync() returns (ok: bool)
      modifies `failures
      ensures Steady(old(failures)) && (ok <==> failures == old(failures))
    {
      ok := *;
      ok := ok || quiet;
      if !ok {
        failures := failures + 1;
      }
    }

    /** An interrupt between two calls. */
    method Interruption() returns (interrupted: bool)
      modifies `failures, `interrupts
      ensures Steady(old(failures)) && (interrupted <==> failures > old(failures))
      ensures interrupts == if interrupted then old(interrupts) + 1 else old(interrupts)
    {
      var ok := Sync();
      interrupted := !ok;
      if interrupted {
        interrupts := interrupts + 1;
      }
    }

    /** A random suffix; drawing a name in use makes the call that needs it fail. */
    method Uuid(prefix: string, used: set<string>) returns (hex: string)
      modifies `failures
      ensures '/' !in hex
      ensures Steady(old(failures)) && (prefix + hex !in used <==> failures == old(failures))
    {
      hex := *;
      if '/' in hex {
        hex := "";
      }
      if quiet && prefix + hex in used {
        hex := NewSuffix(prefix, used);
      }
      if prefix + hex in used {
        failures := failures + 1;
      }
    }

    /** `rmdir`, which takes only an empty directory. */
    method RemoveDirectory(i: nat, name: string) returns (ok: bool)
      requires Valid() && i < |roots| && name in roots[i].generations && roots[i].generations[name].files == map[]
      modifies `roots, `trace, `failures
      ensures Valid() && old(trace) <= trace
      ensures roots == old(roots) || roots == old(roots)[i := old(roots)[i].(generations := old(roots)[i].generations - {name})]
      ensures ok ==> roots == old(roots)[i := old(roots)[i].(generations := old(roots)[i].generations - {name})]
      ensures Steady(old(failures)) && (ok <==> failures == old(failures))
      ensures old(roots[i]).current != To(name) && old(AlwaysGood()) ==> AlwaysGood()
    {
      ghost var keep := roots[i].current != To(name) && AlwaysGood();
      if keep {
        assert Good(profiles, roots);
        ShrinkKeeps(profiles[i], roots[i], name, roots[i].generations[name]);
      }
      ok := Attempt(i, roots[i].(generations := roots[i].generations - {name}));
    }

    /** `_remove_generation`: checks the inventory, then deletes file by file. */
    method RemoveGeneration(i: nat, name: string, allowIncomplete: bool) returns (o: Outcome)
      requires Valid() && i < |roots|
      modifies `roots, `trace, `failures
      ensures Valid() && old(trace) <= trace
      ensures OnlyRoot(old(roots), roots, i) && OnlyGeneration(old(roots)[i], roots[i], name)
      ensures o == Done ==> name !in roots[i].generations
      ensures old(roots[i]).current != To(name) && old(AlwaysGood()) ==> AlwaysGood()
      ensures name in roots[i].generations ==>
                name in old(roots)[i].generations && Less(old(roots)[i].generations[name], roots[i].generations[name])
      ensures Steady(old(failures)) && (o == Raised <==> failures > old(failures))
      ensures o == Rejected ==> !Removable(profiles[i], old(roots[i]), name, allowIncomplete)
      ensures !Removable(profiles[i], old(roots[i]), name, allowIncomplete) ==> o != Done && roots == old(roots)
    {
      if !IsGenerationName(name) {
        return Rejected;
      }
      if name !in roots[i].generations {
        return Done;
      }
      var ok := Sync();
      if !ok {
        return Raised;
      }
      if !Removable(profiles[i], roots[i], name, allowIncomplete) {
        return Rejected;
      }
      ok := DeleteFiles(i, name);
      if !ok {
        return Raised;
      }
      ok := RemoveDirectory(i, name);
      o := if ok then Done else Raised;
    }

    /** The unlink loop over one generation. */
    method DeleteFiles(i: nat, name: string) returns (ok: bool)
      requires Valid() && i < |roots| && name in roots[i].generations
      modifies `roots, `trace, `failures
      ensures Valid() && old(trace) <= trace
      ensures name in roots[i].generations && Less(old(roots)[i].generations[name], roots[i].generations[name])
      ensures ok ==> roots[i].generations[name].files == map[]
      ensures OnlyRoot(old(roots), roots, i) && OnlyGeneration(old(roots)[i], roots[i], name)
      ensures Steady(old(failures)) && (ok <==> failures == old(failures))
      ensures old(roots[i]).current != To(name) && old(AlwaysGood()) ==> AlwaysGood()
    {
      ghost var start := roots;
      ghost var keep := roots[i].current != To(name) && AlwaysGood();
      ok := true;
      while roots[i].generations[name].files != map[]
        invariant Valid() && old(trace) <= trace && ok
        invariant OnlyRoot(start, roots, i) && OnlyGeneration(start[i], roots[i], name)
        invariant name in roots[i].generations && Less(start[i].generations[name], roots[i].generations[name])
        invariant failures == old(failures)
        invariant keep ==> AlwaysGood()
        decreases |roots[i].generations[name].files.Keys|
      {
        var g := roots[i].generations[name];
        var file :| file in g.files;
        var less := g.(files := g.files - {file});
        assert less.files.Keys == g.files.Keys - {file};
        if keep {
          assert Good(profiles, roots);
          ShrinkKeeps(profiles[i], roots[i], name, less);
        }
        ok := Attempt(i, roots[i].(generations := roots[i].generations[name := less]));
        if !ok {
          return;
        }
      }
    }

    /** `_current_generation`: nothing, or the complete generation that `current` names. */
    method CurrentGeneration(i: nat) returns (o: Outcome, previous: Option<string>)
      requires Valid() && i < |roots|
      modifies `failures
      ensures o == Done ==> Safe(profiles[i], roots[i]) && previous == Target(roots[i].current)
      ensures Steady(old(failures)) && (o == Raised <==> failures > old(failures))
      ensures o == Rejected ==> !Safe(profiles[i], roots[i])
    {
      var r := roots[i];
      var ok := Sync();
      if !ok {
        return Raised, None;
      }
      if r.current == Absent {
        return Done, None;
      }
      if r.current == NotALink || !IsGenerationName(r.current.name) || r.current.name !in r.generations {
        return Rejected, None;
      }
      if !r.generations[r.current.name].sealed || !FullInventory(profiles[i], r.generations[r.current.name]) {
        return Rejected, None;
      }
      o, previous := Done, Some(r.current.name);
    }

    method RemoveTemporary(i: nat, name: string) returns (ok: bool)
      requires Valid() && i < |roots|
      modifies `roots, `trace, `failures
      ensures Valid() && old(trace) <= trace && OnlyRoot(old(roots), roots, i)
      ensures roots[i] == old(roots)[i] || roots[i] == old(roots)[i].(temporaries := old(roots)[i].temporaries - {name})
      ensures ok ==> roots[i] == old(roots)[i].(temporaries := old(roots)[i].temporaries - {name})
      ensures Steady(old(failures)) && (ok <==> failures == old(failures))
      ensures old(AlwaysGood()) ==> AlwaysGood()
    {
      ghost var keep := AlwaysGood();
      if keep {
        assert Good(profiles, roots);
        DropTemporary(profiles[i], roots[i], name);
      }
      ok := Attempt(i, roots[i].(temporaries := roots[i].temporaries - {name}));
    }

    /** The scan over one directory: every leftover of earlier runs goes. Entries come in no particular order. */
    method Sweep(i: nat, previous: Option<string>) returns (o: Outcome)
      requires Valid() && i < |roots| && Safe(profiles[i], roots[i]) && previous == Target(roots[i].current)
      modifies `roots, `trace, `failures
      ensures Valid() && old(trace) <= trace
      ensures OnlyRoot(old(roots), roots, i) && Shrunk(old(roots)[i], roots[i]) && Safe(profiles[i], roots[i])
      ensures o == Done ==> Tidy(roots[i]) && !roots[i].strange && Recoverable(profiles[i], old(roots[i]))
      ensures old(AlwaysGood()) ==> AlwaysGood()
      ensures Steady(old(failures)) && (o == Raised <==> failures > old(failures))
      ensures o == Rejected ==> !Recoverable(profiles[i], old(roots[i]))
    {
      ghost var start := roots;
      var generations := roots[i].generations.Keys - (if previous == None then {} else {previous.value});
      var temporaries := roots[i].temporaries.Keys;
      o := Done;
      while generations != {} || temporaries != {}
        invariant Valid() && old(trace) <= trace && OnlyRoot(start, roots, i)
        invariant Sweeping(profiles[i], start[i], roots[i], generations, temporaries, previous)
        invariant failures == old(failures)
        invariant old(AlwaysGood()) ==> AlwaysGood()
        decreases generations, temporaries
      {
        var early: bool := *;
        if roots[i].strange && early {
          return Rejected;
        }
        var pickGeneration: bool := *;
        if generations != {} && (pickGeneration || temporaries == {}) {
          var g :| g in generations;
          ghost var before := roots[i];
          o := RemoveGeneration(i, g, true);
          SweepGeneration(profiles[i], start[i], before, generations, temporaries, previous, g, roots[i]);
          if o != Done {
            return;
          }
          generations := generations - {g};
        } else {
          var t :| t in temporaries;
          SweepTemporary(profiles[i], start[i], roots[i], generations, temporaries, previous, t);
          var ok := RemoveTemporary(i, t);
          if !ok {
            return Raised;
          }
          temporaries := temporaries - {t};
        }
      }
      assert roots[i].temporaries.Keys == {};
      o := if roots[i].strange then Rejected else Done;
    }

    /** `_validate_target_root`: checks `current`, then sweeps the directory. */
    method ValidateTargetRoot(i: nat) returns (o: Outcome, previous: Option<string>)
      requires Valid() && i < |roots|
      modifies `roots, `trace, `failures
      ensures Valid() && old(trace) <= trace
      ensures OnlyRoot(old(roots), roots, i) && Shrunk(old(roots)[i], roots[i])
      ensures o == Done ==>
                && Safe(profiles[i], roots[i]) && !roots[i].strange && Tidy(roots[i]) && Recoverable(profiles[i], old(roots[i]))
                && previous == Target(roots[i].current)
      ensures old(AlwaysGood()) ==> AlwaysGood()
      ensures Steady(old(failures)) && (o == Raised <==> failures > old(failures))
      ensures o == Rejected ==> !Recoverable(profiles[i], old(roots[i]))
    {
      o, previous := CurrentGeneration(i);
      if o == Done {
        o := Sweep(i, previous);
      }
    }

    /** One call that changes only the generation being built. */
    method PutGeneration(i: nat, name: string, g: Generation) returns (ok: bool)
      requires Valid() && i < |roots| && IsGenerationName(name) && roots[i].current != To(name)
      requires Expected(profiles[i], g)
      modifies `roots, `trace, `failures
      ensures Valid() && old(trace) <= trace
      ensures OnlyRoot(old(roots), roots, i) && OnlyGeneration(old(roots)[i], roots[i], name)
      ensures ok ==> name in roots[i].generations && roots[i].generations[name] == g
      ensures name in old(roots)[i].generations && Expected(profiles[i], old(roots)[i].generations[name]) ==>
                name in roots[i].generations && Expected(profiles[i], roots[i].generations[name])
      ensures name in roots[i].generations ==>
                roots[i].generations[name] == g || (name in old(roots)[i].generations && roots[i].generations[name] == old(roots)[i].generations[name])
      ensures Steady(old(failures)) && (ok <==> failures == old(failures))
      ensures old(AlwaysGood()) ==> AlwaysGood()
    {
      if AlwaysGood() {
        assert Good(profiles, roots);
        GrowKeeps(profiles[i], roots[i], name, g);
      }
      ok := Attempt(i, roots[i].(generations := roots[i].generations[name := g]));
    }

    /** `_write_secret`: creates the file exclusively, then fills and seals it. */
    method WriteSecret(i: nat, name: string, secret: string, value: string) returns (ok: bool)
      requires Valid() && i < |roots| && name in roots[i].generations
      requires IsGenerationName(name) && roots[i].current != To(name)
      requires secret in profiles[i].secretNames && Expected(profiles[i], roots[i].generations[name])
      modifies `roots, `trace, `failures
      ensures Valid() && old(trace) <= trace
      ensures OnlyRoot(old(roots), roots, i) && OnlyGeneration(old(roots)[i], roots[i], name)
      ensures name in roots[i].generations && Expected(profiles[i], roots[i].generations[name])
      ensures ok ==> roots[i].generations[name].files == old(roots)[i].generations[name].files[secret := Sealed(value)]
      ensures Steady(old(failures)) && (ok ==> failures == old(failures))
      ensures !ok ==> failures > old(failures) || secret in old(roots)[i].generations[name].files
      ensures secret in old(roots)[i].generations[name].files ==> !ok && roots == old(roots)
      ensures old(AlwaysGood()) ==> AlwaysGood()
    {
      var g := roots[i].generations[name];
      if secret in g.files {
        return false;
      }
      ok := PutGeneration(i, name, g.(files := g.files[secret := Partial]));
      if !ok {
        return;
      }
      ok := Sync();
      if !ok {
        return;
      }
      ok := PutGeneration(i, name, g.(files := g.files[secret := Sealed(value)]));
    }

    /** The loop over one profile's secrets. */
    method WriteSecrets(i: nat, name: string, values: map<string, string>) returns (ok: bool)
      requires Valid() && i < |roots| && name in roots[i].generations
      requires IsGenerationName(name) && roots[i].current != To(name)
      requires roots[i].generations[name] == Generation(map[], false) && Usable(profiles[i], values)
      modifies `roots, `trace, `failures
      ensures Valid() && old(trace) <= trace
      ensures OnlyRoot(old(roots), roots, i) && OnlyGeneration(old(roots)[i], roots[i], name)
      ensures name in roots[i].generations && Expected(profiles[i], roots[i].generations[name])
      ensures ok ==> forall n :: n in profiles[i].secretNames <==> n in roots[i].generations[name].files
      ensures ok ==> forall n :: n in roots[i].generations[name].files ==> roots[i].generations[name].files[n] == Sealed(values[n])
      ensures Steady(old(failures)) && (ok ==> failures == old(failures)) && (!ok ==> failures > old(failures) || !DistinctNames(profiles[i]))
      ensures old(AlwaysGood()) ==> AlwaysGood()
    {
      ghost var start := roots[i];
      var names := profiles[i].secretNames;
      ok := true;
      for k := 0 to |names|
        invariant Valid() && old(trace) <= trace && ok
        invariant OnlyRoot(old(roots), roots, i) && OnlyGeneration(start, roots[i], name)
        invariant name in roots[i].generations && Expected(profiles[i], roots[i].generations[name])
        invariant roots[i].generations[name].files.Keys == set j | 0 <= j < k :: names[j]
        invariant forall n :: n in roots[i].generations[name].files ==> roots[i].generations[name].files[n] == Sealed(values[n])
        invariant failures == old(failures)
        invariant old(AlwaysGood()) ==> AlwaysGood()
      {
        assert names[k] in names;
        ok := WriteSecret(i, name, names[k], values[names[k]]);
        if !ok {
          return;
        }
      }
    }

    /** The body of `_stage_profile` that runs under its cleanup handler. */
    method FillGeneration(i: nat, name: string, values: map<string, string>) returns (ok: bool)
      requires Valid() && i < |roots| && name in roots[i].generations
      requires IsGenerationName(name) && roots[i].current != To(name)
      requires roots[i].generations[name] == Generation(map[], false) && Usable(profiles[i], values)
      modifies `roots, `trace, `failures
      ensures Valid() && old(trace) <= trace
      ensures OnlyRoot(old(roots), roots, i) && OnlyGeneration(old(roots)[i], roots[i], name)
      ensures name in roots[i].generations && Expected(profiles[i], roots[i].generations[name])
      ensures ok ==> Holds(profiles[i], roots[i].generations[name], values)
      ensures Steady(old(failures)) && (ok ==> failures == old(failures)) && (!ok ==> failures > old(failures) || !DistinctNames(profiles[i]))
      ensures old(AlwaysGood()) ==> AlwaysGood()
    {
      ok := WriteSecrets(i, name, values);
      if !ok {
        return;
      }
      ok := Sync();
      if !ok {
        return;
      }
      ok := PutGeneration(i, name, roots[i].generations[name].(sealed := true));
      if !ok {
        return;
      }
      ok := Sync();
      ok := ok && FullInventory(profiles[i], roots[i].generations[name]);
    }

    /** The part of `_stage_profile` after the sweep: one more generation, complete or taken back. */
    method BuildGeneration(i: nat, values: map<string, string>) returns (ok: bool, name: string)
      requires Valid() && i < |roots| && Usable(profiles[i], values)
      requires Safe(profiles[i], roots[i])
      modifies `roots, `trace, `failures
      ensures Valid() && old(trace) <= trace && OnlyRoot(old(roots), roots, i)
      ensures OnlyGeneration(old(roots)[i], roots[i], name)
      ensures roots[i] == old(roots)[i] || (IsGenerationName(name) && name !in old(roots)[i].generations)
      ensures ok ==> IsGenerationName(name) && name !in old(roots)[i].generations
                     && name in roots[i].generations && Holds(profiles[i], roots[i].generations[name], values)
      ensures Steady(old(failures)) && (failures > old(failures) ==> !ok)
      ensures !ok ==> failures > old(failures) || !DistinctNames(profiles[i])
      ensures !ok && failures == old(failures) + 1 && DistinctNames(profiles[i]) && name in roots[i].generations ==>
                roots[i] == old(roots)[i] || roots[i].generations[name].files == map[]
      ensures old(AlwaysGood()) ==> AlwaysGood()
    {
      var hex := Uuid("generation-", roots[i].generations.Keys);
      name := "generation-" + hex;
      if name in roots[i].generations {
        return false, name;
      }
      ok := PutGeneration(i, name, Generation(map[], false));
      if !ok {
        return;
      }
      ok := FillGeneration(i, name, values);
      if !ok {
        var _ := RemoveGeneration(i, name, true);
      }
    }

    /** `_stage_profile`: sweeps the directory and adds a complete new generation beside `current`. */
    method StageProfile(i: nat, values: map<string, string>) returns (o: Outcome, st: Staged)
      requires Valid() && i < |roots| && Usable(profiles[i], values)
      modifies `roots, `trace, `failures
      ensures Valid() && old(trace) <= trace
      ensures OnlyRoot(old(roots), roots, i) && CurrentKept(old(roots)[i], roots[i])
      ensures o == Done ==> Ready(profiles[i], old(roots)[i], roots[i], st, values) && Recoverable(profiles[i], old(roots)[i])
      ensures Steady(old(failures)) && (failures > old(failures) ==> o == Raised)
      ensures o == Raised ==> failures > old(failures) || !DistinctNames(profiles[i])
      ensures o == Rejected || (o == Raised && failures == old(failures) + 1 && DistinctNames(profiles[i])) ==>
                NothingNew(old(roots)[i], roots[i])
      ensures old(AlwaysGood()) ==> AlwaysGood()
      ensures o == Rejected ==> !Recoverable(profiles[i], old(roots[i]))
    {
      var previous;
      o, previous := ValidateTargetRoot(i);
      st := Staged("", previous);
      if o != Done {
        return;
      }
      ghost var swept := roots[i];
      var ok, name := BuildGeneration(i, values);
      BuiltAfterSweep(profiles[i], old(roots)[i], swept, roots[i], name);
      if !ok {
        return Raised, st;
      }
      o, st := Done, Staged(name, previous);
    }

    /** One call that changes links only. */
    method Relink(i: nat, link: Link, temporaries: map<string, string>) returns (ok: bool)
      requires Valid() && i < |roots|
      modifies `roots, `trace, `failures
      ensures Valid() && old(trace) <= trace
      ensures OnlyRoot(old(roots), roots, i) && MaySwitch(old(roots)[i], roots[i], link)
      ensures roots[i].temporaries == old(roots)[i].temporaries || roots[i].temporaries == temporaries
      ensures ok ==> roots[i].current == link && roots[i].temporaries == temporaries
      ensures Steady(old(failures)) && (ok <==> failures == old(failures))
      ensures old(AlwaysGood()) && (link == old(roots)[i].current || link == Absent
                                    || (link.To? && HasComplete(profiles[i], old(roots)[i], link.name)))
              ==> AlwaysGood()
    {
      if AlwaysGood() && (link == roots[i].current || link == Absent
                          || (link.To? && HasComplete(profiles[i], roots[i], link.name)))
      {
        assert Good(profiles, roots);
        SwitchKeeps(profiles[i], roots[i], link, temporaries);
      }
      ok := Attempt(i, roots[i].(current := link, temporaries := temporaries));
    }

    /** `_replace_current`: a temporary symlink renamed over `current`; once the call that creates it has
        reported success, the temporary is unlinked on every way out. */
    method ReplaceCurrent(i: nat, name: string) returns (ok: bool, ghost created: bool)
      requires Valid() && i < |roots|
      modifies `roots, `trace, `failures
      ensures Valid() && old(trace) <= trace
      ensures OnlyRoot(old(roots), roots, i) && MaySwitch(old(roots)[i], roots[i], To(name))
      ensures ok ==> roots[i].current == To(name) && roots[i].temporaries == old(roots)[i].temporaries
      ensures ok ==> created
      ensures !created ==> roots[i].current == old(roots)[i].current
      ensures created && failures <= old(failures) + 1 ==> roots[i].temporaries == old(roots)[i].temporaries
      ensures Steady(old(failures)) && (ok <==> failures == old(failures))
      ensures (old(AlwaysGood()) && HasComplete(profiles[i], old(roots)[i], name)) ==> AlwaysGood()
    {
      ghost var start := roots[i];
      var hex := Uuid(".current-", roots[i].temporaries.Keys);
      var temporary := ".current-" + hex;
      if temporary in roots[i].temporaries {
        return false, false;
      }
      ok := Relink(i, roots[i].current, roots[i].temporaries[temporary := name]);
      created := ok;
      if !ok {
        return;
      }
      ok := Relink(i, To(name), roots[i].temporaries - {temporary});
      if ok {
        ok := Sync();
      }
      if temporary in roots[i].temporaries {
        var unlinked := Relink(i, roots[i].current, roots[i].temporaries - {temporary});
        ok := ok && unlinked;
      }
      assert ok ==> roots[i].temporaries == start.temporaries;
    }

    /** The activation loop. `activated` counts the switches the handler knows of; `lost` reports a
        switch that took effect without being counted. */
    method Activate(staged: seq<Staged>) returns (ok: bool, activated: nat, ghost lost: bool)
      requires Valid() && AllInTransit(profiles, roots, staged)
      requires forall i :: 0 <= i < |roots| ==> roots[i].current == LinkTo(staged[i].previous)
      modifies this
      ensures Valid() && old(trace) <= trace
      ensures AllInTransit(profiles, roots, staged) && activated <= |roots|
      ensures forall i :: 0 <= i < |roots| ==>
                MaySwitch(old(roots)[i], roots[i], To(staged[i].name))
                && (roots[i].current == To(staged[i].name) <==> i < activated || (lost && i == activated))
      ensures ok ==> activated == |roots| && forall i :: 0 <= i < |roots| ==> roots[i].temporaries == old(roots)[i].temporaries
      ensures Steady(old(failures)) && (ok <==> failures == old(failures))
      ensures lost ==> !ok && activated < |roots|
      ensures lost ==> interrupts > old(interrupts) || failures >= old(failures) + 2
      ensures old(AlwaysGood()) ==> AlwaysGood()
    {
      ghost var start := roots;
      activated := 0;
      lost := false;
      ok := true;
      for i := 0 to |staged|
        invariant Valid() && old(trace) <= trace && ok && !lost
        invariant AllInTransit(profiles, roots, staged) && activated == i
        invariant forall j :: 0 <= j < |roots| ==>
          MaySwitch(start[j], roots[j], To(staged[j].name)) && roots[j].temporaries == start[j].temporaries
          && (roots[j].current == To(staged[j].name) <==> j < i)
        invariant failures == old(failures) && interrupts == old(interrupts)
        invariant old(AlwaysGood()) ==> AlwaysGood()
      {
        ghost var before := roots;
        assert InTransit(profiles[i], roots[i], staged[i]);
        ghost var created;
        ok, created := ReplaceCurrent(i, staged[i].name);
        assert InTransit(profiles[i], roots[i], staged[i]);
        assert forall j :: 0 <= j < |roots| && j != i ==> InTransit(profiles[j], before[j], staged[j]);
        if ok {
          // an interrupt here is past the inner handler, so the switch is not counted
          var interrupted := Interruption();
          if interrupted {
            ok, lost := false, true;
            return;
          }
          activated := activated + 1;
        } else {
          var readable := Sync();
          if readable && roots[i].current == To(staged[i].name) {
            activated := activated + 1;
          } else {
            lost := roots[i].current == To(staged[i].name);
          }
          return;
        }
      }
    }

    /** Points one profile's `current` back at what it named before. */
    method Restore(i: nat, st: Staged) returns (ok: bool)
      requires Valid() && i < |roots| && InTransit(profiles[i], roots[i], st)
      modifies `roots, `trace, `failures
      ensures Valid() && old(trace) <= trace
      ensures OnlyRoot(old(roots), roots, i) && MaySwitch(old(roots)[i], roots[i], LinkTo(st.previous))
      ensures InTransit(profiles[i], roots[i], st)
      ensures ok ==> roots[i] == old(roots)[i].(current := LinkTo(st.previous))
      ensures Steady(old(failures)) && (ok <==> failures == old(failures))
      ensures old(AlwaysGood()) ==> AlwaysGood()
    {
      match st.previous {
        case None =>
          ok := Relink(i, Absent, roots[i].temporaries);
          if ok {
            ok := Sync();
          }
        case Some(name) =>
          ghost var created;
          ok, created := ReplaceCurrent(i, name);
      }
    }

    /** `_rollback_activation`: the counted switches, undone in reverse order. */
    method Rollback(staged: seq<Staged>, activated: nat) returns (ok: bool)
      requires Valid() && AllInTransit(profiles, roots, staged) && activated <= |roots|
      modifies `roots, `trace, `failures
      ensures Valid() && old(trace) <= trace && AllInTransit(profiles, roots, staged)
      ensures forall i :: 0 <= i < |roots| ==> MaySwitch(old(roots)[i], roots[i], LinkTo(staged[i].previous))
      ensures ok ==> forall i :: 0 <= i < |roots| ==>
                roots[i] == old(roots)[i].(current := if i < activated then LinkTo(staged[i].previous) else old(roots)[i].current)
      ensures Steady(old(failures)) && (ok <==> failures == old(failures))
      ensures old(AlwaysGood()) ==> AlwaysGood()
    {
      ghost var start := roots;
      ok := true;
      for i := activated downto 0
        invariant Valid() && old(trace) <= trace && ok && AllInTransit(profiles, roots, staged)
        invariant forall j :: 0 <= j < |roots| ==>
          roots[j] == start[j].(current := if i <= j < activated then LinkTo(staged[j].previous) else start[j].current)
        invariant failures == old(failures)
        invariant old(AlwaysGood()) ==> AlwaysGood()
      {
        ghost var before := roots;
        assert InTransit(profiles[i], roots[i], staged[i]);
        ok := Restore(i, staged[i]);
        assert forall j :: 0 <= j < |roots| && j != i ==> InTransit(profiles[j], before[j], staged[j]);
        if !ok {
          return;
        }
      }
    }

    /** Removing the staged generations of the first |staged| profiles. */
    method RemoveStaged(staged: seq<Staged>) returns (ok: bool)
      requires Valid() && |staged| <= |roots|
      requires forall i :: 0 <= i < |staged| ==> HasComplete(profiles[i], roots[i], staged[i].name)
      modifies `roots, `trace, `failures
      ensures Valid() && old(trace) <= trace
      ensures |roots| == |old(roots)| && forall i :: |staged| <= i < |roots| ==> roots[i] == old(roots)[i]
      ensures forall i :: 0 <= i < |staged| ==> OnlyGeneration(old(roots)[i], roots[i], staged[i].name)
      ensures ok ==> forall i :: 0 <= i < |staged| ==> staged[i].name !in roots[i].generations
      ensures Steady(old(failures)) && (ok <==> failures == old(failures))
      ensures (old(AlwaysGood()) && forall i :: 0 <= i < |staged| ==> old(roots)[i].current != To(staged[i].name))
              ==> AlwaysGood()
    {
      ghost var keep := AlwaysGood() && forall i :: 0 <= i < |staged| ==> roots[i].current != To(staged[i].name);
      ok := true;
      for i := 0 to |staged|
        invariant Valid() && old(trace) <= trace && ok
        invariant |roots| == |old(roots)| && forall j :: i <= j < |roots| ==> roots[j] == old(roots)[j]
        invariant forall j :: 0 <= j < i ==>
          OnlyGeneration(old(roots)[j], roots[j], staged[j].name) && staged[j].name !in roots[j].generations
        invariant failures == old(failures)
        invariant keep ==> AlwaysGood()
      {
        assert HasComplete(profiles[i], roots[i], staged[i].name);
        var o := RemoveGeneration(i, staged[i].name, false);
        if o != Done {
          return false;
        }
      }
    }

    /** The handler of a failed activation: roll back, then remove what was staged. */
    method AbortActivation(staged: seq<Staged>, activated: nat) returns (ok: bool)
      requires Valid() && AllInTransit(profiles, roots, staged) && activated <= |roots|
      modifies `roots, `trace, `failures
      ensures Valid() && old(trace) <= trace && |roots| == |old(roots)|
      ensures ok ==> forall i :: 0 <= i < |roots| ==>
                roots[i].current == Abort(old(roots), staged, activated)[i].current
                && roots[i].generations == Abort(old(roots), staged, activated)[i].generations
      ensures Steady(old(failures)) && (ok <==> failures == old(failures))
      ensures (old(AlwaysGood()) && forall i :: activated <= i < |roots| ==> old(roots)[i].current != To(staged[i].name))
              ==> AlwaysGood()
    {
      ok := Rollback(staged, activated);
      if !ok {
        return;
      }
      ghost var rolled := roots;
      forall i | 0 <= i < |roots|
        ensures HasComplete(profiles[i], roots[i], staged[i].name)
      {
        assert InTransit(profiles[i], roots[i], staged[i]);
      }
      ok := RemoveStaged(staged);
      if ok {
        forall i | 0 <= i < |roots|
          ensures roots[i].generations == rolled[i].generations - {staged[i].name}
        {
          assert OnlyGeneration(rolled[i], roots[i], staged[i].name);
        }
      }
    }

    ghost predicate AllDistinct() { forall p :: p in profiles ==> DistinctNames(p) }

    /** The handler of a failed staging: what the earlier profiles staged goes. */
    method TakeBack(staged: seq<Staged>, ghost before: seq<Root>, values: map<string, string>) returns (ok: bool)
      requires Valid() && |staged| <= |roots| == |before|
      requires forall j :: 0 <= j < |staged| ==>
                 Ready(profiles[j], before[j], roots[j], staged[j], values) && CurrentKept(before[j], roots[j])
      modifies `roots, `trace, `failures
      ensures Valid() && old(trace) <= trace && |roots| == |old(roots)|
      ensures forall j :: |staged| <= j < |roots| ==> roots[j] == old(roots)[j]
      ensures forall j :: 0 <= j < |staged| ==> CurrentKept(before[j], roots[j]) && (ok ==> NothingNew(before[j], roots[j]))
      ensures Steady(old(failures)) && (ok <==> failures == old(failures))
      ensures old(AlwaysGood()) ==> AlwaysGood()
    {
      ghost var ready := roots;
      forall j | 0 <= j < |staged|
        ensures HasComplete(profiles[j], roots[j], staged[j].name) && roots[j].current != To(staged[j].name)
      {
        assert Ready(profiles[j], before[j], roots[j], staged[j], values);
      }
      ok := RemoveStaged(staged);
      forall j | 0 <= j < |staged|
        ensures CurrentKept(before[j], roots[j]) && (ok ==> NothingNew(before[j], roots[j]))
      {
        StagedRemoved(profiles[j], before[j], ready[j], roots[j], staged[j], values);
      }
    }

    /** A complete generation with the new values that `current` does not name. */
    ghost predicate Stays(i: nat, values: map<string, string>)
      requires i < |roots| == |profiles|
      reads `roots
    {
      exists g :: g in roots[i].generations && roots[i].current != To(g) && Holds(profiles[i], roots[i].generations[g], values)
    }

    /** Staging the next profile, with the handler of a failure. */
    method StageNext(staged: seq<Staged>, ghost before: seq<Root>, values: map<string, string>)
      returns (o: Outcome, st: Staged, ghost dropped: bool)
      requires Valid() && StagedUpTo(profiles, before, roots, staged, values) && |staged| < |roots|
      requires Usable(profiles[|staged|], values)
      modifies this
      ensures Valid() && old(trace) <= trace && |roots| == |before|
      ensures o == Done ==> StagedUpTo(profiles, before, roots, staged + [st], values)
      ensures o == Done ==> failures == old(failures) && interrupts == old(interrupts) && !dropped
      ensures o != Done ==> forall i :: 0 <= i < |roots| ==> CurrentKept(before[i], roots[i])
      ensures Steady(old(failures)) && (failures > old(failures) ==> o == Raised)
      ensures o == Raised ==> failures > old(failures) || !DistinctNames(profiles[|staged|])
      ensures o == Rejected
              || (&& o == Raised && Recoverable(profiles[|staged|], before[|staged|]) && DistinctNames(profiles[|staged|])
                  && failures == old(failures) + 1 && !dropped) ==>
                forall i :: 0 <= i < |roots| ==> NothingNew(before[i], roots[i])
      ensures dropped ==> o == Raised && failures > old(failures) && Stays(|staged|, values)
      ensures o == Rejected ==> !Recoverable(profiles[|staged|], before[|staged|])
      ensures old(AlwaysGood()) ==> AlwaysGood()
    {
      ghost var now := roots;
      o, st := StageProfile(|staged|, values);
      dropped := false;
      if o == Done {
        var interrupted := Interruption();
        if !interrupted {
          StagedOneMore(profiles, before, now, roots, staged, st, values);
          return;
        }
        o, dropped := Raised, true;
      }
      ghost var failed := roots;
      var removed := TakeBack(staged, before, values);
      AllKept(profiles, before, now, failed, roots, staged, values);
      if !removed {
        o := Raised;
      }
    }

    /** Staging every profile; a failure removes what the earlier profiles staged. `dropped` reports an interrupt
        just after a profile was staged, which leaves its new generation there. */
    method StageAll(values: map<string, string>) returns (o: Outcome, staged: seq<Staged>, ghost dropped: bool)
      requires Valid() && forall p :: p in profiles ==> Usable(p, values)
      modifies this
      ensures Valid() && old(trace) <= trace
      ensures |roots| == |old(roots)| && forall i :: 0 <= i < |roots| ==> CurrentKept(old(roots)[i], roots[i])
      ensures o == Done ==> |staged| == |roots| && forall i :: 0 <= i < |roots| ==>
                Ready(profiles[i], old(roots)[i], roots[i], staged[i], values)
      ensures o == Done ==> Good(profiles, old(roots)) && interrupts == old(interrupts)
      ensures Steady(old(failures)) && (failures > old(failures) ==> o == Raised)
      ensures o == Raised ==> failures > old(failures) || !AllDistinct()
      ensures o == Rejected
              || (o == Raised && Good(profiles, old(roots)) && AllDistinct() && failures == old(failures) + 1 && !dropped) ==>
                forall i :: 0 <= i < |roots| ==> NothingNew(old(roots)[i], roots[i])
      ensures dropped ==> o == Raised && failures > old(failures) && exists i :: 0 <= i < |roots| && Stays(i, values)
      ensures old(AlwaysGood()) ==> AlwaysGood()
      ensures o == Rejected ==> !Good(profiles, old(roots))
    {
      staged := [];
      o := Done;
      dropped := false;
      for i := 0 to |profiles|
        invariant Valid() && old(trace) <= trace && |staged| == i && o == Done
        invariant StagedUpTo(profiles, old(roots), roots, staged, values)
        invariant failures == old(failures) && interrupts == old(interrupts) && !dropped
        invariant old(AlwaysGood()) ==> AlwaysGood()
      {
        var st;
        assert profiles[i] in profiles;
        o, st, dropped := StageNext(staged, old(roots), values);
        if o != Done {
          return;
        }
        staged := staged + [st];
      }
    }

    /** The last loop: removes each profile's previous generation. */
    method RemovePrevious(staged: seq<Staged>, values: map<string, string>) returns (ok: bool)
      requires Valid() && AllInTransit(profiles, roots, staged)
      requires forall i :: 0 <= i < |roots| ==>
                 && roots[i].current == To(staged[i].name) && roots[i].temporaries == map[]
                 && roots[i].generations.Keys == {staged[i].name} + Previous(staged[i].previous)
                 && Holds(profiles[i], roots[i].generations[staged[i].name], values)
      modifies `roots, `trace, `failures
      ensures Valid() && old(trace) <= trace && |roots| == |old(roots)|
      ensures forall i :: 0 <= i < |roots| ==>
                && roots[i].current == To(staged[i].name) && staged[i].name in roots[i].generations
                && Holds(profiles[i], roots[i].generations[staged[i].name], values)
      ensures ok ==> forall i :: 0 <= i < |roots| ==> Published(profiles[i], roots[i], values)
      ensures Steady(old(failures)) && (ok <==> failures == old(failures))
      ensures old(AlwaysGood()) ==> AlwaysGood()
    {
      ok := true;
      for i := 0 to |staged|
        invariant Valid() && old(trace) <= trace && ok && |roots| == |old(roots)|
        invariant forall j :: i <= j < |roots| ==> roots[j] == old(roots)[j]
        invariant forall j :: 0 <= j < i ==> Published(profiles[j], roots[j], values) && roots[j].current == To(staged[j].name)
        invariant failures == old(failures)
        invariant old(AlwaysGood()) ==> AlwaysGood()
      {
        ghost var before := roots[i];
        assert InTransit(profiles[i], before, staged[i]);
        if staged[i].previous.Some? && staged[i].previous.value != staged[i].name {
          var o := RemoveGeneration(i, staged[i].previous.value, false);
          if o != Done {
            return false;
          }
          assert roots[i].generations.Keys == {staged[i].name};
        } else {
          assert roots[i].generations.Keys == {staged[i].name};
        }
      }
    }

    /** Activation with its handler. `finished` tells whether the clean-up got to its end, `broke` how many
        failures there were when it began; it gets to its end when none is added. */
    method Switch(staged: seq<Staged>) returns (ok: bool, ghost finished: bool, ghost lost: bool, ghost broke: nat)
      requires Valid() && AllInTransit(profiles, roots, staged)
      requires forall i :: 0 <= i < |roots| ==> roots[i].current == LinkTo(staged[i].previous)
      modifies this
      ensures Valid() && old(trace) <= trace && |roots| == |old(roots)|
      ensures ok ==> AllInTransit(profiles, roots, staged) && forall i :: 0 <= i < |roots| ==>
                && MaySwitch(old(roots)[i], roots[i], To(staged[i].name)) && roots[i].current == To(staged[i].name)
                && roots[i].temporaries == old(roots)[i].temporaries
      ensures ok ==> !lost
      ensures Steady(old(failures)) && (ok <==> failures == old(failures))
      ensures !ok ==> old(failures) < broke <= failures && (finished <==> failures == broke)
      ensures lost ==> interrupts > old(interrupts) || failures >= old(failures) + 2
      ensures !ok && finished ==> forall i :: 0 <= i < |roots| ==>
                roots[i].generations == old(roots)[i].generations - {staged[i].name}
      ensures !ok && finished && !lost ==> forall i :: 0 <= i < |roots| ==> roots[i].current == old(roots)[i].current
      ensures !ok && finished && lost ==> exists i :: 0 <= i < |roots| && !Safe(profiles[i], roots[i])
      ensures old(AlwaysGood()) && !lost ==> AlwaysGood()
    {
      finished := false;
      var activated;
      ok, activated, lost := Activate(staged);
      broke := failures;
      if ok {
        return;
      }
      ghost var switched := roots;
      AbortIsSafe(profiles, roots, staged, activated);
      finished := AbortActivation(staged, activated);
      if finished && lost {
        assert !Safe(profiles[activated], roots[activated]);
      }
    }

    /** `project_runtime_secrets`, from any state at all.

        - Unless a switch went uncounted, every state on the way can be recovered from, provided the
          first one could be.
        - Success leaves one generation per profile, with the new values.
        - When no call fails after the one that broke activation, the cleaning up finishes: no staged
          generation is left, and every `current` is as it was; with an uncounted switch some `current`
          dangles instead. It takes an interrupt or two failing calls to leave a switch uncounted.
        - A single failure while staging leaves no secret anywhere that was not there before, except for an
          interrupt just after a profile has been staged, which leaves that profile's new generation.
        - From recoverable directories it succeeds unless something fails on the way.
        - A state is refused only if it could not be recovered from, and a run that starts from such a state
          never gets past staging. */
    method Project(values: map<string, string>) returns (o: Outcome, ghost phase: Phase)
      requires Valid() && forall p :: p in profiles ==> Usable(p, values)
      modifies this
      ensures Valid() && old(trace) <= trace && |roots| == |old(roots)|
      ensures old(AlwaysGood()) && !(phase.Activating? && phase.lost) ==> AlwaysGood()
      ensures o == Done ==> phase == Committed && forall i :: 0 <= i < |roots| ==> Published(profiles[i], roots[i], values)
      ensures phase == Committed ==> forall i :: 0 <= i < |roots| ==>
                && roots[i].current.To? && roots[i].current.name in roots[i].generations
                && Holds(profiles[i], roots[i].generations[roots[i].current.name], values)
      ensures phase.Activating? ==> old(failures) < phase.broke <= failures && (phase.finished <==> failures == phase.broke)
      ensures phase.Activating? && phase.lost ==> interrupts > old(interrupts) || failures >= old(failures) + 2
      ensures phase.Activating? && phase.finished ==> forall i :: 0 <= i < |roots| ==>
                roots[i].generations.Keys == Previous(Target(old(roots)[i].current))
      ensures phase.Staging? || (phase.Activating? && phase.finished && !phase.lost) ==>
                forall i :: 0 <= i < |roots| ==> roots[i].current == old(roots)[i].current
      ensures phase.Activating? && phase.finished && phase.lost ==> exists i :: 0 <= i < |roots| && !Safe(profiles[i], roots[i])
      ensures phase.Staging? ==>
                && (Good(profiles, old(roots)) && AllDistinct() && failures == old(failures) + 1 && !phase.dropped ==>
                      forall i :: 0 <= i < |roots| ==> NothingNew(old(roots)[i], roots[i]))
                && (phase.dropped ==> failures > old(failures) && exists i :: 0 <= i < |roots| && Stays(i, values))
      ensures Steady(old(failures)) && (failures > old(failures) ==> o == Raised)
      ensures failures == old(failures) && Good(profiles, old(roots)) && AllDistinct() ==> o == Done
      ensures o == Rejected ==> !Good(profiles, old(roots))
      ensures !phase.Staging? ==> Good(profiles, old(roots))
    {
      var staged;
      ghost var dropped;
      o, staged, dropped := StageAll(values);
      phase := Staging(dropped);
      if o != Done {
        return;
      }
      ghost var ready := roots;
      forall i | 0 <= i < |roots|
        ensures InTransit(profiles[i], roots[i], staged[i]) && roots[i].current == LinkTo(staged[i].previous)
      {
        ReadyIsInTransit(profiles[i], old(roots)[i], roots[i], staged[i], values);
      }
      var ok;
      ghost var finished, lost, broke;
      ok, finished, lost, broke := Switch(staged);
      if !ok {
        phase, o := Activating(finished, lost, broke), Raised;
        forall i | finished && 0 <= i < |roots|
          ensures roots[i].generations.Keys == Previous(Target(old(roots)[i].current))
        {
          assert Ready(profiles[i], old(roots)[i], ready[i], staged[i], values);
        }
        return;
      }
      phase := Committed;
      forall i | 0 <= i < |roots|
        ensures roots[i].current == To(staged[i].name) && roots[i].temporaries == map[]
        ensures roots[i].generations.Keys == {staged[i].name} + Previous(staged[i].previous)
        ensures Holds(profiles[i], roots[i].generations[staged[i].name], values)
      {
        assert Ready(profiles[i], old(roots)[i], ready[i], staged[i], values);
        assert MaySwitch(ready[i], roots[i], To(staged[i].name));
      }
      ok := RemovePrevious(staged, values);
      o := if ok then Done else Raised;
    }
  }

  /** A run over whatever a crash of an earlier run left: any state of that run's trace. It is never
      refused, and when it succeeds it leaves exactly one generation per profile. */
  method RunAfterCrash(crashed: Host, residue: seq<Root>, values: map<string, string>, quiet: bool) returns (next: Host, o: Outcome)
    requires crashed.Valid() && crashed.AlwaysGood() && residue in crashed.trace
    requires forall p :: p in crashed.profiles ==> Usable(p, values)
    ensures fresh(next) && next.profiles == crashed.profiles && |next.roots| == |next.profiles|
    ensures o != Rejected
    ensures (quiet || next.failures == 0) && (forall p :: p in next.profiles ==> DistinctNames(p)) ==> o == Done
    ensures o == Done ==> forall i :: 0 <= i < |next.roots| ==> Published(next.profiles[i], next.roots[i], values)
  {
    next := new Host(crashed.profiles, residue, quiet);
    ghost var phase;
    o, phase := next.Project(values);
  }
}
