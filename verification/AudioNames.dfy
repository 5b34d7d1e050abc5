/** Which member names count as audio, told by their text, and that such members get ingested. */
module AudioNames {
  import opened Common
  import opened Ordering
  import opened Paths
  import opened ContentDigest
  import opened ArchiveMembers
  import opened DatasetCollection
  import opened ZipIngestion

  // ----- Extensions -----

  /** The name is a stem, a dot and an extension, neither of them empty. */
  ghost predicate EndsIn(name: string, e: string) {
    && e != "" && '.' !in e && |name| > |e| + 1
    && name[|name| - |e|..] == e && name[|name| - |e| - 1] == '.'
  }

  lemma {:induction false} SuffixFrom(name: string, end: nat, dot: nat)
    requires dot < end <= |name| && name[dot] == '.' && forall i :: dot < i < end ==> name[i] != '.'
    ensures Suffix(name, end) == if dot > 0 && dot + 1 < |name| then name[dot..] else ""
  {
    if end - 1 != dot {
      SuffixFrom(name, end - 1, dot);
    }
  }

  lemma {:induction false} NoDotNoSuffix(name: string, end: nat)
    requires end <= |name| && '.' !in name
    ensures Suffix(name, end) == ""
  {
    if end > 0 {
      NoDotNoSuffix(name, end - 1);
    }
  }

  lemma SuffixOf(name: string, e: string)
    requires EndsIn(name, e)
    ensures Suffix(name, |name|) == "." + e
  {
    var dot := |name| - |e| - 1;
    forall i | dot < i < |name|
      ensures name[i] != '.'
    {
      assert name[i] == e[i - dot - 1];
    }
    SuffixFrom(name, |name|, dot);
    assert name[dot..] == "." + e;
  }

  lemma {:induction false} LastDot(name: string, end: nat) returns (dot: nat)
    requires end <= |name| && '.' in name[..end]
    ensures dot < end && name[dot] == '.' && forall i :: dot < i < end ==> name[i] != '.'
  {
    if name[end - 1] == '.' {
      dot := end - 1;
    } else {
      assert name[..end] == name[..end - 1] + [name[end - 1]];
      dot := LastDot(name, end - 1);
    }
  }

  /** A name has the suffix "." + e exactly when it is a stem, a dot and e; without such an ending it has none. */
  lemma SuffixExactly(name: string)
    ensures forall e :: EndsIn(name, e) ==> Suffix(name, |name|) == "." + e
    ensures (forall e :: !EndsIn(name, e)) ==> Suffix(name, |name|) == ""
  {
    forall e | EndsIn(name, e)
      ensures Suffix(name, |name|) == "." + e
    {
      SuffixOf(name, e);
    }
    if '.' in name {
      assert name[..|name|] == name;
      var dot := LastDot(name, |name|);
      SuffixFrom(name, |name|, dot);
      if dot > 0 && dot + 1 < |name| {
        var e := name[dot + 1..];
        assert EndsIn(name, e);
      }
    } else {
      NoDotNoSuffix(name, |name|);
    }
  }

  /** The extension of a path is that of its last component, lower-cased. */
  lemma ExtensionExactly(u: Unicode, path: string, e: string)
    requires Parts(path) != [] && EndsIn(Parts(path)[|Parts(path)| - 1], e)
    ensures ExtensionOf(u, path) == u.lower("." + e)
  {
    SuffixOf(Parts(path)[|Parts(path)| - 1], e);
  }

  // ----- Hidden and metadata members -----

  ghost predicate MacosPart(u: Unicode, p: string) {
    u.casefold(p) == "__macosx" || u.casefold(p) == ".ds_store" || (|p| >= 2 && p[0] == '.' && p[1] == '_')
  }

  ghost predicate HiddenPart(p: string) { p != "" && p[0] == '.' }

  lemma {:induction false} MacosExactly(u: Unicode, parts: seq<string>)
    ensures AnyMacosMetadata(u, parts) <==> exists i :: 0 <= i < |parts| && MacosPart(u, parts[i])
  {
    if parts != [] {
      MacosExactly(u, parts[1..]);
      assert "._" <= parts[0] <==> |parts[0]| >= 2 && parts[0][0] == '.' && parts[0][1] == '_';
      if i :| 0 <= i < |parts| && MacosPart(u, parts[i]) {
        assert i > 0 ==> parts[1..][i - 1] == parts[i];
      }
      if i :| 0 <= i < |parts| - 1 && MacosPart(u, parts[1..][i]) {
        assert parts[i + 1] == parts[1..][i];
      }
    }
  }

  lemma {:induction false} HiddenExactly(parts: seq<string>)
    ensures AnyHidden(parts) <==> exists i :: 0 <= i < |parts| && HiddenPart(parts[i])
  {
    if parts != [] {
      HiddenExactly(parts[1..]);
      assert "." <= parts[0] <==> HiddenPart(parts[0]);
      if i :| 0 <= i < |parts| && HiddenPart(parts[i]) {
        assert i > 0 ==> parts[1..][i - 1] == parts[i];
      }
      if i :| 0 <= i < |parts| - 1 && HiddenPart(parts[1..][i]) {
        assert parts[i + 1] == parts[1..][i];
      }
    }
  }

  /** A path is skipped as metadata when some component is, otherwise as hidden when some component starts with
      a dot, and otherwise not. */
  lemma SkipExactly(u: Unicode, path: string)
    ensures var parts := Parts(path);
            var macos := exists i :: 0 <= i < |parts| && MacosPart(u, parts[i]);
            var hidden := exists i :: 0 <= i < |parts| && HiddenPart(parts[i]);
            SkipReasonOf(u, path) == if macos then Some(MacosMetadata) else if hidden then Some(Hidden) else None
  {
    MacosExactly(u, Parts(path));
    HiddenExactly(Parts(path));
  }

  // ----- Nothing usable is passed over -----

  /** A visible, non-empty file whose name ends in an audio extension; a WAV file must also pass inspection. */
  ghost predicate GoodAudio(t: Tools, m: Member, e: string) {
    var parts := Parts(m.path);
    && !IsDirectory(m.info) && m.info.data != []
    && (forall i :: 0 <= i < |parts| ==> !HiddenPart(parts[i]) && !MacosPart(t.unicode, parts[i]))
    && parts != [] && EndsIn(parts[|parts| - 1], e)
    && t.unicode.lower("." + e) in SUPPORTED_AUDIO
    && (t.unicode.lower("." + e) == ".wav" ==> t.inspectWav(m.info.data).Ok?)
  }

  lemma GoodIsUsable(t: Tools, m: Member, e: string)
    requires GoodAudio(t, m, e)
    ensures Usable(t, m) && ExtensionOf(t.unicode, m.path) == t.unicode.lower("." + e)
  {
    SkipExactly(t.unicode, m.path);
    ExtensionExactly(t.unicode, m.path, e);
  }

  lemma CanonicalHas(u: Unicode, es: seq<Entry>, i: nat) returns (k: nat)
    requires i < |es|
    ensures k < |Canonical(u, es)| && Canonical(u, es)[k] == Members(u, es)[i]
  {
    var ms := Members(u, es);
    assert ms[i] in multiset(ms) && multiset(Canonical(u, es)) == multiset(ms);
    assert ms[i] in Canonical(u, es);
    k :| 0 <= k < |Canonical(u, es)| && Canonical(u, es)[k] == ms[i];
  }

  lemma UsableIsKept(t: Tools, ms: seq<Member>, k: nat)
    requires k < |ms| && Usable(t, ms[k])
    ensures exists f :: f in Collected(t, ms).files && f.sha256 == t.hash(ms[k].info.data)
  {
    FirstOfEachContentIsKept(t, ms);
  }

  /** An acceptable archive that is faithful to its sizes and holds such a file is ingested, and the file's
      content is among those kept. */
  lemma GoodAudioIsIngested(t: Tools, es: seq<Entry>, limits: Limits, i: nat, e: string)
    requires Acceptable(t.unicode, es, limits) && Faithful(t.unicode, Canonical(t.unicode, es))
    requires i < |es| && GoodAudio(t, Members(t.unicode, es)[i], e)
    ensures Ingestible(t, es, limits)
    ensures exists f :: f in Collected(t, Canonical(t.unicode, es)).files && f.sha256 == t.hash(es[i].data)
  {
    GoodIsUsable(t, Members(t.unicode, es)[i], e);
    var k := CanonicalHas(t.unicode, es, i);
    UsableIsKept(t, Canonical(t.unicode, es), k);
  }
}
