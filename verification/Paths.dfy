/** Slash-separated relative paths, taken apart the way `PurePosixPath` does it. */
module Paths {

  /** What one more character at the front does to the pieces. */
  function Extend(c: char, pieces: seq<string>): seq<string>
    requires pieces != []
  {
    if c == '/' then [""] + pieces else [[c] + pieces[0]] + pieces[1..]
  }

  /** The texts between slashes; at least one. */
  function Split(s: string): (r: seq<string>)
    ensures |r| >= 1
  {
    if s == "" then [""] else Extend(s[0], Split(s[1..]))
  }

  function Join(parts: seq<string>): string {
    if parts == [] then "" else if |parts| == 1 then parts[0] else parts[0] + "/" + Join(parts[1..])
  }

  /** Drops what `PurePosixPath` drops. */
  function Meaningful(parts: seq<string>): seq<string> {
    if parts == [] then []
    else if parts[0] == "" || parts[0] == "." then Meaningful(parts[1..])
    else [parts[0]] + Meaningful(parts[1..])
  }

  /** The components of a relative path. */
  function Parts(s: string): seq<string> { Meaningful(Split(s)) }

  predicate Component(p: string) { p != "" && p != "." && '/' !in p }

  predicate Components(parts: seq<string>) { forall i :: 0 <= i < |parts| ==> Component(parts[i]) }

  lemma {:induction false} SplitHasNoSlash(s: string)
    ensures forall i :: 0 <= i < |Split(s)| ==> '/' !in Split(s)[i]
  {
    if s != "" {
      SplitHasNoSlash(s[1..]);
    }
  }

  lemma {:induction false} MeaningfulComponents(parts: seq<string>)
    requires forall i :: 0 <= i < |parts| ==> '/' !in parts[i]
    ensures Components(Meaningful(parts))
  {
    if parts != [] {
      MeaningfulComponents(parts[1..]);
    }
  }

  lemma {:induction false} MeaningfulKeeps(parts: seq<string>)
    requires Components(parts)
    ensures Meaningful(parts) == parts
  {
    if parts != [] {
      MeaningfulKeeps(parts[1..]);
      assert parts == [parts[0]] + parts[1..];
    }
  }

  lemma {:induction false} MeaningfulAppend(a: seq<string>, b: seq<string>)
    ensures Meaningful(a + b) == Meaningful(a) + Meaningful(b)
  {
    if a == [] {
      assert a + b == b;
    } else {
      MeaningfulAppend(a[1..], b);
      assert (a + b)[1..] == a[1..] + b;
    }
  }

  lemma PartsAreComponents(s: string)
    ensures Components(Parts(s))
  {
    SplitHasNoSlash(s);
    MeaningfulComponents(Split(s));
  }

  lemma SplitCons(c: char, s: string)
    ensures Split([c] + s) == Extend(c, Split(s))
  {
    assert ([c] + s)[1..] == s;
  }

  lemma ExtendAppend(c: char, a: seq<string>, b: seq<string>)
    requires a != []
    ensures Extend(c, a + b) == Extend(c, a) + b
  {}

  /** A slash separates what is on its two sides. */
  lemma {:induction false} SplitAt(p: string, rest: string)
    ensures Split(p + "/" + rest) == Split(p) + Split(rest)
  {
    if p == "" {
      SplitCons('/', rest);
      assert "" + "/" + rest == ['/'] + rest;
    } else {
      var c, tail := p[0], p[1..];
      SplitAt(tail, rest);
      SplitCons(c, tail + "/" + rest);
      SplitCons(c, tail);
      assert p == [c] + tail && p + "/" + rest == [c] + (tail + "/" + rest);
      ExtendAppend(c, Split(tail), Split(rest));
    }
  }

  lemma {:induction false} SplitOne(p: string)
    requires '/' !in p
    ensures Split(p) == [p]
  {
    if p != "" {
      SplitOne(p[1..]);
      assert p == [p[0]] + p[1..];
    }
  }

  lemma {:induction false} SplitJoin(parts: seq<string>)
    requires Components(parts) && parts != []
    ensures Split(Join(parts)) == parts
  {
    SplitOne(parts[0]);
    if |parts| > 1 {
      SplitJoin(parts[1..]);
      SplitAt(parts[0], Join(parts[1..]));
      assert parts == [parts[0]] + parts[1..];
    }
  }

  /** Joining components loses nothing, with or without a trailing slash. */
  lemma PartsOfJoin(parts: seq<string>)
    requires Components(parts)
    ensures Parts(Join(parts)) == parts && Parts(Join(parts) + "/") == parts
  {
    MeaningfulKeeps(parts);
    if parts == [] {
      assert Join(parts) + "/" == "/";
      assert Split("/") == ["", ""] by { assert "/"[1..] == ""; }
    } else {
      SplitJoin(parts);
      SplitAt(Join(parts), "");
      assert Join(parts) + "/" + "" == Join(parts) + "/";
      MeaningfulAppend(parts, [""]);
    }
  }

  /** `rstrip("/")`. */
  function Trimmed(s: string): string {
    if s != "" && s[|s| - 1] == '/' then Trimmed(s[..|s| - 1]) else s
  }

  /** Trailing slashes do not change the components. */
  lemma {:induction false} TrimKeepsParts(s: string)
    ensures Parts(Trimmed(s)) == Parts(s)
  {
    if s != "" && s[|s| - 1] == '/' {
      var t := s[..|s| - 1];
      TrimKeepsParts(t);
      assert s == t + "/" + "";
      SplitAt(t, "");
      MeaningfulAppend(Split(t), [""]);
    }
  }
}
