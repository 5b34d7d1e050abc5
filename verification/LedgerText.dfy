/** The text of a checksum ledger: what is printed, how it is read, and when reading gives back what was printed. */
module LedgerText {
  import opened Common
  import opened Ordering
  import Paths

  const MAX_LEDGER_FILES: nat := 100_000
  const MAX_PATH_BYTES: nat := 4096

  /** Length in UTF-8. */
  function Utf8Length(s: string): nat {
    if s == "" then 0
    else
      var c := s[0] as int;
      (if c < 0x80 then 1 else if c < 0x800 then 2 else if c < 0x10000 then 3 else 4) + Utf8Length(s[1..])
  }

  // ----- Paths -----

  /** `str(PurePosixPath(s))` for a relative path. */
  function Normalized(s: string): string {
    if Paths.Parts(s) == [] then "." else Paths.Join(Paths.Parts(s))
  }

  /** `_validate_ledger_path`. */
  predicate ValidPath(s: string, ledger: string) {
    && s != "" && Utf8Length(s) <= MAX_PATH_BYTES
    && s[0] != '/' && Normalized(s) == s && ".." !in Paths.Parts(s)
    && '\\' !in s && !HasControl(s) && '\U{7F}' !in s && s != ledger
  }

  /** The bytes of one character in UTF-8. */
  function Encoded(c: char): seq<Byte> {
    var x := c as int;
    if x < 0x80 then [x]
    else if x < 0x800 then [0xC0 + x / 64, 0x80 + x % 64]
    else if x < 0x1_0000 then [0xE0 + x / 4096, 0x80 + x / 64 % 64, 0x80 + x % 64]
    else [0xF0 + x / 262_144, 0x80 + x / 4096 % 64, 0x80 + x / 64 % 64, 0x80 + x % 64]
  }

  /** What byte i adds to its marker. */
  function Payload(bytes: seq<Byte>, i: nat, marker: int): int
    requires i < |bytes|
  {
    var b: int := bytes[i];
    b - marker
  }

  /** The code read back from its bytes. */
  function CodeOf(bytes: seq<Byte>): int {
    match |bytes|
    case 1 => Payload(bytes, 0, 0)
    case 2 => Payload(bytes, 0, 0xC0) * 64 + Payload(bytes, 1, 0x80)
    case 3 => Payload(bytes, 0, 0xE0) * 4096 + Payload(bytes, 1, 0x80) * 64 + Payload(bytes, 2, 0x80)
    case 4 =>
      Payload(bytes, 0, 0xF0) * 262_144 + Payload(bytes, 1, 0x80) * 4096 + Payload(bytes, 2, 0x80) * 64 + Payload(bytes, 3, 0x80)
    case _ => -1
  }

  lemma EncodedReadsBack(c: char)
    ensures CodeOf(Encoded(c)) == c as int
    ensures forall i :: 1 <= i < |Encoded(c)| ==> 0x80 <= Encoded(c)[i] < 0xC0
  {
    var x := c as int;
    assert x == x / 64 * 64 + x % 64 && x / 64 == x / 4096 * 64 + x / 64 % 64;
    assert x / 4096 == x / 262_144 * 64 + x / 4096 % 64;
  }

  function EncodedText(s: string): seq<Byte> {
    if s == "" then [] else Encoded(s[0]) + EncodedText(s[1..])
  }

  lemma {:induction false} LengthIsEncoded(s: string)
    ensures Utf8Length(s) == |EncodedText(s)|
  {
    if s != "" {
      LengthIsEncoded(s[1..]);
    }
  }

  ghost predicate Plain(s: string) {
    forall i :: 0 <= i < |s| ==> s[i] >= ' ' && s[i] != '\U{7F}' && s[i] != '\\'
  }

  /** The valid paths are the joined components, none of them "..", without control characters or backslashes, of
      at most 4096 bytes, and not the ledger itself. The single dot passes too. */
  lemma ValidPathExactly(s: string, ledger: string)
    ensures ValidPath(s, ledger) <==>
              && Plain(s) && |EncodedText(s)| <= MAX_PATH_BYTES && s != ledger
              && (s == "." || exists parts :: parts != [] && Paths.Components(parts) && ".." !in parts && s == Paths.Join(parts))
  {
    LengthIsEncoded(s);
    assert Plain(s) <==> '\\' !in s && !HasControl(s) && '\U{7F}' !in s;
    if ValidPath(s, ledger) && s != "." {
      Paths.PartsAreComponents(s);
      assert s == Paths.Join(Paths.Parts(s));
    }
    if parts :| parts != [] && Paths.Components(parts) && ".." !in parts && s == Paths.Join(parts) {
      Paths.PartsOfJoin(parts);
      JoinStarts(parts);
    }
    if s == "." {
      DotHasNoParts();
    }
  }

  lemma DotHasNoParts()
    ensures Paths.Parts(".") == []
  {
    Paths.SplitOne(".");
    assert ["."][1..] == [];
  }

  lemma JoinStarts(parts: seq<string>)
    requires Paths.Components(parts) && parts != []
    ensures Paths.Join(parts) != "" && Paths.Join(parts)[0] != '/'
  {}

  // ----- Lines -----

  /** The characters `splitlines` breaks at. */
  predicate IsBreak(c: char) {
    || c == '\n' || c == '\r' || c == '\U{0B}' || c == '\U{0C}'
    || c == '\U{1C}' || c == '\U{1D}' || c == '\U{1E}'
    || c == '\U{85}' || c == '\U{2028}' || c == '\U{2029}'
  }

  predicate HasBreak(s: string) { exists i :: 0 <= i < |s| && IsBreak(s[i]) }

  function LineEnd(s: string): (n: nat)
    ensures n <= |s| && (n < |s| ==> IsBreak(s[n])) && forall i :: 0 <= i < n ==> !IsBreak(s[i])
  {
    if s == "" || IsBreak(s[0]) then 0 else 1 + LineEnd(s[1..])
  }

  function BreakLength(s: string, n: nat): (k: nat)
    requires n < |s|
    ensures 1 <= k && n + k <= |s|
  {
    if s[n] == '\r' && n + 1 < |s| && s[n + 1] == '\n' then 2 else 1
  }

  /** `splitlines`: a break at the very end starts no further line. */
  function SplitLines(s: string): seq<string>
    decreases |s|
  {
    if s == "" then []
    else
      var n := LineEnd(s);
      if n == |s| then [s] else [s[..n]] + SplitLines(s[n + BreakLength(s, n)..])
  }

  lemma LinesHaveNoBreak(s: string)
    ensures forall i :: 0 <= i < |SplitLines(s)| ==> !HasBreak(SplitLines(s)[i])
    decreases |s|
  {
    if s != "" {
      var n := LineEnd(s);
      if n < |s| {
        LinesHaveNoBreak(s[n + BreakLength(s, n)..]);
      }
    }
  }

  /** A line without breaks, ended by a newline, is split off whole. */
  lemma SplitFirstLine(line: string, rest: string)
    requires !HasBreak(line)
    ensures SplitLines(line + "\n" + rest) == [line] + SplitLines(rest)
  {
    var s := line + "\n" + rest;
    var n := LineEnd(s);
    assert s[|line|] == '\n';
    assert forall i :: 0 <= i < |line| ==> s[i] == line[i] && !IsBreak(line[i]);
    assert n == |line|;
    assert s[..n] == line && s[n + 1..] == rest;
  }

  /** A line is split off at any break character, and a carriage return takes a newline after it along. */
  lemma SplitAtBreak(line: string, c: char, rest: string)
    requires !HasBreak(line) && IsBreak(c)
    ensures SplitLines(line + [c] + rest) ==
            [line] + SplitLines(if c == '\r' && rest != "" && rest[0] == '\n' then rest[1..] else rest)
  {
    var s := line + [c] + rest;
    var n := LineEnd(s);
    assert s[|line|] == c;
    assert forall i :: 0 <= i < |line| ==> s[i] == line[i] && !IsBreak(line[i]);
    assert n == |line|;
    assert s[..n] == line && s[n + 1..] == rest;
    if c == '\r' && rest != "" && rest[0] == '\n' {
      assert s[n + 1] == '\n' && s[n + 2..] == rest[1..];
    } else {
      assert rest != "" ==> s[n + 1] == rest[0];
    }
  }

  // ----- Printing and parsing -----

  function Line(digest: string, path: string): string { digest + "  " + path }

  function Print(paths: seq<string>, digests: map<string, string>): string
    requires forall p :: p in paths ==> p in digests
  {
    if paths == [] then "" else Line(digests[paths[0]], paths[0]) + "\n" + Print(paths[1..], digests)
  }

  /** One ledger line: 64 hex digits, two spaces, and a path. */
  function ParseLine(line: string, ledger: string): Option<(string, string)> {
    if |line| > 66 && IsHex(line[..64]) && line[64..66] == "  " && '\n' !in line[66..] && ValidPath(line[66..], ledger)
    then Some((line[..64], line[66..]))
    else None
  }

  /** The lines read in order; a repeated path or too many paths stop the reading. */
  function ParseLines(lines: seq<string>, ledger: string): Option<map<string, string>> {
    if lines == [] then Some(map[])
    else
      var before := ParseLines(lines[..|lines| - 1], ledger);
      var one := ParseLine(lines[|lines| - 1], ledger);
      if before.None? || one.None? || one.value.1 in before.value || |before.value| + 1 > MAX_LEDGER_FILES then None
      else Some(before.value[one.value.1 := one.value.0])
  }

  function Parse(text: string, ledger: string): Option<map<string, string>> {
    if text == "" || text[|text| - 1] != '\n' then None else ParseLines(SplitLines(text), ledger)
  }

  /** The loop of `_load_checksum_ledger`. */
  method LoadLines(lines: seq<string>, ledger: string) returns (r: Option<map<string, string>>)
    ensures r == ParseLines(lines, ledger)
  {
    var expected: map<string, string> := map[];
    for i := 0 to |lines|
      invariant ParseLines(lines[..i], ledger) == Some(expected)
    {
      assert lines[..i + 1][..i] == lines[..i];
      var one := ParseLine(lines[i], ledger);
      if one.None? || one.value.1 in expected || |expected| + 1 > MAX_LEDGER_FILES {
        NoneStays(lines, i + 1, ledger);
        return None;
      }
      expected := expected[one.value.1 := one.value.0];
    }
    assert lines[..|lines|] == lines;
    r := Some(expected);
  }

  lemma {:induction false} NoneStays(lines: seq<string>, n: nat, ledger: string)
    requires n <= |lines| && ParseLines(lines[..n], ledger).None?
    ensures ParseLines(lines, ledger).None?
    decreases |lines|
  {
    if n < |lines| {
      assert lines[..|lines| - 1][..n] == lines[..n];
      NoneStays(lines[..|lines| - 1], n, ledger);
    } else {
      assert lines[..n] == lines;
    }
  }

  // ----- The round trip -----

  /** What is printed: every listed path once, with its digest. */
  ghost predicate Printable(paths: seq<string>, digests: map<string, string>, ledger: string) {
    && Lists(paths, digests.Keys) && |paths| <= MAX_LEDGER_FILES
    && forall p :: p in digests ==> ValidPath(p, ledger) && IsSha256(digests[p])
  }

  ghost predicate NoBreaks(paths: seq<string>) { forall p :: p in paths ==> !HasBreak(p) }

  function LinesOf(paths: seq<string>, digests: map<string, string>): (r: seq<string>)
    requires forall p :: p in paths ==> p in digests
    ensures |r| == |paths| && forall i :: 0 <= i < |r| ==> r[i] == Line(digests[paths[i]], paths[i])
  {
    seq(|paths|, i requires 0 <= i < |paths| => Line(digests[paths[i]], paths[i]))
  }

  lemma LinesOfNext(init: seq<string>, last: string, digests: map<string, string>)
    requires last in digests && forall p :: p in init ==> p in digests
    ensures LinesOf(init + [last], digests) == LinesOf(init, digests) + [Line(digests[last], last)]
  {}

  lemma LinesOfFirst(paths: seq<string>, digests: map<string, string>)
    requires paths != [] && forall p :: p in paths ==> p in digests
    ensures LinesOf(paths, digests) == [Line(digests[paths[0]], paths[0])] + LinesOf(paths[1..], digests)
  {}

  lemma LineHasNoBreak(digest: string, path: string)
    requires IsSha256(digest) && !HasBreak(path)
    ensures !HasBreak(Line(digest, path))
  {
    var line := Line(digest, path);
    forall i | 0 <= i < |line|
      ensures !IsBreak(line[i])
    {
      if i < 64 {
        assert line[i] == digest[i];
      } else if i < 66 {
        assert line[i] == "  "[i - 64];
      } else {
        assert line[i] == path[i - 66];
      }
    }
  }

  lemma {:induction false} SplitPrinted(paths: seq<string>, digests: map<string, string>)
    requires forall p :: p in paths ==> p in digests && IsSha256(digests[p]) && !HasBreak(p)
    ensures SplitLines(Print(paths, digests)) == LinesOf(paths, digests)
  {
    if paths != [] {
      var line := Line(digests[paths[0]], paths[0]);
      SplitPrinted(paths[1..], digests);
      LineHasNoBreak(digests[paths[0]], paths[0]);
      SplitFirstLine(line, Print(paths[1..], digests));
      LinesOfFirst(paths, digests);
    }
  }

  lemma ParsePrintedLine(digest: string, path: string, ledger: string)
    requires IsSha256(digest) && ValidPath(path, ledger) && !HasBreak(path)
    ensures ParseLine(Line(digest, path), ledger) == Some((digest, path))
  {
    var line := Line(digest, path);
    assert line[..64] == digest && line[64..66] == "  " && line[66..] == path;
    forall i | 0 <= i < |path|
      ensures path[i] != '\n'
    {
      assert !IsBreak(path[i]);
    }
  }

  /** The digests of the listed paths. */
  function Restricted(digests: map<string, string>, paths: seq<string>): map<string, string> {
    map p | p in digests && p in paths :: digests[p]
  }

  lemma RestrictedNext(digests: map<string, string>, init: seq<string>, last: string)
    requires last in digests && last !in init
    ensures Restricted(digests, init + [last]) == Restricted(digests, init)[last := digests[last]]
    ensures |Restricted(digests, init + [last])| == |Restricted(digests, init)| + 1
  {
    var more := Restricted(digests, init + [last]);
    assert more == Restricted(digests, init)[last := digests[last]];
    assert more.Keys == Restricted(digests, init).Keys + {last};
  }

  /** Each of these paths can be printed and read. */
  ghost predicate Readable(paths: seq<string>, digests: map<string, string>, ledger: string) {
    forall p :: p in paths ==> p in digests && IsSha256(digests[p]) && ValidPath(p, ledger) && !HasBreak(p)
  }

  lemma ParseOneMore(lines: seq<string>, line: string, ledger: string)
    requires ParseLines(lines, ledger).Some? && ParseLine(line, ledger).Some?
    requires ParseLine(line, ledger).value.1 !in ParseLines(lines, ledger).value
    requires |ParseLines(lines, ledger).value| < MAX_LEDGER_FILES
    ensures var one := ParseLine(line, ledger).value;
            ParseLines(lines + [line], ledger) == Some(ParseLines(lines, ledger).value[one.1 := one.0])
  {
    assert (lines + [line])[..|lines|] == lines;
  }

  lemma {:induction false} ParsePrintedLines(paths: seq<string>, digests: map<string, string>, ledger: string)
    requires Distinct(paths) && |paths| <= MAX_LEDGER_FILES && Readable(paths, digests, ledger)
    ensures ParseLines(LinesOf(paths, digests), ledger) == Some(Restricted(digests, paths))
    ensures |Restricted(digests, paths)| == |paths|
  {
    if paths == [] {
      assert Restricted(digests, paths) == map[];
    } else {
      var init, last := paths[..|paths| - 1], paths[|paths| - 1];
      assert paths == init + [last];
      ParsePrintedLines(init, digests, ledger);
      ParsePrintedLine(digests[last], last, ledger);
      RestrictedNext(digests, init, last);
      ParseOneMore(LinesOf(init, digests), Line(digests[last], last), ledger);
      LinesOfNext(init, last, digests);
    }
  }

  lemma {:induction false} PrintEndsWithNewline(paths: seq<string>, digests: map<string, string>)
    requires paths != [] && forall p :: p in paths ==> p in digests
    ensures Print(paths, digests) != "" && Print(paths, digests)[|Print(paths, digests)| - 1] == '\n'
  {
    if |paths| > 1 {
      PrintEndsWithNewline(paths[1..], digests);
    }
  }

  /** No path that is read contains a line break. */
  lemma {:induction false} ParsedHaveNoBreak(lines: seq<string>, ledger: string)
    requires forall i :: 0 <= i < |lines| ==> !HasBreak(lines[i])
    ensures var r := ParseLines(lines, ledger); r.Some? ==> forall p :: p in r.value ==> !HasBreak(p)
  {
    if lines != [] && ParseLines(lines, ledger).Some? {
      var init, last := lines[..|lines| - 1], lines[|lines| - 1];
      ParsedHaveNoBreak(init, ledger);
      var path := ParseLine(last, ledger).value.1;
      forall i | 0 <= i < |path|
        ensures !IsBreak(path[i])
      {
        assert last[66 + i] == path[i];
      }
    }
  }

  lemma ReadsBack(paths: seq<string>, digests: map<string, string>, ledger: string)
    requires Printable(paths, digests, ledger) && paths != [] && NoBreaks(paths)
    ensures Parse(Print(paths, digests), ledger) == Some(digests)
  {
    assert Readable(paths, digests, ledger);
    PrintEndsWithNewline(paths, digests);
    SplitPrinted(paths, digests);
    ParsePrintedLines(paths, digests, ledger);
    assert Restricted(digests, paths) == digests;
  }

  lemma OnlyWithoutBreaks(text: string, digests: map<string, string>, ledger: string)
    requires Parse(text, ledger) == Some(digests)
    ensures forall p :: p in digests ==> !HasBreak(p)
  {
    LinesHaveNoBreak(text);
    ParsedHaveNoBreak(SplitLines(text), ledger);
  }

  /** A printed ledger reads back as what was printed exactly when there is something to print and no path has
      a character `splitlines` breaks at. Path validation leaves three such characters: U+0085, U+2028, U+2029. */
  lemma LedgerReadsBack(paths: seq<string>, digests: map<string, string>, ledger: string)
    requires Printable(paths, digests, ledger)
    ensures Parse(Print(paths, digests), ledger) == Some(digests) <==> paths != [] && NoBreaks(paths)
  {
    if paths != [] && NoBreaks(paths) {
      ReadsBack(paths, digests, ledger);
    } else if Parse(Print(paths, digests), ledger) == Some(digests) {
      OnlyWithoutBreaks(Print(paths, digests), digests, ledger);
    }
  }

  /** A valid path breaks lines only at these three characters. */
  lemma BreaksThatPass(path: string, ledger: string)
    requires ValidPath(path, ledger)
    ensures HasBreak(path) <==> '\U{85}' in path || '\U{2028}' in path || '\U{2029}' in path
  {
    if HasBreak(path) {
      var i :| 0 <= i < |path| && IsBreak(path[i]);
      assert !(path[i] < ' ');
    }
    if c :| c in {'\U{85}', '\U{2028}', '\U{2029}'} && c in path {
      var i :| 0 <= i < |path| && path[i] == c;
      assert IsBreak(path[i]);
    }
  }

  /** A concrete ledger that is printed and does not read back: one valid path, the line separator. */
  lemma SeparatorBreaksLedger(path: string, digest: string)
    requires path == "\U{2028}" && digest == seq(64, i => '0')
    ensures Printable([path], map[path := digest], "SHA256SUMS")
    ensures Parse(Print([path], map[path := digest]), "SHA256SUMS") != Some(map[path := digest])
  {
    assert Paths.Components([path]);
    assert Paths.Join([path]) == path;
    Paths.PartsOfJoin([path]);
    assert Utf8Length(path) == 3 + Utf8Length("");
    assert IsBreak(path[0]) && path in [path];
    LedgerReadsBack([path], map[path := digest], "SHA256SUMS");
  }
}
