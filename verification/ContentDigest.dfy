/** The dataset content digest: what is hashed determines the list of files. */
module ContentDigest {
  import opened Common
  import opened Ordering

  /** Raw SHA-256 output. */
  type Hash = h: seq<Byte> | |h| == 32 witness seq(32, i => 0)

  // ----- Sequence numbers in names -----

  function Digit(d: nat): char
    requires d < 10
  {
    ('0' as int + d) as char
  }

  /** The decimal form of n, with zeros in front up to the given width. */
  function Padded(n: nat, width: nat): string
    decreases n, width
  {
    if n == 0 && width == 0 then ""
    else Padded(n / 10, if width > 0 then width - 1 else 0) + [Digit(n % 10)]
  }

  function Number(s: string): int {
    if s == "" then 0 else Number(s[..|s| - 1]) * 10 + (s[|s| - 1] as int - '0' as int)
  }

  predicate Digits(s: string) { forall i :: 0 <= i < |s| ==> '0' <= s[i] <= '9' }

  lemma {:induction false} PaddedReadsBack(n: nat, width: nat)
    ensures Number(Padded(n, width)) == n && Digits(Padded(n, width)) && |Padded(n, width)| >= width
    decreases n, width
  {
    if n > 0 || width > 0 {
      var shorter := Padded(n / 10, if width > 0 then width - 1 else 0);
      PaddedReadsBack(n / 10, if width > 0 then width - 1 else 0);
      assert Padded(n, width)[..|shorter|] == shorter;
    }
  }

  lemma MarkInLonger<T>(a: seq<T>, x: seq<T>, b: seq<T>, y: seq<T>, mark: T)
    requires x != [] && x[0] == mark && a + x == b + y
    ensures |a| < |b| ==> mark in b
  {
    if |a| < |b| {
      assert (a + x)[|a|] == b[|a|];
    }
  }

  /** A mark that occurs in neither beginning separates them from what follows. */
  lemma CutAtMark<T>(a: seq<T>, x: seq<T>, b: seq<T>, y: seq<T>, mark: T)
    requires mark !in a && mark !in b && x != [] && y != [] && x[0] == mark && y[0] == mark
    requires a + x == b + y
    ensures a == b && x == y
  {
    MarkInLonger(a, x, b, y, mark);
    MarkInLonger(b, y, a, x, mark);
    assert a == (a + x)[..|a|] && b == (b + y)[..|b|];
    assert x == (a + x)[|a|..] && y == (b + y)[|b|..];
  }

  const FLAT_DIRECTORY: string := "prepared_flat/"

  /** The name a kept file gets. */
  function CanonicalPath(sequence: nat, extension: string): string {
    FLAT_DIRECTORY + Padded(sequence, 6) + extension
  }

  predicate IsExtension(e: string) {
    |e| > 0 && e[0] == '.' && forall i :: 0 <= i < |e| ==> '\0' < e[i] <= '~'
  }

  /** Different sequence numbers give different names, whatever the extensions. */
  lemma CanonicalPathsDiffer(m: nat, n: nat, e: string, f: string)
    requires IsExtension(e) && IsExtension(f)
    ensures CanonicalPath(m, e) == CanonicalPath(n, f) ==> m == n && e == f
  {
    if CanonicalPath(m, e) == CanonicalPath(n, f) {
      SameNameSameNumber(m, n, e, f);
    }
  }

  lemma SameNameSameNumber(m: nat, n: nat, e: string, f: string)
    requires IsExtension(e) && IsExtension(f) && CanonicalPath(m, e) == CanonicalPath(n, f)
    ensures m == n && e == f
  {
    var p, q := Padded(m, 6), Padded(n, 6);
    PaddedReadsBack(m, 6);
    PaddedReadsBack(n, 6);
    assert p + e == CanonicalPath(m, e)[|FLAT_DIRECTORY|..];
    assert q + f == CanonicalPath(n, f)[|FLAT_DIRECTORY|..];
    CutAtMark(p, e, q, f, '.');
  }

  predicate Ascii(s: string) { forall i :: 0 <= i < |s| ==> '\0' < s[i] <= '~' }

  lemma CanonicalPathsAreAscii(n: nat, e: string)
    requires IsExtension(e)
    ensures Ascii(CanonicalPath(n, e))
  {
    PaddedReadsBack(n, 6);
    assert Ascii(FLAT_DIRECTORY);
  }

  // ----- What is hashed -----

  /** One kept file as the digest sees it. */
  datatype Digested = Digested(path: string, sha256: Hash, size: nat)

  function Power(k: nat): nat { if k == 0 then 1 else 256 * Power(k - 1) }

  /** `to_bytes(k, "big")`. */
  function BigEndian(n: nat, k: nat): (r: seq<Byte>)
    ensures |r| == k
  {
    if k == 0 then [] else BigEndian(n / 256, k - 1) + [n % 256]
  }

  lemma {:induction false} BigEndianReadsBack(m: nat, n: nat, k: nat)
    requires m < Power(k) && n < Power(k) && BigEndian(m, k) == BigEndian(n, k)
    ensures m == n
  {
    if k > 0 {
      var a, b := BigEndian(m, k), BigEndian(n, k);
      assert a[..k - 1] == BigEndian(m / 256, k - 1) && b[..k - 1] == BigEndian(n / 256, k - 1);
      assert a[k - 1] == m % 256 && b[k - 1] == n % 256;
      BigEndianReadsBack(m / 256, n / 256, k - 1);
    }
  }

  function PathBytes(s: string): (r: seq<Byte>)
    requires Ascii(s)
    ensures |r| == |s| && 0 !in r
  {
    seq(|s|, i requires 0 <= i < |s| => s[i] as int)
  }

  /** The size fits the eight bytes it is written in. */
  predicate Encodable(d: Digested) { Ascii(d.path) && d.size < Power(8) }

  function FileBytes(d: Digested): seq<Byte>
    requires Encodable(d)
  {
    PathBytes(d.path) + [0] + d.sha256 + BigEndian(d.size, 8)
  }

  predicate AllEncodable(files: seq<Digested>) { forall i :: 0 <= i < |files| ==> Encodable(files[i]) }

  function Encoding(files: seq<Digested>): seq<Byte>
    requires AllEncodable(files)
  {
    if files == [] then [] else FileBytes(files[0]) + Encoding(files[1..])
  }

  lemma EncodingAppend(files: seq<Digested>, d: Digested)
    requires AllEncodable(files + [d])
    ensures AllEncodable(files) && Encodable(d) && Encoding(files + [d]) == Encoding(files) + FileBytes(d)
    decreases files
  {
    assert (files + [d])[|files|] == d;
    forall i | 0 <= i < |files| ensures Encodable(files[i]) { assert (files + [d])[i] == files[i]; }
    if files == [] {
      assert ([] + [d])[1..] == [];
    } else {
      assert (files + [d])[1..] == files[1..] + [d];
      EncodingAppend(files[1..], d);
    }
  }

  /** What follows the path of a file, and how to take it apart. */
  function AfterPath(d: Digested, rest: seq<Byte>): seq<Byte> {
    [0] + (d.sha256 + (BigEndian(d.size, 8) + rest))
  }

  lemma AfterPathParts(d: Digested, rest: seq<Byte>)
    requires Encodable(d)
    ensures var tail := AfterPath(d, rest);
            && |tail| >= 41 && tail[0] == 0 && tail[1..33] == d.sha256 && tail[33..41] == BigEndian(d.size, 8) && tail[41..] == rest
    ensures FileBytes(d) + rest == PathBytes(d.path) + AfterPath(d, rest)
  {}

  /** The first file, and everything after it, can be read off. */
  lemma FirstFileReadsBack(d: Digested, x: seq<Byte>, e: Digested, y: seq<Byte>)
    requires Encodable(d) && Encodable(e) && FileBytes(d) + x == FileBytes(e) + y
    ensures d == e && x == y
  {
    AfterPathParts(d, x);
    AfterPathParts(e, y);
    CutAtMark(PathBytes(d.path), AfterPath(d, x), PathBytes(e.path), AfterPath(e, y), 0);
    BigEndianReadsBack(d.size, e.size, 8);
    SamePathBytes(d.path, e.path);
  }

  lemma SamePathBytes(s: string, t: string)
    requires Ascii(s) && Ascii(t) && PathBytes(s) == PathBytes(t)
    ensures s == t
  {
    assert |s| == |t|;
    forall i | 0 <= i < |s|
      ensures s[i] == t[i]
    {
      assert PathBytes(s)[i] == s[i] as int && PathBytes(t)[i] == t[i] as int;
    }
  }

  /** Two lists hashed from the same bytes are the same list, in the same order. */
  lemma {:induction false} EncodingReadsBack(a: seq<Digested>, b: seq<Digested>)
    requires AllEncodable(a) && AllEncodable(b) && Encoding(a) == Encoding(b)
    ensures a == b
  {
    if a == [] || b == [] {
      EncodingNonEmpty(a);
      EncodingNonEmpty(b);
    } else {
      FirstFileReadsBack(a[0], Encoding(a[1..]), b[0], Encoding(b[1..]));
      EncodingReadsBack(a[1..], b[1..]);
      assert a == [a[0]] + a[1..] && b == [b[0]] + b[1..];
    }
  }

  lemma EncodingNonEmpty(a: seq<Digested>)
    requires AllEncodable(a)
    ensures Encoding(a) == [] <==> a == []
  {
    if a != [] {
      assert |FileBytes(a[0])| >= 41;
    }
  }

  const HEADER: seq<Byte> := PathBytes("rvc-canonical-dataset-v1") + [0]

  /** The content digest, updated file by file as `_build_manifest` does. */
  method ContentHash(hash: seq<Byte> -> Hash, files: seq<Digested>) returns (digest: Hash)
    requires AllEncodable(files)
    ensures digest == hash(HEADER + Encoding(files))
  {
    var fed := HEADER;
    assert Encoding(files[..0]) == [];
    for i := 0 to |files|
      invariant fed == HEADER + Encoding(files[..i])
    {
      assert files[..i + 1] == files[..i] + [files[i]];
      EncodingAppend(files[..i], files[i]);
      fed := fed + PathBytes(files[i].path);
      fed := fed + [0];
      fed := fed + files[i].sha256;
      fed := fed + BigEndian(files[i].size, 8);
      assert fed == HEADER + Encoding(files[..i]) + FileBytes(files[i]);
    }
    assert files[..|files|] == files;
    digest := hash(fed);
  }

  /** The two lists are not hashed as two different byte strings that collide. */
  predicate Apart(hash: seq<Byte> -> Hash, a: seq<Digested>, b: seq<Digested>)
    requires AllEncodable(a) && AllEncodable(b)
  {
    var x, y := HEADER + Encoding(a), HEADER + Encoding(b);
    hash(x) == hash(y) ==> x == y
  }

  /** Equal content digests mean equal lists of paths, hashes and sizes, exactly when the hash tells
      the two encodings apart. */
  lemma ContentHashIdentifies(hash: seq<Byte> -> Hash, a: seq<Digested>, b: seq<Digested>)
    requires AllEncodable(a) && AllEncodable(b)
    ensures (hash(HEADER + Encoding(a)) == hash(HEADER + Encoding(b)) ==> a == b) <==> Apart(hash, a, b)
  {
    var x, y := HEADER + Encoding(a), HEADER + Encoding(b);
    if hash(x) == hash(y) && x == y {
      assert x[|HEADER|..] == Encoding(a) && y[|HEADER|..] == Encoding(b);
      EncodingReadsBack(a, b);
    }
  }
}
