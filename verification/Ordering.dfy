/** Sorting by an order given as a relation, and when the result is independent of the input order. */
module Ordering {

  // ----- Strings, by code point -----

  predicate StringLe(a: string, b: string) {
    if a == [] then true
    else if b == [] then false
    else if a[0] != b[0] then a[0] < b[0]
    else StringLe(a[1..], b[1..])
  }

  lemma {:induction false} StringTotal(a: string, b: string)
    ensures StringLe(a, b) || StringLe(b, a)
    ensures StringLe(a, b) && StringLe(b, a) ==> a == b
    decreases |a|
  {
    if a != [] && b != [] && a[0] == b[0] {
      StringTotal(a[1..], b[1..]);
      assert a == [a[0]] + a[1..] && b == [b[0]] + b[1..];
    }
  }

  lemma {:induction false} StringTransitive(a: string, b: string, c: string)
    requires StringLe(a, b) && StringLe(b, c)
    ensures StringLe(a, c)
    decreases |a|
  {
    if a != [] && b != [] && c != [] && a[0] == b[0] && b[0] == c[0] {
      StringTransitive(a[1..], b[1..], c[1..]);
    }
  }

  lemma StringsOrdered(s: seq<string>)
    ensures OrderOn(StringLe, multiset(s))
  {
    forall x, y | x in s && y in s
      ensures StringLe(x, y) || StringLe(y, x)
      ensures StringLe(x, y) && StringLe(y, x) ==> x == y
    {
      StringTotal(x, y);
    }
    forall x, y, z | x in s && y in s && z in s && StringLe(x, y) && StringLe(y, z)
      ensures StringLe(x, z)
    {
      StringTransitive(x, y, z);
    }
  }

  // ----- Sorting -----

  /** On these elements the relation is a total order. */
  ghost predicate OrderOn<T>(le: (T, T) -> bool, m: multiset<T>) {
    && (forall x, y :: x in m && y in m ==> le(x, y) || le(y, x))
    && (forall x, y :: x in m && y in m && le(x, y) && le(y, x) ==> x == y)
    && (forall x, y, z :: x in m && y in m && z in m && le(x, y) && le(y, z) ==> le(x, z))
  }

  ghost predicate Sorted<T>(le: (T, T) -> bool, s: seq<T>) {
    forall i, j :: 0 <= i < j < |s| ==> le(s[i], s[j])
  }

  /** Puts x after every element not above it. */
  function Insert<T>(le: (T, T) -> bool, x: T, s: seq<T>): (r: seq<T>)
    ensures multiset(r) == multiset(s) + multiset{x}
  {
    if s == [] then [x]
    else
      var last := s[|s| - 1];
      assert s == s[..|s| - 1] + [last];
      if le(last, x) then s + [x] else Insert(le, x, s[..|s| - 1]) + [last]
  }

  function Sort<T>(le: (T, T) -> bool, s: seq<T>): (r: seq<T>)
    ensures multiset(r) == multiset(s)
  {
    if s == [] then [] else
      assert s == s[..|s| - 1] + [s[|s| - 1]];
      Insert(le, s[|s| - 1], Sort(le, s[..|s| - 1]))
  }

  lemma OrderOnFewer<T>(le: (T, T) -> bool, m: multiset<T>, fewer: multiset<T>)
    requires OrderOn(le, m) && fewer <= m
    ensures OrderOn(le, fewer)
  {
    assert forall x :: x in fewer ==> x in m;
  }

  lemma AppendSorted<T>(le: (T, T) -> bool, s: seq<T>, x: T)
    requires Sorted(le, s) && forall i :: 0 <= i < |s| ==> le(s[i], x)
    ensures Sorted(le, s + [x])
  {}

  /** Everything sorted is at most the last element, and x fits after it if the last does. */
  lemma BelowLast<T>(le: (T, T) -> bool, s: seq<T>, x: T)
    requires s != [] && Sorted(le, s) && OrderOn(le, multiset(s) + multiset{x}) && le(s[|s| - 1], x)
    ensures forall i :: 0 <= i < |s| ==> le(s[i], x)
  {
    var last := s[|s| - 1];
    forall i | 0 <= i < |s|
      ensures le(s[i], x)
    {
      assert s[i] in multiset(s) && last in multiset(s);
      assert i < |s| - 1 ==> le(s[i], last);
    }
  }

  lemma {:induction false} InsertSorted<T>(le: (T, T) -> bool, x: T, s: seq<T>)
    requires Sorted(le, s) && OrderOn(le, multiset(s) + multiset{x})
    ensures Sorted(le, Insert(le, x, s))
  {
    if s == [] {
    } else if le(s[|s| - 1], x) {
      BelowLast(le, s, x);
      AppendSorted(le, s, x);
    } else {
      var init, last := s[..|s| - 1], s[|s| - 1];
      assert s == init + [last];
      var m := multiset(s) + multiset{x};
      assert last in m && x in m && !le(last, x);
      OrderOnFewer(le, m, multiset(init) + multiset{x});
      InsertSorted(le, x, init);
      var r := Insert(le, x, init);
      forall i | 0 <= i < |r|
        ensures le(r[i], last)
      {
        assert r[i] in multiset(r);
        assert r[i] == x || r[i] in multiset(init);
        if r[i] != x {
          var k :| 0 <= k < |init| && init[k] == r[i];
          assert le(s[k], s[|s| - 1]);
        }
      }
      AppendSorted(le, r, last);
    }
  }

  lemma {:induction false} SortSorts<T>(le: (T, T) -> bool, s: seq<T>)
    requires OrderOn(le, multiset(s))
    ensures Sorted(le, Sort(le, s))
  {
    if s != [] {
      var init, last := s[..|s| - 1], s[|s| - 1];
      assert s == init + [last];
      assert multiset(init) <= multiset(s);
      SortSorts(le, init);
      assert multiset(Sort(le, init)) + multiset{last} == multiset(s);
      InsertSorted(le, last, Sort(le, init));
    }
  }

  lemma SameFirst<T>(le: (T, T) -> bool, a: seq<T>, b: seq<T>)
    requires Sorted(le, a) && Sorted(le, b) && OrderOn(le, multiset(a))
    requires multiset(a) == multiset(b) && a != []
    ensures b != [] && a[0] == b[0]
  {
    assert a[0] in multiset(b);
    assert a[0] in b;
    assert b[0] in multiset(a);
    assert b[0] in a;
    var i :| 0 <= i < |b| && b[i] == a[0];
    var j :| 0 <= j < |a| && a[j] == b[0];
    assert i > 0 ==> le(b[0], b[i]);
    assert j > 0 ==> le(a[0], a[j]);
  }

  lemma TailElements<T>(s: seq<T>)
    requires s != []
    ensures multiset(s[1..]) == multiset(s) - multiset{s[0]}
  {
    assert s == [s[0]] + s[1..];
  }

  lemma TailSorted<T>(le: (T, T) -> bool, s: seq<T>)
    requires s != [] && Sorted(le, s)
    ensures Sorted(le, s[1..])
  {}

  lemma TailsAgree<T>(le: (T, T) -> bool, a: seq<T>, b: seq<T>)
    requires Sorted(le, a) && Sorted(le, b) && OrderOn(le, multiset(a))
    requires multiset(a) == multiset(b) && a != []
    ensures b != [] && a[0] == b[0]
    ensures Sorted(le, a[1..]) && Sorted(le, b[1..]) && OrderOn(le, multiset(a[1..]))
    ensures multiset(a[1..]) == multiset(b[1..])
  {
    SameFirst(le, a, b);
    TailElements(a);
    TailElements(b);
    OrderOnFewer(le, multiset(a), multiset(a[1..]));
    TailSorted(le, a);
    TailSorted(le, b);
  }

  lemma {:induction false} SortedIsUnique<T>(le: (T, T) -> bool, a: seq<T>, b: seq<T>)
    requires Sorted(le, a) && Sorted(le, b) && OrderOn(le, multiset(a))
    requires multiset(a) == multiset(b)
    ensures a == b
  {
    if a == [] {
      assert |multiset(b)| == |b|;
    } else {
      TailsAgree(le, a, b);
      SortedIsUnique(le, a[1..], b[1..]);
      assert a == [a[0]] + a[1..] && b == [b[0]] + b[1..];
    }
  }

  /** Sorting forgets the input order. */
  lemma SortIsCanonical<T>(le: (T, T) -> bool, s: seq<T>, t: seq<T>)
    requires OrderOn(le, multiset(s)) && multiset(s) == multiset(t)
    ensures Sort(le, s) == Sort(le, t) && Sorted(le, Sort(le, s))
  {
    SortSorts(le, s);
    SortSorts(le, t);
    SortedIsUnique(le, Sort(le, s), Sort(le, t));
  }

  // ----- Distinct elements -----

  predicate Distinct<T(==)>(s: seq<T>) {
    forall i, j :: 0 <= i < j < |s| ==> s[i] != s[j]
  }

  lemma {:induction false} DistinctMultiset<T>(s: seq<T>)
    requires Distinct(s)
    ensures forall x :: multiset(s)[x] == if x in s then 1 else 0
  {
    if s != [] {
      var init, last := s[..|s| - 1], s[|s| - 1];
      assert s == init + [last];
      DistinctMultiset(init);
    }
  }

  lemma {:induction false} MultisetDistinct<T>(s: seq<T>)
    requires forall x :: multiset(s)[x] <= 1
    ensures Distinct(s)
  {
    if s != [] {
      var init, last := s[..|s| - 1], s[|s| - 1];
      assert s == init + [last];
      forall x
        ensures multiset(init)[x] <= 1
      {
        assert multiset(s)[x] == multiset(init)[x] + multiset([last])[x];
      }
      MultisetDistinct(init);
      assert multiset(s)[last] == multiset(init)[last] + 1;
    }
  }

  lemma DistinctIgnoresOrder<T>(a: seq<T>, b: seq<T>)
    requires Distinct(a) && multiset(a) == multiset(b)
    ensures Distinct(b)
  {
    DistinctMultiset(a);
    MultisetDistinct(b);
  }

  // ----- Images and sums under reordering -----

  function Map<A, B>(f: A -> B, s: seq<A>): (r: seq<B>)
    ensures |r| == |s| && forall i :: 0 <= i < |r| ==> r[i] == f(s[i])
  {
    seq(|s|, i requires 0 <= i < |s| => f(s[i]))
  }

  function Total(s: seq<int>): int {
    if s == [] then 0 else Total(s[..|s| - 1]) + s[|s| - 1]
  }

  function DropAt<T>(s: seq<T>, k: nat): seq<T>
    requires k < |s|
  {
    s[..k] + s[k + 1..]
  }

  lemma DropAtElements<T>(s: seq<T>, k: nat)
    requires k < |s|
    ensures multiset(s) == multiset(DropAt(s, k)) + multiset{s[k]}
  {
    assert s == s[..k] + [s[k]] + s[k + 1..];
  }

  /** One element of a sequence can be found in any reordering of it, and taken out. */
  lemma TakeOut<T>(a: seq<T>, b: seq<T>) returns (k: nat)
    requires a != [] && multiset(a) == multiset(b)
    ensures k < |b| && b[k] == a[|a| - 1] && multiset(DropAt(b, k)) == multiset(a[..|a| - 1])
  {
    var init, x := a[..|a| - 1], a[|a| - 1];
    assert a == init + [x];
    assert x in multiset(b);
    k :| 0 <= k < |b| && b[k] == x;
    DropAtElements(b, k);
    assert multiset(init) + multiset{x} == multiset(DropAt(b, k)) + multiset{x};
    assert multiset(init) == multiset(a) - multiset{x};
    assert multiset(DropAt(b, k)) == multiset(b) - multiset{x};
  }

  lemma {:induction false} MapPermutes<A, B>(f: A -> B, a: seq<A>, b: seq<A>)
    requires multiset(a) == multiset(b)
    ensures multiset(Map(f, a)) == multiset(Map(f, b))
  {
    if a == [] {
      assert |multiset(b)| == |b|;
    } else {
      var k := TakeOut(a, b);
      MapPermutes(f, a[..|a| - 1], DropAt(b, k));
      assert Map(f, a) == Map(f, a[..|a| - 1]) + [f(b[k])];
      DropAtElements(Map(f, b), k);
      assert DropAt(Map(f, b), k) == Map(f, DropAt(b, k));
    }
  }

  lemma {:induction false} TotalAppend(a: seq<int>, b: seq<int>)
    ensures Total(a + b) == Total(a) + Total(b)
  {
    if b == [] {
      assert a + b == a;
    } else {
      assert (a + b)[..|a + b| - 1] == a + b[..|b| - 1];
      TotalAppend(a, b[..|b| - 1]);
    }
  }

  lemma {:induction false} TotalDropAt(s: seq<int>, k: nat)
    requires k < |s|
    ensures Total(s) == Total(DropAt(s, k)) + s[k]
  {
    var init := s[..|s| - 1];
    if k == |init| {
      assert DropAt(s, k) == init;
    } else {
      var rest := DropAt(s, k);
      TotalDropAt(init, k);
      assert rest[..|rest| - 1] == DropAt(init, k);
    }
  }

  lemma {:induction false} TotalPermutes(a: seq<int>, b: seq<int>)
    requires multiset(a) == multiset(b)
    ensures Total(a) == Total(b)
  {
    if a == [] {
      assert |multiset(b)| == |b|;
    } else {
      var k := TakeOut(a, b);
      TotalPermutes(a[..|a| - 1], DropAt(b, k));
      TotalDropAt(b, k);
    }
  }

  /** A sum of non-negative numbers is at least the sum of its beginning. */
  lemma {:induction false} TotalGrows(s: seq<int>, n: nat)
    requires n <= |s| && forall i :: 0 <= i < |s| ==> s[i] >= 0
    ensures 0 <= Total(s[..n]) <= Total(s)
    decreases |s|
  {
    if n < |s| {
      TotalGrows(s[..|s| - 1], n);
      assert s[..|s| - 1][..n] == s[..n];
    } else if n > 0 {
      assert s[..n] == s;
      TotalGrows(s[..n - 1], n - 1);
      assert s[..n - 1][..n - 1] == s[..n - 1];
    }
  }

  // ----- Sets of strings, listed -----

  /** A list of the whole set, each element once. */
  ghost predicate Lists(keys: seq<string>, all: set<string>) {
    Distinct(keys) && forall k :: k in keys <==> k in all
  }

  lemma SortKeeps(keys: seq<string>)
    requires Distinct(keys)
    ensures Distinct(Sort(StringLe, keys)) && forall k :: k in Sort(StringLe, keys) <==> k in keys
  {
    DistinctMultiset(keys);
    var sorted := Sort(StringLe, keys);
    MultisetDistinct(sorted);
    forall k
      ensures k in sorted <==> k in keys
    {
      assert k in multiset(sorted) <==> k in multiset(keys);
    }
  }

  /** A sorted list of a set is what sorting any list of it gives. */
  lemma SortedListIsUnique(sorted: seq<string>, listed: seq<string>, all: set<string>)
    requires Lists(sorted, all) && Sorted(StringLe, sorted) && Lists(listed, all)
    ensures sorted == Sort(StringLe, listed)
  {
    DistinctMultiset(sorted);
    DistinctMultiset(listed);
    assert multiset(sorted) == multiset(listed);
    StringsOrdered(sorted);
    SortIsCanonical(StringLe, sorted, listed);
    SortedIsUnique(StringLe, sorted, Sort(StringLe, listed));
  }

  /** The set in sorted order; it is first listed in any order. */
  method SortedList(all: set<string>) returns (keys: seq<string>)
    ensures Lists(keys, all) && Sorted(StringLe, keys)
  {
    var listed: seq<string> := [];
    var rest := all;
    while rest != {}
      invariant rest <= all && Lists(listed, all - rest)
      decreases rest
    {
      var k :| k in rest;
      listed := listed + [k];
      rest := rest - {k};
    }
    keys := Sort(StringLe, listed);
    SortKeeps(listed);
    StringsOrdered(listed);
    SortSorts(StringLe, listed);
  }
}
