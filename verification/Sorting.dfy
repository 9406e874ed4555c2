/** Sorting by a key, permutations, and sorted lists without duplicates. */
module Sorting {
  ghost predicate SortedBy<T(!new)>(xs: seq<T>, key: T -> nat) { forall i, j :: 0 <= i < j < |xs| ==> key(xs[i]) <= key(xs[j]) }

  /** Puts `x` before the elements with the same key. */
  function InsertBy<T(!new)>(x: T, xs: seq<T>, key: T -> nat): (r: seq<T>)
    requires SortedBy(xs, key)
    ensures SortedBy(r, key) && multiset(r) == multiset{x} + multiset(xs)
    ensures r != [] && (r[0] == x || (xs != [] && r[0] == xs[0] && key(xs[0]) < key(x)))
  {
    if xs == [] || key(x) <= key(xs[0]) then [x] + xs
    else
      var rest := InsertBy(x, xs[1..], key);
      assert xs == [xs[0]] + xs[1..];
      [xs[0]] + rest
  }

  /** Stable sort by key. */
  function SortBy<T(!new)>(xs: seq<T>, key: T -> nat): (r: seq<T>)
    ensures SortedBy(r, key) && multiset(r) == multiset(xs)
  {
    if xs == [] then []
    else
      assert xs == [xs[0]] + xs[1..];
      InsertBy(xs[0], SortBy(xs[1..], key), key)
  }

  // ---------------------------------------------------------------------------------------
  // Permutations.
  // ---------------------------------------------------------------------------------------

  lemma SameElements<T>(xs: seq<T>, ys: seq<T>)
    requires multiset(xs) == multiset(ys)
    ensures |xs| == |ys| && forall x :: x in xs <==> x in ys
  {
    assert |multiset(xs)| == |xs| && |multiset(ys)| == |ys|;
    forall x ensures x in xs <==> x in ys { assert x in multiset(xs) <==> x in multiset(ys); }
  }

  ghost predicate Distinct<T>(xs: seq<T>) { forall i, j :: 0 <= i < j < |xs| ==> xs[i] != xs[j] }

  lemma CountedTwice<T>(xs: seq<T>, i: nat, j: nat)
    requires i < j < |xs| && xs[i] == xs[j]
    ensures multiset(xs)[xs[i]] >= 2
  {
    assert xs == xs[..j] + [xs[j]] + xs[j + 1..];
    assert xs[..j][i] in multiset(xs[..j]);
  }

  lemma CountedOnce<T>(xs: seq<T>, x: T)
    requires Distinct(xs)
    ensures multiset(xs)[x] <= 1
  {
    if x in xs {
      var k :| 0 <= k < |xs| && xs[k] == x;
      assert xs == xs[..k] + [xs[k]] + xs[k + 1..];
      assert x !in xs[..k] && x !in xs[k + 1..];
    }
  }

  lemma PermutationStaysDistinct<T>(xs: seq<T>, ys: seq<T>)
    requires multiset(xs) == multiset(ys) && Distinct(xs)
    ensures Distinct(ys)
  {
    forall i, j | 0 <= i < j < |ys| ensures ys[i] != ys[j] {
      CountedOnce(xs, ys[i]);
      if ys[i] == ys[j] {
        CountedTwice(ys, i, j);
        assert false;
      }
    }
  }

  // ---------------------------------------------------------------------------------------
  // Sorted sets of documents.
  // ---------------------------------------------------------------------------------------

  ghost predicate Ascending(docs: seq<nat>) { forall i, j :: 0 <= i < j < |docs| ==> docs[i] < docs[j] }

  /** Sorted without duplicates. */
  function SortDedup(docs: seq<nat>): (r: seq<nat>)
    ensures |r| <= |docs| && Ascending(r) && forall d :: d in r <==> d in docs
  {
    if docs == [] then [] else Insert(docs[0], SortDedup(docs[1..]))
  }

  function Insert(d: nat, docs: seq<nat>): (r: seq<nat>)
    requires Ascending(docs)
    ensures |r| <= |docs| + 1 && Ascending(r) && forall x :: x in r <==> x == d || x in docs
  {
    if docs == [] || d < docs[0] then [d] + docs
    else if d == docs[0] then docs
    else
      assert docs == [docs[0]] + docs[1..];
      var rest := Insert(d, docs[1..]);
      FirstIsLeast(docs);
      ConsAscends(docs[0], rest);
      [docs[0]] + rest
  }

  lemma ConsAscends(first: nat, rest: seq<nat>)
    requires Ascending(rest) && forall x :: x in rest ==> first < x
    ensures Ascending([first] + rest)
  {
    var r := [first] + rest;
    forall i, j | 0 <= i < j < |r| ensures r[i] < r[j] {
      assert r[j] == rest[j - 1] && rest[j - 1] in rest;
      if i > 0 { assert r[i] == rest[i - 1]; }
    }
  }

  lemma FirstIsLeast(docs: seq<nat>)
    requires Ascending(docs) && docs != []
    ensures forall x :: x in docs[1..] ==> docs[0] < x
  {
    forall x | x in docs[1..] ensures docs[0] < x {
      var k :| 0 <= k < |docs| - 1 && docs[1..][k] == x;
      assert x == docs[k + 1];
    }
  }

  /** There is one ascending list of a set of documents. */
  lemma {:induction false} AscendingIsUnique(a: seq<nat>, b: seq<nat>)
    requires Ascending(a) && Ascending(b) && forall d :: d in a <==> d in b
    ensures a == b
  {
    EmptyTogether(a, b);
    if a != [] {
      SameFirst(a, b);
      forall d ensures d in a[1..] <==> d in b[1..] {
        if d in a[1..] { var i :| 1 <= i < |a| && a[i] == d; assert d in b && d != b[0]; }
        if d in b[1..] { var i :| 1 <= i < |b| && b[i] == d; assert d in a && d != a[0]; }
      }
      AscendingIsUnique(a[1..], b[1..]);
      assert a == [a[0]] + a[1..] && b == [b[0]] + b[1..];
    }
  }

  lemma EmptyTogether(a: seq<nat>, b: seq<nat>)
    requires forall d :: d in a <==> d in b
    ensures a == [] <==> b == []
  {
    assert a != [] ==> a[0] in b;
    assert b != [] ==> b[0] in a;
  }

  lemma SameFirst(a: seq<nat>, b: seq<nat>)
    requires Ascending(a) && Ascending(b) && a != [] && b != [] && forall d :: d in a <==> d in b
    ensures a[0] == b[0]
  {
    assert a[0] in b && b[0] in a;
  }
}
