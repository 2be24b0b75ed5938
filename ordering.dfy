/**
 * Sorting by an order value, the stand-in for AnnotationAwareOrderComparator.sort.
 * The comparator compares the order values the framework attaches to each object;
 * here that value is the abstract key `order`, so the comparator is a total preorder.
 * List.sort is stable, and so is this insertion sort.
 */
module Ordering {
  import opened Seqs

  predicate SortedBy<T>(s: seq<T>, order: T -> int) {
    forall i, j :: 0 <= i < j < |s| ==> order(s[i]) <= order(s[j])
  }

  /** Insert x in front of the first element that does not order strictly before it. */
  function InsertByOrder<T>(x: T, s: seq<T>, order: T -> int): (r: seq<T>)
    ensures multiset(r) == multiset(s) + multiset{x}
    ensures |r| == |s| + 1 && (r[0] == x || (s != [] && r[0] == s[0]))
  {
    if s == [] || order(x) <= order(s[0]) then [x] + s
    else
      assert s == [s[0]] + s[1..];
      [s[0]] + InsertByOrder(x, s[1..], order)
  }

  /** Inserting into a sorted list keeps it sorted. */
  lemma {:induction false} InsertByOrderSorted<T>(x: T, s: seq<T>, order: T -> int)
    requires SortedBy(s, order)
    ensures SortedBy(InsertByOrder(x, s, order), order)
  {
    if s == [] || order(x) <= order(s[0]) {
      var r := [x] + s;
      forall i, j | 0 <= i < j < |r| ensures order(r[i]) <= order(r[j]) {
        if i == 0 { assert order(s[0]) <= order(s[j - 1]); }
      }
    } else {
      var rest := InsertByOrder(x, s[1..], order);
      InsertByOrderSorted(x, s[1..], order);
      var r := [s[0]] + rest;
      assert InsertByOrder(x, s, order) == r;
      assert order(s[0]) <= order(rest[0]) by {
        if rest[0] != x { assert rest[0] == s[1]; }
      }
      forall i, j | 0 <= i < j < |r| ensures order(r[i]) <= order(r[j]) {
        if i == 0 && j > 1 { assert order(rest[0]) <= order(rest[j - 1]); }
      }
    }
  }

  function SortByOrder<T>(s: seq<T>, order: T -> int): (r: seq<T>)
    ensures SortedBy(r, order)
    ensures multiset(r) == multiset(s)
    ensures |r| == |s|
  {
    if s == [] then []
    else
      assert s == [s[0]] + s[1..];
      var sorted := SortByOrder(s[1..], order);
      InsertByOrderSorted(s[0], sorted, order);
      InsertByOrder(s[0], sorted, order)
  }

  /** The elements of s whose order value is k, in their order in s. */
  function WithOrder<T>(s: seq<T>, order: T -> int, k: int): seq<T> {
    if s == [] then []
    else (if order(s[0]) == k then [s[0]] else []) + WithOrder(s[1..], order, k)
  }

  lemma {:induction false} InsertWithOrder<T>(x: T, s: seq<T>, order: T -> int, k: int)
    requires SortedBy(s, order)
    ensures WithOrder(InsertByOrder(x, s, order), order, k)
         == (if order(x) == k then [x] else []) + WithOrder(s, order, k)
  {
    var r := InsertByOrder(x, s, order);
    if s == [] || order(x) <= order(s[0]) {
      assert r == [x] + s;
      assert r[1..] == s;
    } else {
      var rest := InsertByOrder(x, s[1..], order);
      assert r == [s[0]] + rest;
      assert r[1..] == rest;
      InsertWithOrder(x, s[1..], order, k);
      var hx := if order(x) == k then [x] else [];
      var h0 := if order(s[0]) == k then [s[0]] else [];
      assert WithOrder(r, order, k) == h0 + WithOrder(rest, order, k);
      assert WithOrder(rest, order, k) == hx + WithOrder(s[1..], order, k);
      assert WithOrder(s, order, k) == h0 + WithOrder(s[1..], order, k);
      assert h0 == [] || hx == [];
    }
  }

  /** Stability: among elements with equal order values, sorting keeps their relative order. */
  lemma {:induction false} SortByOrderStable<T>(s: seq<T>, order: T -> int, k: int)
    ensures WithOrder(SortByOrder(s, order), order, k) == WithOrder(s, order, k)
  {
    if s != [] {
      SortByOrderStable(s[1..], order, k);
      InsertWithOrder(s[0], SortByOrder(s[1..], order), order, k);
    }
  }

  /** A list already in order is left as it is. */
  lemma {:induction false} SortByOrderSorted<T>(s: seq<T>, order: T -> int)
    requires SortedBy(s, order)
    ensures SortByOrder(s, order) == s
  {
    if s != [] {
      SortByOrderSorted(s[1..], order);
      assert SortByOrder(s[1..], order) == s[1..];
      assert s == [s[0]] + s[1..];
    }
  }

  lemma {:induction false} NoDupsCount<T>(s: seq<T>, x: T)
    requires NoDups(s)
    ensures multiset(s)[x] <= 1
  {
    if s != [] {
      assert s == [s[0]] + s[1..];
      NoDupsCount(s[1..], x);
      if s[0] == x {
        forall j | 0 <= j < |s| - 1 ensures s[1..][j] != x {
          assert s[1..][j] == s[j + 1];
        }
        assert x !in s[1..];
      }
    }
  }

  /** A permutation of a duplicate-free list is duplicate-free. */
  lemma PermutationNoDups<T>(a: seq<T>, b: seq<T>)
    requires multiset(a) == multiset(b) && NoDups(a)
    ensures NoDups(b)
  {
    forall i, j | 0 <= i < j < |b| ensures b[i] != b[j] {
      if b[i] == b[j] {
        var x := b[i];
        assert b == b[..j] + [b[j]] + b[j + 1..];
        assert x in b[..j];
        assert multiset(b)[x] >= 2;
        NoDupsCount(a, x);
        assert false;
      }
    }
  }

  /** Sorting keeps a duplicate-free list duplicate-free. */
  lemma SortByOrderNoDups<T>(s: seq<T>, order: T -> int)
    requires NoDups(s)
    ensures NoDups(SortByOrder(s, order))
  {
    PermutationNoDups(s, SortByOrder(s, order));
  }
}
