/**
 * The Java collection operations the core uses, on sequences:
 * a LinkedHashSet is a duplicate-free sequence in insertion order,
 * an ArrayList a plain sequence.
 */
module Seqs {

  /** No element occurs twice: the invariant of a LinkedHashSet. */
  predicate NoDups<T(==)>(s: seq<T>) {
    forall i, j :: 0 <= i < j < |s| ==> s[i] != s[j]
  }

  /** LinkedHashSet.add: append x unless an equal element is already present, which keeps its place. */
  function SetAdd<T(==)>(s: seq<T>, x: T): (r: seq<T>)
    ensures x in r
    ensures forall y :: y in r ==> y in s || y == x
    ensures forall y :: y in s ==> y in r
    ensures x in s ==> r == s
    ensures x !in s ==> r == s + [x]
    ensures NoDups(s) ==> NoDups(r)
  {
    if x in s then s else s + [x]
  }

  /** Collection.removeIf: drop every element satisfying p, keep the rest in order. */
  function RemoveIf<T(==)>(s: seq<T>, p: T -> bool): (r: seq<T>)
    ensures forall y :: y in r ==> y in s && !p(y)
    ensures forall y :: y in s && !p(y) ==> y in r
    ensures |r| <= |s|
    ensures NoDups(s) ==> NoDups(r)
  {
    if s == [] then []
    else (if p(s[0]) then [] else [s[0]]) + RemoveIf(s[1..], p)
  }

  /** Removal keeps the survivors in their original order: it distributes over concatenation. */
  lemma {:induction false} RemoveIfAppend<T>(a: seq<T>, b: seq<T>, p: T -> bool)
    ensures RemoveIf(a + b, p) == RemoveIf(a, p) + RemoveIf(b, p)
  {
    if a != [] {
      assert (a + b)[1..] == a[1..] + b;
      RemoveIfAppend(a[1..], b, p);
    } else {
      assert a + b == b;
    }
  }

  /** Removal of nothing changes nothing. */
  lemma {:induction false} RemoveIfNone<T>(s: seq<T>, p: T -> bool)
    requires forall y :: y in s ==> !p(y)
    ensures RemoveIf(s, p) == s
  {
    if s != [] {
      RemoveIfNone(s[1..], p);
    }
  }

  /** LinkedHashSet.remove: drop the element equal to x, if any. */
  function Remove<T(==)>(s: seq<T>, x: T): (r: seq<T>)
    ensures forall y :: y in r ==> y in s && y != x
    ensures forall y :: y in s && y != x ==> y in r
    ensures NoDups(s) ==> NoDups(r)
  {
    RemoveIf(s, y => y == x)
  }

  /** ArrayList.remove(Object): drop the first element equal to x, if any. */
  function RemoveFirst<T(==)>(s: seq<T>, x: T): (r: seq<T>)
    ensures x !in s ==> r == s
    ensures x in s ==> |r| == |s| - 1 && multiset(r) == multiset(s) - multiset{x}
    ensures forall y :: y in r ==> y in s
    ensures forall y :: y in s && y != x ==> y in r
  {
    if s == [] then []
    else if s[0] == x then
      assert s == [s[0]] + s[1..];
      s[1..]
    else
      assert s == [s[0]] + s[1..];
      [s[0]] + RemoveFirst(s[1..], x)
  }

  /** In a duplicate-free list, removing the first occurrence removes the element altogether. */
  lemma {:induction false} RemoveFirstNoDups<T>(s: seq<T>, x: T)
    requires NoDups(s)
    ensures RemoveFirst(s, x) == Remove(s, x)
  {
    if s != [] {
      if s[0] == x {
        forall y | y in s[1..] ensures y != x {
          var j :| 0 <= j < |s[1..]| && s[1..][j] == y;
          assert s[j + 1] == y;
        }
        RemoveIfNone(s[1..], y => y == x);
      } else {
        RemoveFirstNoDups(s[1..], x);
      }
    }
  }

  /** Stream.distinct / new LinkedHashSet(list): keep the first occurrence of each element. */
  function Distinct<T(==)>(s: seq<T>): (r: seq<T>)
    ensures forall y :: y in r ==> y in s
    ensures forall y :: y in s ==> y in r
    ensures NoDups(r)
    ensures NoDups(s) ==> r == s
  {
    if s == [] then []
    else
      var init := s[..|s| - 1];
      assert s == init + [s[|s| - 1]];
      assert NoDups(s) ==> NoDups(init);
      SetAdd(Distinct(init), s[|s| - 1])
  }

  /** Index of the first occurrence of x in s. */
  function IndexOf<T(==)>(s: seq<T>, x: T): (i: nat)
    requires x in s
    ensures i < |s| && s[i] == x
    ensures forall j :: 0 <= j < i ==> s[j] != x
  {
    if s[0] == x then 0 else 1 + IndexOf(s[1..], x)
  }

  lemma {:induction false} IndexOfAppend<T>(s: seq<T>, x: T, y: T)
    requires y in s
    ensures IndexOf(s + [x], y) == IndexOf(s, y)
  {
    if s[0] != y {
      assert (s + [x])[1..] == s[1..] + [x];
      IndexOfAppend(s[1..], x, y);
    }
  }

  /** Distinct lists the elements in the order of their first occurrences in the input. */
  lemma {:induction false} DistinctFirstOccurrenceOrder<T>(s: seq<T>, i: nat, j: nat)
    requires i < j < |Distinct(s)|
    ensures IndexOf(s, Distinct(s)[i]) < IndexOf(s, Distinct(s)[j])
  {
    var init, x := s[..|s| - 1], s[|s| - 1];
    assert s == init + [x];
    var d := Distinct(init);
    if x in d {
      DistinctFirstOccurrenceOrder(init, i, j);
      IndexOfAppend(init, x, d[i]);
      IndexOfAppend(init, x, d[j]);
    } else if j < |d| {
      DistinctFirstOccurrenceOrder(init, i, j);
      IndexOfAppend(init, x, d[i]);
      IndexOfAppend(init, x, d[j]);
    } else {
      assert Distinct(s)[j] == x;
      IndexOfAppend(init, x, d[i]);
      assert IndexOf(s, x) == |init| by {
        assert forall k :: 0 <= k < |init| ==> s[k] != x;
      }
    }
  }
}
