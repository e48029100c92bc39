/** The library's stable sort, by a numeric key. */
module Sorting {
  function Inserted<T>(x: T, sorted: seq<T>, key: T -> nat): seq<T> {
    if sorted == [] then [x]
    else if key(sorted[|sorted| - 1]) <= key(x) then sorted + [x]
    else Inserted(x, sorted[..|sorted| - 1], key) + [sorted[|sorted| - 1]]
  }

  function Sorted<T>(s: seq<T>, key: T -> nat): seq<T> {
    if s == [] then [] else Inserted(s[|s| - 1], Sorted(s[..|s| - 1], key), key)
  }

  function Take<T>(s: seq<T>, n: nat): seq<T> {
    if n < |s| then s[..n] else s
  }

  ghost predicate Ascending<T>(s: seq<T>, key: T -> nat) {
    forall i, j :: 0 <= i < j < |s| ==> key(s[i]) <= key(s[j])
  }

  ghost predicate StrictlyAscending<T>(s: seq<T>, key: T -> nat) {
    forall i, j :: 0 <= i < j < |s| ==> key(s[i]) < key(s[j])
  }

  /** No two entries carry the same tag. */
  ghost predicate DistinctBy<T, U>(s: seq<T>, tag: T -> U) {
    forall i, j :: 0 <= i < j < |s| ==> tag(s[i]) != tag(s[j])
  }

  lemma {:induction false} InsertedFrom<T>(x: T, s: seq<T>, key: T -> nat, i: nat)
    requires i < |Inserted(x, s, key)|
    ensures Inserted(x, s, key)[i] == x || Inserted(x, s, key)[i] in s
  {
    if s != [] && key(s[|s| - 1]) > key(x) && i < |Inserted(x, s, key)| - 1 {
      InsertedFrom(x, s[..|s| - 1], key, i);
    }
  }

  lemma {:induction false} InsertionSorts<T>(x: T, sorted: seq<T>, key: T -> nat)
    requires Ascending(sorted, key)
    ensures var r := Inserted(x, sorted, key);
            Ascending(r, key) && multiset(r) == multiset(sorted) + multiset{x} && |r| == |sorted| + 1
  {
    if sorted != [] {
      var front, last := sorted[..|sorted| - 1], sorted[|sorted| - 1];
      assert sorted == front + [last];
      if key(last) > key(x) {
        InsertionSorts(x, front, key);
        var r := Inserted(x, front, key);
        forall i | 0 <= i < |r| ensures key(r[i]) <= key(last) {
          InsertedFrom(x, front, key, i);
        }
        AscendingAppend(r, last, key);
      } else {
        AscendingAppend(sorted, x, key);
      }
      hide Ascending;
    }
  }

  lemma AscendingAppend<T>(s: seq<T>, x: T, key: T -> nat)
    requires Ascending(s, key) && forall i :: 0 <= i < |s| ==> key(s[i]) <= key(x)
    ensures Ascending(s + [x], key)
  {
  }

  /** The sort is a sort: ascending keys, and the same entries. */
  lemma {:induction false} SortedIsSorted<T>(s: seq<T>, key: T -> nat)
    ensures Ascending(Sorted(s, key), key)
    ensures multiset(Sorted(s, key)) == multiset(s) && |Sorted(s, key)| == |s|
  {
    if s != [] {
      var front, last := s[..|s| - 1], s[|s| - 1];
      assert s == front + [last];
      SortedIsSorted(front, key);
      InsertionSorts(last, Sorted(front, key), key);
    }
  }

  lemma SortKeepsMembers<T>(s: seq<T>, key: T -> nat)
    ensures forall x :: x in Sorted(s, key) <==> x in s
  {
    forall x ensures x in Sorted(s, key) <==> x in s {
      MemberStays(s, key, x);
    }
  }

  lemma MemberStays<T>(s: seq<T>, key: T -> nat, x: T)
    ensures x in Sorted(s, key) <==> x in s
  {
    SortedIsSorted(s, key);
    assert x in Sorted(s, key) <==> x in multiset(Sorted(s, key));
    assert x in s <==> x in multiset(s);
  }

  lemma {:induction false} InsertionKeepsDistinct<T, U>(x: T, s: seq<T>, key: T -> nat, tag: T -> U)
    requires DistinctBy(s, tag) && forall i :: 0 <= i < |s| ==> tag(s[i]) != tag(x)
    ensures DistinctBy(Inserted(x, s, key), tag)
  {
    if s != [] {
      var front, last := s[..|s| - 1], s[|s| - 1];
      if key(last) > key(x) {
        InsertionKeepsDistinct(x, front, key, tag);
        var r := Inserted(x, front, key);
        forall i | 0 <= i < |r| ensures tag(r[i]) != tag(last) {
          InsertedFrom(x, front, key, i);
        }
      }
    }
  }

  lemma {:induction false} SortKeepsDistinct<T, U>(s: seq<T>, key: T -> nat, tag: T -> U)
    requires DistinctBy(s, tag)
    ensures DistinctBy(Sorted(s, key), tag)
  {
    if s != [] {
      var front, last := s[..|s| - 1], s[|s| - 1];
      SortKeepsDistinct(front, key, tag);
      var r := Sorted(front, key);
      forall i | 0 <= i < |r| ensures tag(r[i]) != tag(last) {
        MemberStays(front, key, r[i]);
      }
      InsertionKeepsDistinct(last, r, key, tag);
    }
  }

  /** With distinct keys, the first n sorted entries are nearer than all others. */
  lemma FirstAreLeast<T>(s: seq<T>, key: T -> nat, n: nat)
    requires DistinctBy(s, key)
    ensures var r := Take(Sorted(s, key), n);
            && StrictlyAscending(r, key) && |r| == (if n < |s| then n else |s|)
            && (forall x :: x in r ==> x in s)
            && (forall x, y :: x in r && y in s && y !in r ==> key(x) < key(y))
  {
    SortedIsSorted(s, key);
    SortKeepsMembers(s, key);
    SortKeepsDistinct(s, key, key);
    hide Sorted;
    var t, r := Sorted(s, key), Take(Sorted(s, key), n);
    StrictPrefix(t, key, |r|);
    hide Ascending, DistinctBy;
    forall x, y | x in r && y in s && y !in r ensures key(x) < key(y) {
      RestIsLater(t, key, |r|, x, y);
    }
  }

  lemma StrictPrefix<T>(t: seq<T>, key: T -> nat, n: nat)
    requires n <= |t| && Ascending(t, key) && DistinctBy(t, key)
    ensures StrictlyAscending(t[..n], key) && forall x :: x in t[..n] ==> x in t
  {
  }

  lemma RestIsLater<T>(t: seq<T>, key: T -> nat, n: nat, x: T, y: T)
    requires n <= |t| && Ascending(t, key) && DistinctBy(t, key)
    requires x in t[..n] && y in t && y !in t[..n]
    ensures key(x) < key(y)
  {
    assert t == t[..n] + t[n..];
    assert y in t[n..];
    var i :| 0 <= i < n && t[..n][i] == x;
    var j :| 0 <= j < |t| - n && t[n..][j] == y;
    assert t[i] == x && t[n + j] == y;
  }
}
