/**
 Sorting with a comparison, as the controller uses it on servers, pools and conditions.
 Elements that compare equal may end up in any order, so callers learn no more than that.
 */
module Sorting {

  /** `before` is a strict weak order. */
  ghost predicate IsOrder<T(!new)>(before: (T, T) -> bool) {
    && (forall a, b :: before(a, b) ==> !before(b, a))
    && (forall a, b, c :: !before(a, b) && !before(b, c) ==> !before(a, c))
  }

  ghost predicate SortedBy<T>(s: seq<T>, before: (T, T) -> bool) {
    forall i, j :: 0 <= i < j < |s| ==> !before(s[j], s[i])
  }

  method Insert<T(!new)>(s: seq<T>, x: T, before: (T, T) -> bool) returns (r: seq<T>)
    requires IsOrder(before) && SortedBy(s, before)
    ensures multiset(r) == multiset(s) + multiset{x} && SortedBy(r, before)
  {
    var at := 0;
    while at < |s| && !before(x, s[at])
      invariant 0 <= at <= |s|
      invariant forall k :: 0 <= k < at ==> !before(x, s[k])
    {
      at := at + 1;
    }
    r := s[..at] + [x] + s[at..];
    assert s == s[..at] + s[at..];
    InsertedSorted(s, x, at, before);
  }

  lemma InsertedSorted<T(!new)>(s: seq<T>, x: T, at: nat, before: (T, T) -> bool)
    requires IsOrder(before) && SortedBy(s, before) && at <= |s|
    requires forall k :: 0 <= k < at ==> !before(x, s[k])
    requires at < |s| ==> before(x, s[at])
    ensures SortedBy(s[..at] + [x] + s[at..], before)
  {
    var r := s[..at] + [x] + s[at..];
    forall i, j | 0 <= i < j < |r| ensures !before(r[j], r[i]) {
      assert r[i] == if i < at then s[i] else if i == at then x else s[i - 1];
      assert r[j] == if j < at then s[j] else if j == at then x else s[j - 1];
    }
  }

  method Sort<T(!new)>(s: seq<T>, before: (T, T) -> bool) returns (r: seq<T>)
    requires IsOrder(before)
    ensures multiset(r) == multiset(s) && SortedBy(r, before)
  {
    r := [];
    for i := 0 to |s|
      invariant multiset(r) == multiset(s[..i]) && SortedBy(r, before)
    {
      assert s[..i + 1] == s[..i] + [s[i]];
      r := Insert(r, s[i], before);
    }
    assert s[..|s|] == s;
  }

  lemma SameElements<T>(a: seq<T>, b: seq<T>)
    requires multiset(a) == multiset(b)
    ensures |a| == |b| && forall x :: x in a <==> x in b
  {
    assert |a| == |multiset(a)| && |b| == |multiset(b)|;
    forall x ensures x in a <==> x in b {
      assert x in multiset(a) <==> x in multiset(b);
    }
  }

  lemma DistinctFromMultiset<T>(a: seq<T>, b: seq<T>)
    requires multiset(a) == multiset(b)
    requires forall i, j :: 0 <= i < j < |a| ==> a[i] != a[j]
    ensures forall i, j :: 0 <= i < j < |b| ==> b[i] != b[j]
  {
    forall i, j | 0 <= i < j < |b| ensures b[i] != b[j] {
      if b[i] == b[j] {
        var x := b[i];
        MultiplicityOfPair(b, i, j);
        MultiplicityAtMostOne(a, x);
      }
    }
  }

  lemma MultiplicityOfPair<T>(s: seq<T>, i: nat, j: nat)
    requires i < j < |s| && s[i] == s[j]
    ensures multiset(s)[s[i]] >= 2
  {
    assert s == s[..i] + [s[i]] + s[i + 1..j] + [s[j]] + s[j + 1..];
  }

  lemma {:induction false} MultiplicityAtMostOne<T>(s: seq<T>, x: T)
    requires forall i, j :: 0 <= i < j < |s| ==> s[i] != s[j]
    ensures multiset(s)[x] <= 1
  {
    if s != [] {
      var k := |s| - 1;
      MultiplicityAtMostOne(s[..k], x);
      assert s == s[..k] + [s[k]];
      assert s[k] !in s[..k];
    }
  }
}
