/** Ascending listings of finite sets of numbers: what iterating a `std::set`, or sorting a
    vector of distinct keys, yields. */
module Sorting {
  import opened Collections
  import opened Types

  ghost predicate Ascending(s: seq<int>) {
    forall i, j :: 0 <= i < j < |s| ==> s[i] < s[j]
  }

  ghost predicate Lists(r: seq<int>, s: set<int>) {
    && Ascending(r)
    && (forall x :: x in r <==> x in s)
    && |r| == |s|
  }

  lemma {:induction false} LeastExists(s: set<int>)
    requires s != {}
    ensures exists m :: m in s && forall x :: x in s ==> m <= x
    decreases |s|
  {
    var m := Pick(s);
    var rest := s - {m};
    if rest == {} {
      assert s == {m};
    } else {
      assert |rest| < |s|;
      LeastExists(rest);
      var k :| k in rest && forall x :: x in rest ==> k <= x;
      var least := if k < m then k else m;
      assert forall x :: x in s ==> x == m || x in rest;
      assert least in s && forall x :: x in s ==> least <= x;
    }
  }

  lemma {:induction false} ListingExists(s: set<int>)
    ensures exists r :: Lists(r, s)
    decreases |s|
  {
    if s == {} {
      assert Lists([], s);
    } else {
      LeastExists(s);
      var m :| m in s && forall x :: x in s ==> m <= x;
      var rest := s - {m};
      assert |rest| < |s|;
      ListingExists(rest);
      var r :| Lists(r, rest);
      var q := [m] + r;
      forall i, j | 0 <= i < j < |q| ensures q[i] < q[j] {
        assert q[j] == r[j - 1] && r[j - 1] in r;
      }
      assert Lists(q, s);
    }
  }

  /** The elements of `s` in ascending order. */
  ghost function Sorted(s: set<int>): (r: seq<int>)
    ensures Lists(r, s)
  {
    ListingExists(s);
    var r :| Lists(r, s);
    r
  }

  ghost function SortedIds(s: set<Id>): (r: seq<Id>)
    ensures Lists(r, s)
  {
    var r := Sorted(s);
    assert forall i :: 0 <= i < |r| ==> r[i] in r && r[i] in s;
    r
  }

  /** An ascending sequence is determined by its elements. */
  lemma {:induction false} AscendingUnique(a: seq<int>, b: seq<int>)
    requires Ascending(a) && Ascending(b)
    requires forall x :: x in a <==> x in b
    ensures a == b
  {
    if a == [] {
      assert forall i :: 0 <= i < |b| ==> b[i] in b;
    } else {
      assert a[0] in a;
      assert a[0] in b;
      assert b != [] && b[0] in a;
      assert a[0] == b[0];
      forall x ensures x in a[1..] <==> x in b[1..] {
        if x in a[1..] { assert x in a && x != a[0]; assert x in b; }
        if x in b[1..] { assert x in b && x != b[0]; assert x in a; }
      }
      AscendingUnique(a[1..], b[1..]);
      assert a == [a[0]] + a[1..] && b == [b[0]] + b[1..];
    }
  }

  lemma ListingIsSorted(r: seq<int>, s: set<int>)
    requires Ascending(r) && forall x :: x in r <==> x in s
    ensures r == Sorted(s)
  {
    AscendingUnique(r, Sorted(s));
  }

  lemma AscendingSnoc(r: seq<int>, m: int)
    requires Ascending(r) && forall x :: x in r ==> x < m
    ensures Ascending(r + [m])
  {
    assert forall i :: 0 <= i < |r| ==> r[i] in r;
  }

  ghost predicate Prefix(r: seq<int>, rest: set<int>, s: set<int>) {
    && rest <= s
    && Ascending(r)
    && (forall x :: x in r <==> x in s - rest)
    && (forall x, y :: x in r && y in rest ==> x < y)
  }

  lemma PrefixStep(r: seq<int>, rest: set<int>, s: set<int>, m: int)
    requires Prefix(r, rest, s) && m in rest && forall x :: x in rest ==> m <= x
    ensures Prefix(r + [m], rest - {m}, s)
  {
    AscendingSnoc(r, m);
    assert forall x :: x in r + [m] <==> x in r || x == m;
  }

  method LeastOf(s: set<int>) returns (m: int)
    requires s != {}
    ensures m in s && forall x :: x in s ==> m <= x
  {
    LeastExists(s);
    m :| m in s && forall x :: x in s ==> m <= x;
  }

  /** `std::sort` on a vector of distinct keys; also the order in which a `std::set` is
      iterated. */
  method Sort(s: set<int>) returns (r: seq<int>)
    ensures r == Sorted(s)
  {
    r := [];
    var rest := s;
    while rest != {}
      invariant Prefix(r, rest, s)
    {
      var m := LeastOf(rest);
      PrefixStep(r, rest, s, m);
      rest := rest - {m};
      r := r + [m];
    }
    ListingIsSorted(r, s);
  }

  method SortIds(s: set<Id>) returns (r: seq<Id>)
    ensures r == SortedIds(s)
  {
    var sorted := Sort(s);
    assert forall i :: 0 <= i < |sorted| ==> sorted[i] in sorted && sorted[i] in s;
    r := sorted;
  }

  /** The digests of a store in ascending order. */
  ghost function SortedDigests(s: set<Digest>): (r: seq<Digest>)
    ensures Lists(r, s)
  {
    var r := Sorted(s);
    assert forall i :: 0 <= i < |r| ==> r[i] in r && r[i] in s;
    r
  }

  method SortDigests(s: set<Digest>) returns (r: seq<Digest>)
    ensures r == SortedDigests(s)
  {
    var sorted := Sort(s);
    assert forall i :: 0 <= i < |sorted| ==> sorted[i] in sorted && sorted[i] in s;
    r := sorted;
  }
}
