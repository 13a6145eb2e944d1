/** Python's `sorted(...)` over document ids: of a set (every evaluator's
    final `sorted(list(result))`) and of a list that may repeat values. */
module Sorting {

  /** Strictly increasing, hence free of duplicates. */
  predicate Increasing(s: seq<int>) {
    forall i, j :: 0 <= i < j < |s| ==> s[i] < s[j]
  }

  predicate Ascending(s: seq<int>) {
    forall i, j :: 0 <= i < j < |s| ==> s[i] <= s[j]
  }

  /** No value occurs twice. */
  predicate Distinct(s: seq<int>) {
    forall i, j :: 0 <= i < j < |s| ==> s[i] != s[j]
  }

  function Elements(s: seq<int>): set<int> {
    set x | x in s
  }

  /** A set of ids is empty or has a member to pick. */
  lemma EmptyOrMember(S: set<int>)
    ensures S == {} || exists y :: y in S
  {
    if !exists y :: y in S {
      assert S == {};
    }
  }

  lemma {:induction false} MinExists(S: set<int>)
    requires S != {}
    ensures exists m :: m in S && forall x :: x in S ==> m <= x
    decreases |S|
  {
    EmptyOrMember(S);
    var y :| y in S;
    var R := S - {y};
    if R != {} {
      MinExists(R);
      var m :| m in R && forall x :: x in R ==> m <= x;
      var w := if y < m then y else m;
      assert w in S;
      forall x | x in S ensures w <= x {
        if x != y {
          assert x in R;
        }
      }
    } else {
      forall x | x in S ensures y <= x {
        assert x !in R;
      }
    }
  }

  function Min(S: set<int>): (m: int)
    requires S != {}
    ensures m in S && forall x :: x in S ==> m <= x
  {
    MinExists(S);
    var m :| m in S && forall x :: x in S ==> m <= x;
    m
  }

  /** `sorted(S)` for a set: the increasing sequence of exactly its elements. */
  function SortSet(S: set<int>): (r: seq<int>)
    ensures Increasing(r)
    ensures forall x :: x in r <==> x in S
    ensures |r| == |S|
    decreases |S|
  {
    if S == {} then []
    else
      var m := Min(S);
      [m] + SortSet(S - {m})
  }

  /** Two increasing sequences with the same elements are equal. */
  lemma {:induction false} IncreasingUnique(a: seq<int>, b: seq<int>)
    requires Increasing(a) && Increasing(b)
    requires forall x :: x in a <==> x in b
    ensures a == b
    decreases |a|
  {
    if a == [] {
      assert forall i :: 0 <= i < |b| ==> b[i] in b;
    } else {
      assert a[0] in a;
      assert b != [];
      assert b[0] in b;
      assert a[0] == b[0];
      forall x ensures x in a[1..] <==> x in b[1..] {
        if x in a[1..] {
          var i :| 1 <= i < |a| && a[i] == x;
          assert x != b[0];
          assert x in b;
        }
        if x in b[1..] {
          var i :| 1 <= i < |b| && b[i] == x;
          assert x != a[0];
          assert x in a;
        }
      }
      IncreasingUnique(a[1..], b[1..]);
      assert a == [a[0]] + a[1..] && b == [b[0]] + b[1..];
    }
  }

  /** Sorting the elements of an increasing sequence gives it back. */
  lemma SortSetOfIncreasing(s: seq<int>)
    requires Increasing(s)
    ensures SortSet(Elements(s)) == s
  {
    IncreasingUnique(SortSet(Elements(s)), s);
  }

  function Insert(x: int, s: seq<int>): (r: seq<int>)
    requires Ascending(s)
    ensures Ascending(r)
    ensures multiset(r) == multiset(s) + multiset{x}
  {
    if s == [] then [x]
    else if x <= s[0] then [x] + s
    else
      var t := Insert(x, s[1..]);
      assert s == [s[0]] + s[1..];
      InsertBound(s[0], x, s[1..], t);
      [s[0]] + t
  }

  lemma InsertBound(lo: int, x: int, s: seq<int>, t: seq<int>)
    requires lo <= x && forall y :: y in s ==> lo <= y
    requires multiset(t) == multiset(s) + multiset{x}
    ensures forall i :: 0 <= i < |t| ==> lo <= t[i]
  {
    forall i | 0 <= i < |t| ensures lo <= t[i] {
      assert t[i] in multiset(t);
      if t[i] != x {
        assert t[i] in multiset(s);
        assert t[i] in s;
      }
    }
  }

  /** `sorted(xs)` for a list: ascending, and a permutation of `xs`. */
  function SortList(xs: seq<int>): (r: seq<int>)
    ensures Ascending(r)
    ensures multiset(r) == multiset(xs)
  {
    if xs == [] then []
    else
      assert xs == [xs[0]] + xs[1..];
      Insert(xs[0], SortList(xs[1..]))
  }

  lemma {:induction false} TwiceInMultiset(s: seq<int>, i: nat, j: nat)
    requires i < j < |s| && s[i] == s[j]
    ensures multiset(s)[s[i]] >= 2
  {
    assert s == s[..j] + [s[j]] + s[j + 1..];
    assert s[i] in s[..j];
    assert multiset(s[..j])[s[i]] >= 1;
  }

  lemma {:induction false} DistinctCount(s: seq<int>, x: int)
    requires Distinct(s)
    ensures multiset(s)[x] <= 1
    decreases |s|
  {
    if s != [] {
      assert s == [s[0]] + s[1..];
      assert Distinct(s[1..]);
      DistinctCount(s[1..], x);
      if x == s[0] {
        assert x !in s[1..];
      }
    }
  }

  /** A list without duplicates sorts to the sorted set of its elements. */
  lemma SortListOfDistinct(xs: seq<int>)
    requires Distinct(xs)
    ensures SortList(xs) == SortSet(Elements(xs))
  {
    var r := SortList(xs);
    forall i, j | 0 <= i < j < |r| ensures r[i] < r[j] {
      if r[i] == r[j] {
        TwiceInMultiset(r, i, j);
        DistinctCount(xs, r[i]);
      }
    }
    forall x ensures x in r <==> x in Elements(xs) {
      assert x in r <==> x in multiset(r);
      assert x in xs <==> x in multiset(xs);
    }
    IncreasingUnique(r, SortSet(Elements(xs)));
  }

  /** Sorting an increasing list leaves it unchanged. */
  lemma {:induction false} SortListOfIncreasing(xs: seq<int>)
    requires Increasing(xs)
    ensures SortList(xs) == xs
  {
    if xs != [] {
      SortListOfIncreasing(xs[1..]);
      assert xs == [xs[0]] + xs[1..];
    }
  }
}
