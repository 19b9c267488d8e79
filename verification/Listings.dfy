/** Sequences as listings of finite sets. */
module Listings {
  import opened Digraphs

  function SetOf<T>(s: seq<T>): set<T> { set x | x in s }

  function IndexOf<T(==)>(s: seq<T>, x: T): (i: nat)
    requires x in s
    ensures i < |s| && s[i] == x
  {
    if s[0] == x then 0 else 1 + IndexOf(s[1..], x)
  }

  /** Every member once, in some order. */
  ghost predicate Lists<T(!new)>(order: seq<T>, members: set<T>) {
    Distinct(order) && forall x :: x in order <==> x in members
  }

  /** A set's members in whatever order it yields them. */
  method Listing<T(==, !new)>(members: set<T>) returns (order: seq<T>)
    ensures Lists(order, members)
  {
    order := [];
    var left := members;
    while left != {}
      invariant left <= members && Lists(order, members - left)
      decreases |left|
    {
      var x :| x in left;
      assert x !in order;
      order, left := order + [x], left - {x};
    }
  }

  lemma {:induction false} SomeListing<T(!new)>(members: set<T>) returns (order: seq<T>)
    ensures Lists(order, members)
    decreases |members|
  {
    if members == {} {
      order := [];
    } else {
      var x :| x in members;
      order := SomeListing(members - {x});
      assert x !in order;
      order := order + [x];
    }
  }

  lemma {:induction false} DistinctCount<T>(s: seq<T>, x: T)
    requires Distinct(s)
    ensures multiset(s)[x] == if x in s then 1 else 0
  {
    if s != [] {
      assert s == [s[0]] + s[1..];
      DistinctCount(s[1..], x);
      assert x in s <==> x == s[0] || x in s[1..];
      assert s[0] !in s[1..];
    }
  }

  /** Two listings of one set are permutations of each other. */
  lemma ListingsPermute<T(!new)>(s: seq<T>, t: seq<T>, members: set<T>)
    requires Lists(s, members) && Lists(t, members)
    ensures multiset(s) == multiset(t)
  {
    forall x ensures multiset(s)[x] == multiset(t)[x] {
      DistinctCount(s, x);
      DistinctCount(t, x);
    }
  }
}
