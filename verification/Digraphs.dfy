/**
 Finite directed graphs as sets of pairs: walks, reachability, acyclicity, and
 the facts about them that the graph store, the executor and the package loader
 share.
 */
module Digraphs {

  /** `w` follows edges of `E` from its first element to its last. */
  ghost predicate IsWalk<T>(E: set<(T, T)>, w: seq<T>) {
    |w| > 0 && forall i :: 0 <= i < |w| - 1 ==> (w[i], w[i + 1]) in E
  }

  ghost predicate IsWalkBetween<T>(E: set<(T, T)>, w: seq<T>, x: T, y: T) {
    IsWalk(E, w) && w[0] == x && w[|w| - 1] == y
  }

  ghost predicate Reaches<T(!new)>(E: set<(T, T)>, x: T, y: T) {
    exists w: seq<T> :: IsWalkBetween(E, w, x, y)
  }

  /** No edge can be completed to a cycle. `CycleFree` relates this to closed walks. */
  ghost predicate Acyclic<T(!new)>(E: set<(T, T)>) {
    forall x, y :: (x, y) in E ==> !Reaches(E, y, x)
  }

  /** A closed walk: at least one edge, first element repeated at the end. */
  ghost predicate IsCycle<T>(E: set<(T, T)>, w: seq<T>) {
    |w| >= 2 && IsWalk(E, w) && w[0] == w[|w| - 1]
  }

  ghost predicate Distinct<T>(s: seq<T>) {
    forall i, j :: 0 <= i < j < |s| ==> s[i] != s[j]
  }

  /** Every edge that leaves `S` stays in `S`. */
  ghost predicate Closed<T>(E: set<(T, T)>, S: set<T>) {
    forall e :: e in E && e.0 in S ==> e.1 in S
  }

  /** Every element of `order` comes after all of its successors. */
  ghost predicate SuccessorsFirst<T>(E: set<(T, T)>, order: seq<T>) {
    forall i, e :: 0 <= i < |order| && e in E && e.0 == order[i] ==> e.1 in order[..i]
  }

  lemma WalkJoin<T(!new)>(E: set<(T, T)>, v: seq<T>, w: seq<T>)
    requires IsWalk(E, v) && IsWalk(E, w) && v[|v| - 1] == w[0]
    ensures IsWalkBetween(E, v + w[1..], v[0], w[|w| - 1])
  {
    var u := v + w[1..];
    forall i | 0 <= i < |u| - 1 ensures (u[i], u[i + 1]) in E {
      if i >= |v| - 1 {
        var k := i - (|v| - 1);
        assert u[i] == w[k] && u[i + 1] == w[k + 1];
      }
    }
  }

  lemma WalkSlice<T(!new)>(E: set<(T, T)>, w: seq<T>, i: nat, j: nat)
    requires IsWalk(E, w) && i < j <= |w|
    ensures IsWalkBetween(E, w[i..j], w[i], w[j - 1])
  {
    var u := w[i..j];
    forall k | 0 <= k < |u| - 1 ensures (u[k], u[k + 1]) in E {
      assert u[k] == w[i + k] && u[k + 1] == w[i + k + 1];
    }
  }

  lemma ReachesSelf<T(!new)>(E: set<(T, T)>, x: T)
    ensures Reaches(E, x, x)
  {
    assert IsWalkBetween(E, [x], x, x);
  }

  lemma ReachesEdge<T(!new)>(E: set<(T, T)>, x: T, y: T)
    requires (x, y) in E
    ensures Reaches(E, x, y)
  {
    assert IsWalkBetween(E, [x, y], x, y);
  }

  lemma ReachesTrans<T(!new)>(E: set<(T, T)>, x: T, y: T, z: T)
    requires Reaches(E, x, y) && Reaches(E, y, z)
    ensures Reaches(E, x, z)
  {
    var v: seq<T> :| IsWalkBetween(E, v, x, y);
    var w: seq<T> :| IsWalkBetween(E, w, y, z);
    WalkJoin(E, v, w);
  }

  lemma ReachesMono<T(!new)>(E: set<(T, T)>, F: set<(T, T)>, x: T, y: T)
    requires E <= F && Reaches(E, x, y)
    ensures Reaches(F, x, y)
  {
    var w: seq<T> :| IsWalkBetween(E, w, x, y);
    assert IsWalkBetween(F, w, x, y);
  }

  /** A walk that goes somewhere has a last edge. */
  lemma ReachesLast<T(!new)>(E: set<(T, T)>, x: T, z: T) returns (y: T)
    requires Reaches(E, x, z) && x != z
    ensures Reaches(E, x, y) && (y, z) in E
  {
    var w: seq<T> :| IsWalkBetween(E, w, x, z);
    y := w[|w| - 2];
    assert (w[|w| - 2], w[|w| - 2 + 1]) in E;
    WalkSlice(E, w, 0, |w| - 1);
  }

  /** A walk that goes somewhere has a first edge. */
  lemma ReachesFirst<T(!new)>(E: set<(T, T)>, x: T, z: T) returns (y: T)
    requires Reaches(E, x, z) && x != z
    ensures (x, y) in E && Reaches(E, y, z)
  {
    var w: seq<T> :| IsWalkBetween(E, w, x, z);
    y := w[1];
    assert (w[0], w[0 + 1]) in E;
    WalkSlice(E, w, 1, |w|);
  }

  lemma {:induction false} WalkStaysInClosed<T(!new)>(E: set<(T, T)>, S: set<T>, w: seq<T>, i: nat)
    requires Closed(E, S) && IsWalk(E, w) && w[0] in S && i < |w|
    ensures w[i] in S
  {
    if i > 0 {
      WalkStaysInClosed(E, S, w, i - 1);
      assert (w[i - 1], w[i - 1 + 1]) in E;
    }
  }

  lemma ReachesStaysInClosed<T(!new)>(E: set<(T, T)>, S: set<T>, x: T, y: T)
    requires Closed(E, S) && x in S && Reaches(E, x, y)
    ensures y in S
  {
    var w: seq<T> :| IsWalkBetween(E, w, x, y);
    WalkStaysInClosed(E, S, w, |w| - 1);
  }

  /** `Acyclic` says exactly that there is no closed walk. */
  lemma CycleFree<T(!new)>(E: set<(T, T)>)
    ensures Acyclic(E) <==> forall w: seq<T> :: !IsCycle(E, w)
  {
    if w: seq<T> :| IsCycle(E, w) {
      assert (w[0], w[0 + 1]) in E;
      WalkSlice(E, w, 1, |w|);
      assert Reaches(E, w[1], w[0]);
    }
    if x, y :| (x, y) in E && Reaches(E, y, x) {
      var w: seq<T> :| IsWalkBetween(E, w, y, x);
      WalkJoin(E, [x, y], w);
      assert IsCycle(E, [x, y] + w[1..]);
    }
  }

  lemma AcyclicMono<T(!new)>(E: set<(T, T)>, F: set<(T, T)>)
    requires E <= F && Acyclic(F)
    ensures Acyclic(E)
  {
    forall x, y | (x, y) in E ensures !Reaches(E, y, x) {
      if Reaches(E, y, x) { ReachesMono(E, F, y, x); }
    }
  }

  /** In an acyclic graph a walk never returns to a node. */
  lemma AcyclicWalkDistinct<T(!new)>(E: set<(T, T)>, w: seq<T>)
    requires Acyclic(E) && IsWalk(E, w)
    ensures Distinct(w)
  {
    forall i, j | 0 <= i < j < |w| ensures w[i] != w[j] {
      assert (w[i], w[i + 1]) in E;
      WalkSlice(E, w, i + 1, j + 1);
      assert Reaches(E, w[i + 1], w[j]);
    }
  }

  lemma {:induction false} DistinctBound<T(!new)>(s: seq<T>, V: set<T>)
    requires Distinct(s) && forall x :: x in s ==> x in V
    ensures |s| <= |V|
  {
    if s != [] {
      var last := s[|s| - 1];
      DistinctBound(s[..|s| - 1], V - {last});
    }
  }

  /** `x` and everything it reaches. */
  ghost function Downstream<T(!new)>(E: set<(T, T)>, x: T): set<T> {
    {x} + set e | e in E && Reaches(E, x, e.1) :: e.1
  }

  /** Along an edge of an acyclic graph strictly less remains downstream. */
  lemma DownstreamShrinks<T(!new)>(E: set<(T, T)>, x: T, y: T)
    requires Acyclic(E) && (x, y) in E
    ensures |Downstream(E, y)| < |Downstream(E, x)|
  {
    ReachesEdge(E, x, y);
    forall z | z in Downstream(E, y) ensures z in Downstream(E, x) {
      if z == y {
        assert (x, y).1 == z;
      } else {
        ReachesTrans(E, x, y, z);
      }
    }
    ReachesSelf(E, x);
    assert x !in Downstream(E, y);
    SubsetSize(Downstream(E, y), Downstream(E, x), x);
  }

  lemma SubsetSize<T(!new)>(A: set<T>, B: set<T>, x: T)
    requires A <= B && x in B && x !in A
    ensures |A| < |B|
  {
    var rest := B - A - {x};
    assert B == A + {x} + rest;
    assert |A + {x}| == |A| + 1;
    assert |B| == |A + {x}| + |rest|;
  }

  /** An element may join the order once all its successors are there. */
  lemma SuccessorsFirstSnoc<T>(E: set<(T, T)>, order: seq<T>, x: T)
    requires SuccessorsFirst(E, order) && forall e :: e in E && e.0 == x ==> e.1 in order
    ensures SuccessorsFirst(E, order + [x])
  {
    var longer := order + [x];
    forall i, e | 0 <= i < |longer| && e in E && e.0 == longer[i] ensures e.1 in longer[..i] {
      if i < |order| {
        assert e.1 in order[..i] && longer[..i] == order[..i];
      } else {
        assert longer[..i] == order;
      }
    }
  }

  /** An order that lists successors first certifies that no cycle meets it. */
  lemma OrderedAcyclic<T(!new)>(E: set<(T, T)>, order: seq<T>)
    requires SuccessorsFirst(E, order) && Distinct(order)
    requires forall e :: e in E ==> e.0 in order
    ensures Acyclic(E)
  {
    forall x, y | (x, y) in E ensures !Reaches(E, y, x) {
      var i :| 0 <= i < |order| && order[i] == x;
      assert (x, y).0 == order[i];
      var S := set z | z in order[..i];
      assert Closed(E, S) by {
        forall e | e in E && e.0 in S ensures e.1 in S {
          var k :| 0 <= k < i && order[k] == e.0;
          assert e.1 in order[..k];
          assert order[..k] <= order[..i];
        }
      }
      if Reaches(E, y, x) { ReachesStaysInClosed(E, S, y, x); }
    }
  }

  /** If every edge of `F` can be walked in `E`, so can every walk of `F`. */
  lemma {:induction false} SimulatedWalk<T(!new)>(F: set<(T, T)>, E: set<(T, T)>, w: seq<T>)
    requires IsWalk(F, w)
    requires forall e :: e in F ==> Reaches(E, e.0, e.1)
    ensures Reaches(E, w[0], w[|w| - 1])
  {
    if |w| == 1 {
      ReachesSelf(E, w[0]);
    } else {
      WalkSlice(F, w, 1, |w|);
      SimulatedWalk(F, E, w[1..]);
      assert (w[0], w[0 + 1]) in F;
      ReachesTrans(E, w[0], w[1], w[|w| - 1]);
    }
  }

  /** A map of nodes under which every edge of `F` becomes an edge of `E` or stays put. */
  ghost predicate Contracts<T>(F: set<(T, T)>, E: set<(T, T)>, h: T -> T) {
    forall e :: e in F ==> h(e.0) == h(e.1) || (h(e.0), h(e.1)) in E
  }

  lemma {:induction false} ContractedWalk<T(!new)>(F: set<(T, T)>, E: set<(T, T)>, h: T -> T, w: seq<T>)
    requires IsWalk(F, w) && Contracts(F, E, h)
    ensures Reaches(E, h(w[0]), h(w[|w| - 1]))
  {
    if |w| == 1 {
      ReachesSelf(E, h(w[0]));
    } else {
      WalkSlice(F, w, 1, |w|);
      ContractedWalk(F, E, h, w[1..]);
      assert (w[0], w[0 + 1]) in F;
      if h(w[0]) != h(w[1]) {
        ReachesEdge(E, h(w[0]), h(w[1]));
        ReachesTrans(E, h(w[0]), h(w[1]), h(w[|w| - 1]));
      }
    }
  }

  lemma ContractedReaches<T(!new)>(F: set<(T, T)>, E: set<(T, T)>, h: T -> T, x: T, y: T)
    requires Contracts(F, E, h) && Reaches(F, x, y)
    ensures Reaches(E, h(x), h(y))
  {
    var w: seq<T> :| IsWalkBetween(F, w, x, y);
    ContractedWalk(F, E, h, w);
  }

  // ----- Walks that cross a set of marked edges ---------------------------

  /** How many steps of a walk follow an edge of `A`. */
  function Crossings<T(==)>(A: set<(T, T)>, w: seq<T>): nat {
    if |w| < 2 then 0
    else (if (w[0], w[1]) in A then 1 else 0) + Crossings(A, w[1..])
  }

  /** The first step that follows an edge of `A`, or the last position. */
  function FirstCrossing<T(==)>(A: set<(T, T)>, w: seq<T>): (k: nat)
    requires w != []
    ensures k < |w|
    ensures k < |w| - 1 ==> (w[k], w[k + 1]) in A
    ensures forall i :: 0 <= i < k ==> (w[i], w[i + 1]) !in A
  {
    if |w| == 1 || (w[0], w[1]) in A then 0 else 1 + FirstCrossing(A, w[1..])
  }

  lemma {:induction false} CrossingsAfterFirst<T(!new)>(A: set<(T, T)>, w: seq<T>)
    requires w != []
    ensures var k := FirstCrossing(A, w);
            Crossings(A, w) == if k < |w| - 1 then 1 + Crossings(A, w[k + 1..]) else 0
  {
    if |w| > 1 && (w[0], w[1]) !in A {
      CrossingsAfterFirst(A, w[1..]);
      assert w[1..][FirstCrossing(A, w[1..]) + 1..] == w[FirstCrossing(A, w) + 1..];
    }
  }

  /**
   If cycles are possible only through marked edges, a walk that crosses `k` of them visits at most
   `(k + 1) * |V|` nodes.
   */
  lemma {:induction false} WalkBound<T(!new)>(E: set<(T, T)>, A: set<(T, T)>, w: seq<T>, V: set<T>)
    requires Acyclic(E - A) && IsWalk(E, w) && forall i :: 0 <= i < |w| ==> w[i] in V
    ensures |w| <= (Crossings(A, w) + 1) * |V|
    decreases |w|
  {
    var k := FirstCrossing(A, w);
    WalkSlice(E, w, 0, k + 1);
    var head := w[0..k + 1];
    assert IsWalk(E - A, head);
    AcyclicWalkDistinct(E - A, head);
    DistinctBound(head, V);
    CrossingsAfterFirst(A, w);
    if k < |w| - 1 {
      WalkSlice(E, w, k + 1, |w|);
      var rest := w[k + 1..];
      WalkBound(E, A, rest, V);
      assert (Crossings(A, rest) + 1 + 1) * |V| == (Crossings(A, rest) + 1) * |V| + |V|;
    }
  }
}
