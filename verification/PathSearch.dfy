/** Breadth-first search for a path with the fewest hops. */
module PathSearch {
  import opened Wrappers
  import opened Packets
  import opened Digraphs
  import opened CycleSearch

  function Reversed(s: seq<NodeId>): seq<NodeId> {
    if s == [] then [] else [s[|s| - 1]] + Reversed(s[..|s| - 1])
  }

  /** A repetition-free walk between two nodes that no other walk undercuts. */
  ghost predicate Shortest(links: set<(NodeId, NodeId)>, path: seq<NodeId>, from: NodeId, to: NodeId) {
    && IsWalkBetween(links, path, from, to) && Distinct(path)
    && forall w: seq<NodeId> :: IsWalkBetween(links, w, from, to) ==> |path| <= |w|
  }

  /** Every predecessor is one edge closer to `from`: what makes walking back from a node end. */
  ghost predicate Leads(
    links: set<(NodeId, NodeId)>, predecessor: map<NodeId, NodeId>, from: NodeId, dist: map<NodeId, nat>)
  {
    && from in dist && dist[from] == 0
    && predecessor.Keys == dist.Keys - {from}
    && forall x :: x in predecessor ==>
         predecessor[x] in dist && (predecessor[x], x) in links && dist[x] == dist[predecessor[x]] + 1
  }

  /** Successors of `x` are known, at most one hop further away. */
  ghost predicate Expanded(links: set<(NodeId, NodeId)>, dist: map<NodeId, nat>, x: NodeId) {
    x in dist && forall e :: e in links && e.0 == x ==> e.1 in dist && dist[e.1] <= dist[x] + 1
  }

  lemma {:induction false} WalkDistance(
    links: set<(NodeId, NodeId)>, dist: map<NodeId, nat>, d: nat, w: seq<NodeId>, i: nat)
    requires IsWalk(links, w) && w[0] in dist && dist[w[0]] == 0
    requires forall x :: x in dist && dist[x] < d ==> Expanded(links, dist, x)
    requires i < |w| && i <= d
    ensures w[i] in dist && dist[w[i]] <= i
  {
    if i > 0 {
      WalkDistance(links, dist, d, w, i - 1);
      assert (w[i - 1], w[i - 1 + 1]) in links;
    }
  }

  /** Everything nearer than `d` being expanded, a node not yet seen is more than `d` hops away. */
  lemma UnseenIsFar(links: set<(NodeId, NodeId)>, dist: map<NodeId, nat>, d: nat, from: NodeId, to: NodeId)
    requires from in dist && dist[from] == 0 && to !in dist
    requires forall x :: x in dist && dist[x] < d ==> Expanded(links, dist, x)
    ensures forall w: seq<NodeId> :: IsWalkBetween(links, w, from, to) ==> |w| >= d + 2
  {
    forall w: seq<NodeId> | IsWalkBetween(links, w, from, to) ensures |w| >= d + 2 {
      if |w| - 1 <= d { WalkDistance(links, dist, d, w, |w| - 1); }
    }
  }

  lemma ExpandedIsClosed(links: set<(NodeId, NodeId)>, dist: map<NodeId, nat>, from: NodeId, to: NodeId)
    requires from in dist && to !in dist && forall x :: x in dist ==> Expanded(links, dist, x)
    ensures !Reaches(links, from, to)
  {
    assert Closed(links, dist.Keys);
    if Reaches(links, from, to) { ReachesStaysInClosed(links, dist.Keys, from, to); }
  }

  /** The target has been discovered, no further away than any walk has to go. */
  ghost predicate Found(
    links: set<(NodeId, NodeId)>, predecessor: map<NodeId, NodeId>, from: NodeId, to: NodeId, dist: map<NodeId, nat>)
  {
    && Leads(links, predecessor, from, dist) && to in dist
    && forall w: seq<NodeId> :: IsWalkBetween(links, w, from, to) ==> |w| >= dist[to] + 1
  }

  /** Walk the predecessor map back from `to`. */
  method ReconstructPath(
    predecessor: map<NodeId, NodeId>, from: NodeId, to: NodeId,
    ghost links: set<(NodeId, NodeId)>, ghost dist: map<NodeId, nat>)
    returns (path: seq<NodeId>)
    requires Found(links, predecessor, from, to, dist)
    ensures Shortest(links, path, from, to) && Reaches(links, from, to)
  {
    path := [to];
    var current := to;
    while current != from
      invariant path != [] && current in dist
      invariant IsWalkBetween(links, Reversed(path), current, to)
      invariant |Reversed(path)| == dist[to] - dist[current] + 1
      invariant forall k :: 0 <= k < |Reversed(path)| ==>
                  Reversed(path)[k] in dist && dist[Reversed(path)[k]] == dist[current] + k
      decreases dist[current]
    {
      ghost var w := Reversed(path);
      WalkJoin(links, [predecessor[current], current], w);
      current := predecessor[current];
      path := path + [current];
      assert Reversed(path) == [current] + w;
      assert [current, w[0]] + w[1..] == [current] + w;
    }
    path := Reversed(path);
  }

  /** The queue runs through the nodes level by level. */
  ghost predicate Levelled(queue: seq<NodeId>, dist: map<NodeId, nat>, d: nat) {
    && (forall i :: 0 <= i < |queue| ==> queue[i] in dist && d <= dist[queue[i]] <= d + 1)
    && forall i, j :: 0 <= i < j < |queue| ==> dist[queue[i]] <= dist[queue[j]]
  }

  /**
   The state of the search: every known node that is neither queued nor `busy` has had its edges
   followed, and the target has not been seen.
   */
  ghost predicate Frontier(
    links: set<(NodeId, NodeId)>, predecessor: map<NodeId, NodeId>, from: NodeId, to: NodeId,
    queue: seq<NodeId>, dist: map<NodeId, nat>, d: nat, busy: set<NodeId>)
  {
    && Leads(links, predecessor, from, dist) && Levelled(queue, dist, d) && to !in dist
    && (forall x :: x in dist ==> dist[x] <= d + 1)
    && forall x :: x in dist && x !in queue && x !in busy ==> dist[x] <= d && Expanded(links, dist, x)
  }

  lemma Take(
    links: set<(NodeId, NodeId)>, predecessor: map<NodeId, NodeId>, from: NodeId, to: NodeId,
    queue: seq<NodeId>, dist: map<NodeId, nat>, d: nat)
    requires Frontier(links, predecessor, from, to, queue, dist, d, {}) && queue != []
    ensures queue[0] in dist
    ensures Frontier(links, predecessor, from, to, queue[1..], dist, dist[queue[0]], {queue[0]})
  {
    assert forall x :: x in queue <==> x == queue[0] || x in queue[1..];
  }

  lemma Discover(
    links: set<(NodeId, NodeId)>, predecessor: map<NodeId, NodeId>, from: NodeId, to: NodeId,
    queue: seq<NodeId>, dist: map<NodeId, nat>, d: nat, current: NodeId, next: NodeId)
    requires current in dist && dist[current] == d
    requires Frontier(links, predecessor, from, to, queue, dist, d, {current})
    requires (current, next) in links && next !in dist && next != to
    ensures Frontier(links, predecessor[next := current], from, to, queue + [next],
                     dist[next := d + 1], d, {current})
    ensures current in dist[next := d + 1] && dist[next := d + 1][current] == d
    ensures dist[next := d + 1].Keys == dist.Keys + {next}
  {
    var more := queue + [next];
    var wider := dist[next := d + 1];
    forall x | x in wider && x !in more && x != current ensures wider[x] <= d && Expanded(links, wider, x) {
      assert next in more;
      assert x !in queue && Expanded(links, dist, x);
    }
  }

  lemma Indexed(adjacency: Adjacency, n: NodeId, t: NodeId)
    requires n in adjacency && t in adjacency[n]
    ensures (n, t) in IndexLinks(adjacency)
  {
  }

  // ----- The search, step by step ------------------------------------------

  /** Between two nodes taken from the queue: what is known is what was visited. */
  ghost predicate Searching(
    adjacency: Adjacency, predecessor: map<NodeId, NodeId>, from: NodeId, to: NodeId,
    queue: seq<NodeId>, dist: map<NodeId, nat>, d: nat, visited: set<NodeId>)
  {
    && visited == dist.Keys <= adjacency.Keys
    && Frontier(IndexLinks(adjacency), predecessor, from, to, queue, dist, d, {})
  }

  /** At `current`, with its first `i` neighbors looked at. */
  ghost predicate Visiting(
    adjacency: Adjacency, predecessor: map<NodeId, NodeId>, from: NodeId, to: NodeId,
    queue: seq<NodeId>, dist: map<NodeId, nat>, visited: set<NodeId>, current: NodeId, i: nat)
  {
    && visited == dist.Keys <= adjacency.Keys && current in dist && i <= |adjacency[current]|
    && Frontier(IndexLinks(adjacency), predecessor, from, to, queue, dist, dist[current], {current})
    && forall k :: 0 <= k < i ==> adjacency[current][k] in visited
  }

  lemma Begin(adjacency: Adjacency, from: NodeId, to: NodeId)
    requires from in adjacency && from != to
    ensures Searching(adjacency, map[], from, to, [from], map[from := 0], 0, {from})
  {
  }

  lemma TakeNext(
    adjacency: Adjacency, predecessor: map<NodeId, NodeId>, from: NodeId, to: NodeId,
    queue: seq<NodeId>, dist: map<NodeId, nat>, d: nat, visited: set<NodeId>)
    requires Searching(adjacency, predecessor, from, to, queue, dist, d, visited) && queue != []
    ensures queue[0] in adjacency
    ensures Visiting(adjacency, predecessor, from, to, queue[1..], dist, visited, queue[0], 0)
  {
    Take(IndexLinks(adjacency), predecessor, from, to, queue, dist, d);
  }

  lemma VisitNew(
    adjacency: Adjacency, predecessor: map<NodeId, NodeId>, from: NodeId, to: NodeId,
    queue: seq<NodeId>, dist: map<NodeId, nat>, visited: set<NodeId>, current: NodeId, i: nat)
    requires Visiting(adjacency, predecessor, from, to, queue, dist, visited, current, i)
    requires TargetsIndexed(adjacency) && i < |adjacency[current]|
    requires adjacency[current][i] !in visited && adjacency[current][i] != to
    ensures var next := adjacency[current][i];
            Visiting(adjacency, predecessor[next := current], from, to, queue + [next],
                     dist[next := dist[current] + 1], visited + {next}, current, i + 1)
  {
    var next := adjacency[current][i];
    Indexed(adjacency, current, next);
    Discover(IndexLinks(adjacency), predecessor, from, to, queue, dist, dist[current], current, next);
  }

  lemma Finish(
    adjacency: Adjacency, predecessor: map<NodeId, NodeId>, from: NodeId, to: NodeId,
    queue: seq<NodeId>, dist: map<NodeId, nat>, visited: set<NodeId>, current: NodeId)
    requires current in adjacency
    requires Visiting(adjacency, predecessor, from, to, queue, dist, visited, current, |adjacency[current]|)
    ensures current in dist && Searching(adjacency, predecessor, from, to, queue, dist, dist[current], visited)
  {
    assert Expanded(IndexLinks(adjacency), dist, current);
  }

  lemma Arrive(
    adjacency: Adjacency, predecessor: map<NodeId, NodeId>, from: NodeId, to: NodeId,
    queue: seq<NodeId>, dist: map<NodeId, nat>, visited: set<NodeId>, current: NodeId, i: nat)
    requires Visiting(adjacency, predecessor, from, to, queue, dist, visited, current, i)
    requires i < |adjacency[current]| && adjacency[current][i] == to
    ensures current in dist && to != current
    ensures Found(IndexLinks(adjacency), predecessor[to := current], from, to, dist[to := dist[current] + 1])
  {
    Indexed(adjacency, current, to);
    UnseenIsFar(IndexLinks(adjacency), dist, dist[current], from, to);
  }

  lemma Exhausted(
    adjacency: Adjacency, predecessor: map<NodeId, NodeId>, from: NodeId, to: NodeId,
    dist: map<NodeId, nat>, d: nat, visited: set<NodeId>)
    requires Searching(adjacency, predecessor, from, to, [], dist, d, visited)
    ensures !Reaches(IndexLinks(adjacency), from, to)
  {
    ExpandedIsClosed(IndexLinks(adjacency), dist, from, to);
  }

  /**
   A path with the fewest hops of any walk between the two nodes, without repetition; nothing
   exactly when an endpoint is absent or the target cannot be reached.
   */
  method FindPath(adjacency: Adjacency, from: NodeId, to: NodeId) returns (path: Option<seq<NodeId>>)
    requires TargetsIndexed(adjacency)
    ensures path.Some? ==> Shortest(IndexLinks(adjacency), path.value, from, to)
    ensures path.None? <==>
            from !in adjacency || to !in adjacency || !Reaches(IndexLinks(adjacency), from, to)
  {
    if from !in adjacency || to !in adjacency { return None; }
    if from == to {
      ReachesSelf(IndexLinks(adjacency), from);
      return Some([from]);
    }
    path := Search(adjacency, from, to);
  }

  lemma Fewer(all: set<NodeId>, small: set<NodeId>, large: set<NodeId>)
    requires small < large <= all
    ensures |all - large| < |all - small|
  {
    var x :| x in large && x !in small;
    SubsetSize(all - large, all - small, x);
  }

  /** Something new was visited, or nothing was queued. */
  ghost predicate Advances(
    adjacency: Adjacency, visited0: set<NodeId>, queue0: seq<NodeId>, visited: set<NodeId>, queue: seq<NodeId>)
  {
    |adjacency.Keys - visited| < |adjacency.Keys - visited0| || (visited == visited0 && queue == queue0)
  }

  /**
   Follow the edges of `current`: visit and queue what is new, until the target turns up, or to the
   end.
   */
  method Follow(
    adjacency: Adjacency, from: NodeId, to: NodeId, current: NodeId,
    visited0: set<NodeId>, queue0: seq<NodeId>, predecessor0: map<NodeId, NodeId>, ghost dist0: map<NodeId, nat>)
    returns (found: bool, visited: set<NodeId>, queue: seq<NodeId>, predecessor: map<NodeId, NodeId>,
             ghost dist: map<NodeId, nat>)
    requires TargetsIndexed(adjacency) && current in adjacency
    requires Visiting(adjacency, predecessor0, from, to, queue0, dist0, visited0, current, 0)
    ensures current in dist
    ensures found ==> Found(IndexLinks(adjacency), predecessor, from, to, dist)
    ensures !found ==> Searching(adjacency, predecessor, from, to, queue, dist, dist[current], visited)
    ensures !found ==> Advances(adjacency, visited0, queue0, visited, queue)
  {
    visited, queue, predecessor, dist := visited0, queue0, predecessor0, dist0;
    var neighbors := adjacency[current];
    var i := 0;
    while i < |neighbors|
      invariant Visiting(adjacency, predecessor, from, to, queue, dist, visited, current, i)
      invariant visited0 <= visited && (visited == visited0 ==> queue == queue0)
    {
      var next := neighbors[i];
      if next !in visited {
        if next == to {
          Arrive(adjacency, predecessor, from, to, queue, dist, visited, current, i);
          predecessor, dist, found := predecessor[next := current], dist[next := dist[current] + 1], true;
          return;
        }
        VisitNew(adjacency, predecessor, from, to, queue, dist, visited, current, i);
        dist := dist[next := dist[current] + 1];
        visited, predecessor, queue := visited + {next}, predecessor[next := current], queue + [next];
      }
      i := i + 1;
    }
    Finish(adjacency, predecessor, from, to, queue, dist, visited, current);
    if visited != visited0 { Fewer(adjacency.Keys, visited0, visited); }
    found := false;
  }

  /** The search proper, between two different nodes of the graph. */
  method Search(adjacency: Adjacency, from: NodeId, to: NodeId) returns (path: Option<seq<NodeId>>)
    requires TargetsIndexed(adjacency) && from in adjacency && from != to
    ensures path.Some? ==> Shortest(IndexLinks(adjacency), path.value, from, to)
    ensures path.None? <==> !Reaches(IndexLinks(adjacency), from, to)
  {
    var visited, queue, predecessor := {from}, [from], map[];
    ghost var dist: map<NodeId, nat> := map[from := 0];
    ghost var d := 0;
    Begin(adjacency, from, to);
    while queue != []
      invariant Searching(adjacency, predecessor, from, to, queue, dist, d, visited)
      decreases |adjacency.Keys - visited|, |queue|
    {
      TakeNext(adjacency, predecessor, from, to, queue, dist, d, visited);
      var current := queue[0];
      var found;
      found, visited, queue, predecessor, dist :=
        Follow(adjacency, from, to, current, visited, queue[1..], predecessor, dist);
      if found {
        var shortest := ReconstructPath(predecessor, from, to, IndexLinks(adjacency), dist);
        return Some(shortest);
      }
      d := dist[current];
    }
    Exhausted(adjacency, predecessor, from, to, dist, d, visited);
    path := None;
  }
}
