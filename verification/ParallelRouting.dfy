/**
 Which edges a concurrent branch follows, said without the functions that choose them: it forks exactly
 when some parallel edge takes the packet, along all those edges and no others.
 */
module ParallelRouting {
  import opened Wrappers
  import opened Packets
  import opened Modules
  import opened Digraphs
  import opened Graphs
  import opened Walks
  import opened ParallelExecution
  import opened ParallelOutcome

  /** A parallel edge out of `n` that accepts `p`. */
  predicate Fans(e: Edge, n: NodeId, p: Packet) { e.from == n && e.edgeType == Parallel && e.Accepts(p) }

  /** `at` lists the positions of those edges, in the order of the list, each once. */
  ghost predicate Picks(edges: seq<Edge>, n: NodeId, p: Packet, at: seq<nat>) {
    && (forall i, j :: 0 <= i < j < |at| ==> at[i] < at[j])
    && (forall i :: 0 <= i < |at| ==> at[i] < |edges| && Fans(edges[at[i]], n, p))
    && (forall k :: 0 <= k < |edges| && Fans(edges[k], n, p) ==> k in at)
  }

  /** Where the edges at some positions lead. */
  function Ends(edges: seq<Edge>, at: seq<nat>): seq<NodeId>
    requires forall i :: 0 <= i < |at| ==> at[i] < |edges|
  {
    seq(|at|, i requires 0 <= i < |at| => edges[at[i]].to)
  }

  lemma {:induction false} AcceptingSnoc(edges: seq<Edge>, e: Edge, n: NodeId, p: Packet)
    ensures Accepting(edges + [e], n, p) == Accepting(edges, n, p) + if Leaves(e, n, p) then [e] else []
  {
    var longer := edges + [e];
    if edges == [] {
      assert longer[1..] == [];
    } else {
      assert longer[0] == edges[0] && longer[1..] == edges[1..] + [e];
      AcceptingSnoc(edges[1..], e, n, p);
    }
  }

  lemma {:induction false} TargetsSnoc(edges: seq<Edge>, e: Edge)
    ensures ParallelTargets(edges + [e]) == ParallelTargets(edges) + if e.edgeType.Parallel? then [e.to] else []
  {
    var longer := edges + [e];
    if edges == [] {
      assert longer[1..] == [];
    } else {
      assert longer[0] == edges[0] && longer[1..] == edges[1..] + [e];
      TargetsSnoc(edges[1..], e);
    }
  }

  lemma TargetsOfMore(edges: seq<Edge>, e: Edge, n: NodeId, p: Packet)
    ensures ParallelTargets(Accepting(edges + [e], n, p)) ==
            ParallelTargets(Accepting(edges, n, p)) + if Fans(e, n, p) then [e.to] else []
  {
    var before := Accepting(edges, n, p);
    AcceptingSnoc(edges, e, n, p);
    if Leaves(e, n, p) { TargetsSnoc(before, e); } else { assert before + [] == before; }
  }

  lemma PicksMore(edges: seq<Edge>, e: Edge, n: NodeId, p: Packet, at: seq<nat>)
    requires Picks(edges, n, p, at)
    ensures var more := at + if Fans(e, n, p) then [|edges|] else [];
            && Picks(edges + [e], n, p, more)
            && Ends(edges + [e], more) == Ends(edges, at) + if Fans(e, n, p) then [e.to] else []
  {
    var longer, more := edges + [e], at + if Fans(e, n, p) then [|edges|] else [];
    forall k | 0 <= k < |longer| && Fans(longer[k], n, p) ensures k in more {
      if k < |edges| { assert k in at; } else { assert more[|at|] == |edges|; }
    }
  }

  /** The chosen targets are the ends of the fanning edges. */
  lemma {:induction false} TargetsAreEnds(edges: seq<Edge>, n: NodeId, p: Packet) returns (at: seq<nat>)
    ensures Picks(edges, n, p, at) && ParallelTargets(Accepting(edges, n, p)) == Ends(edges, at)
  {
    at := [];
    if edges != [] {
      var last := |edges| - 1;
      at := TargetsAreEnds(edges[..last], n, p);
      assert edges == edges[..last] + [edges[last]];
      TargetsOfMore(edges[..last], edges[last], n, p);
      PicksMore(edges[..last], edges[last], n, p, at);
      at := at + if Fans(edges[last], n, p) then [last] else [];
    }
  }

  /**
   Away from an exit, a packet that is forwarded forks exactly when some parallel edge takes it. The
   branches go to the ends of exactly those edges, in order and with multiplicity, whatever other
   edges would take it too.
   */
  lemma ForksAlongParallelEdges(net: Net, n: NodeId, p: Packet) returns (at: seq<nat>)
    requires n !in net.exits
    ensures Picks(net.edges, n, p, at)
    ensures var r := Route(net, n, Forward(p));
            && (r.Forks? <==> exists k :: 0 <= k < |net.edges| && Fans(net.edges[k], n, p))
            && (r.Forks? ==> r == Forks(Ends(net.edges, at), p))
  {
    at := TargetsAreEnds(net.edges, n, p);
    if at != [] { assert Fans(net.edges[at[0]], n, p); }
  }

  /**
   Everything else goes as in the sequential executor: an exit delivers, otherwise the first edge in
   the list that takes the packet leads on, and a node with none is a dead end.
   */
  lemma RoutesWithoutFork(net: Net, n: NodeId, outcome: Outcome)
    ensures var r := Route(net, n, outcome);
            match outcome
            case Fail(e) => r == Routing.Ends(Err(InModule(e)))
            case Absorb => r == Routing.Ends(Ok([]))
            case Forward(p) =>
              && (n in net.exits ==> r == Routing.Ends(Ok([p])))
              && (n !in net.exits && NoneLeaves(net.edges, n, p) ==>
                    r == Routing.Ends(Err(InGraph(BuildFailed(DeadEnd(n))))))
              && (n !in net.exits && (forall k :: 0 <= k < |net.edges| ==> !Fans(net.edges[k], n, p))
                  && !NoneLeaves(net.edges, n, p) ==>
                    exists k: nat :: FirstLeaving(net.edges, n, p, k) && r == Goes(net.edges[k].to, p))
  {
    if outcome.Forward? {
      var p := outcome.packet;
      var k := AcceptingFirst(net.edges, n, p);
      var at := TargetsAreEnds(net.edges, n, p);
      if at != [] { assert Fans(net.edges[at[0]], n, p) && Leaves(net.edges[at[0]], n, p); }
    }
  }

  // ----- In the unfolding -------------------------------------------------

  ghost function ArrivalsAt(net: Net, edges: seq<Edge>, at: seq<nat>, p: Packet): seq<multiset<Event>>
    requires Acyclic(net.Links()) && forall i :: 0 <= i < |at| ==> at[i] < |edges|
  {
    seq(|at|, i requires 0 <= i < |at| => Arrival(net, edges[at[i]].to, p))
  }

  lemma {:induction false} ArrivalsAreSum(net: Net, from: NodeId, targets: seq<NodeId>, p: Packet)
    requires Acyclic(net.Links()) && forall t :: t in targets ==> (from, t) in net.Links()
    ensures Arrivals(net, from, targets, p) ==
            Total(seq(|targets|, i requires 0 <= i < |targets| => Arrival(net, targets[i], p)))
    decreases |targets|
  {
    if targets != [] {
      var s := seq(|targets|, i requires 0 <= i < |targets| => Arrival(net, targets[i], p));
      var rest := targets[1..];
      ArrivalsAreSum(net, from, rest, p);
      assert s[1..] == seq(|rest|, i requires 0 <= i < |rest| => Arrival(net, rest[i], p));
    }
  }

  /**
   What a packet yields that a node forwards: where some parallel edge takes it, the sum of what it
   yields at the end of each such edge; otherwise what it yields at the end of the first edge that does.
   */
  lemma ForkYieldsSum(net: Net, n: NodeId, q: Packet, p: Packet) returns (at: seq<nat>)
    requires Acyclic(net.Links()) && n in net.modules && n !in net.exits
    requires net.modules[n].Process([], q) == Forward(p)
    ensures Picks(net.edges, n, p, at)
    ensures at != [] ==> Processed(net, n, q) == Total(ArrivalsAt(net, net.edges, at, p))
    ensures at == [] && NoneLeaves(net.edges, n, p) ==>
              Processed(net, n, q) == multiset{Lost(InGraph(BuildFailed(DeadEnd(n))))}
    ensures at == [] && !NoneLeaves(net.edges, n, p) ==>
              exists k: nat :: FirstLeaving(net.edges, n, p, k)
                               && Processed(net, n, q) == Arrival(net, net.edges[k].to, p)
  {
    at := ForksAlongParallelEdges(net, n, p);
    RoutesWithoutFork(net, n, Forward(p));
    var r := Route(net, n, Forward(p));
    ProcessedIs(net, n, q, r);
    if at != [] {
      assert Fans(net.edges[at[0]], n, p);
      ArrivalsAreSum(net, n, r.targets, p);
      assert ArrivalsAt(net, net.edges, at, p) ==
             seq(|r.targets|, i requires 0 <= i < |r.targets| => Arrival(net, r.targets[i], p));
    } else {
      assert forall k :: 0 <= k < |net.edges| && Fans(net.edges[k], n, p) ==> k in at;
    }
  }
}
