/**
 Where packets go after live rewiring. The edge an insertion cuts keeps its type and condition; the
 edges that bridge a removed node have neither, and come after all others.
 */
module RewiredRouting {
  import opened Wrappers
  import opened Packets
  import opened Modules
  import opened Digraphs
  import opened Graphs
  import opened Walks
  import opened Rewiring
  import opened ParallelExecution

  /** The network executes the graph. */
  predicate Runs(net: Net, g: Graph) {
    net.edges == g.edges && net.entries == g.entries && net.exits == g.exits && net.modules.Keys == g.nodes
  }

  function DeadEndAt(n: NodeId): ExecutionError { InGraph(BuildFailed(DeadEnd(n))) }

  lemma {:induction false} AcceptingAppend(s: seq<Edge>, t: seq<Edge>, x: NodeId, p: Packet)
    ensures Accepting(s + t, x, p) == Accepting(s, x, p) + Accepting(t, x, p)
  {
    if s == [] {
      assert s + t == t;
    } else {
      AcceptingAppend(s[1..], t, x, p);
      assert (s + t)[0] == s[0] && (s + t)[1..] == s[1..] + t;
    }
  }

  lemma {:induction false} AcceptingNone(edges: seq<Edge>, x: NodeId, p: Packet)
    requires forall e :: e in edges ==> !Leaves(e, x, p)
    ensures Accepting(edges, x, p) == []
  {
    if edges != [] {
      assert edges[0] in edges;
      AcceptingNone(edges[1..], x, p);
    }
  }

  lemma AcceptingOne(e: Edge, x: NodeId, p: Packet)
    ensures Accepting([e], x, p) == if Leaves(e, x, p) then [e] else []
  {
    assert [e][1..] == [];
  }

  lemma ParallelOne(e: Edge)
    ensures ParallelTargets([e]) == if e.edgeType.Parallel? then [e.to] else []
  {
    assert [e][1..] == [];
  }

  // ----- Inserting --------------------------------------------------------

  /** A fresh node goes after one with at most one outgoing edge. */
  ghost predicate Splices(g: Graph, a: NodeId, n: NodeId) {
    g.WellFormed() && a in g.nodes && n !in g.nodes && n !in g.exits && |Targets(g.edges, a)| <= 1
  }

  /** The edge to be cut, and the edge list around it. */
  lemma CutAt(g: Graph, a: NodeId, n: NodeId, x: NodeId, p: Packet) returns (i: nat)
    requires Splices(g, a, n) && Targets(g.edges, a) != []
    ensures i == PositionFrom(g.edges, a) < |g.edges| && Targets(g.edges, a) == [g.edges[i].to]
    ensures g.edges[i].to != n && Accepting(RemoveAt(g.edges, i), n, p) == []
    ensures Accepting(RemoveAt(g.edges, i), a, p) == []
    ensures Accepting(g.edges, x, p) ==
            if x != a then Accepting(RemoveAt(g.edges, i), x, p)
            else if g.edges[i].Accepts(p) then [g.edges[i]] else []
  {
    SingleOutgoing(g.edges, a);
    i := PositionFrom(g.edges, a);
    var cut, before, after := g.edges[i], g.edges[..i], g.edges[i + 1..];
    assert cut in g.edges;
    assert g.edges == before + [cut] + after && RemoveAt(g.edges, i) == before + after;
    AcceptingAppend(before, [cut] + after, x, p);
    AcceptingAppend([cut], after, x, p);
    AcceptingOne(cut, x, p);
    AcceptingAppend(before, after, x, p);
    assert before + [cut] + after == before + ([cut] + after);
    AcceptingNone(RemoveAt(g.edges, i), a, p);
    forall e | e in RemoveAt(g.edges, i) ensures e.from != n { RemoveAtIn(g.edges, i, e); }
    AcceptingNone(RemoveAt(g.edges, i), n, p);
  }

  /**
   Splitting the only edge out of `a`: the same packets leave `a`, over an edge of the same type, and
   all of them leave `n` for where that edge led. All other nodes are as before.
   */
  lemma InsertSplitsEdge(g: Graph, a: NodeId, n: NodeId, kind: NodeType, x: NodeId, p: Packet)
    requires Splices(g, a, n) && Targets(g.edges, a) != []
    ensures var edges', t := g.InsertAfter(a, n, kind).0.edges, Targets(g.edges, a)[0];
            && t != n
            && (x == n ==> Accepting(edges', n, p) == [Plain(n, t)])
            && (x != n && x != a ==> Accepting(edges', x, p) == Accepting(g.edges, x, p))
            && (x == a ==>
                  var now, was := Accepting(edges', a, p), Accepting(g.edges, a, p);
                  |now| == |was| <= 1 && (was != [] ==> was[0].to == t && now == [was[0].(to := n)]))
  {
    var i := CutAt(g, a, n, x, p);
    var cut := g.edges[i];
    var left, right := Edge(a, n, cut.edgeType, cut.condition), Plain(n, cut.to);
    var kept := RemoveAt(g.edges, i);
    assert g.InsertAfter(a, n, kind).0.edges == kept + [left, right];
    AcceptingAppend(kept, [left, right], x, p);
    assert [left, right] == [left] + [right];
    AcceptingAppend([left], [right], x, p);
    AcceptingOne(left, x, p);
    AcceptingOne(right, x, p);
  }

  /**
   Inserting into an edge, in both executors: what left `a` goes to `n` instead and on from there,
   what was refused there still is, and `a` forks exactly when it did.
   */
  lemma InsertKeepsRouting(net: Net, net': Net, g: Graph, a: NodeId, n: NodeId, kind: NodeType, x: NodeId, p: Packet)
    requires Splices(g, a, n) && Targets(g.edges, a) != [] && !kind.Sink?
    requires Runs(net, g) && Runs(net', g.InsertAfter(a, n, kind).0)
    ensures var t, r, r' := Targets(g.edges, a)[0], Route(net, x, Forward(p)), Route(net', x, Forward(p));
            && (x == n ==> r' == Goes(t, p))
            && (x == a ==>
                  && (r.Ends? ==> r' == r)
                  && (r.Goes? ==> r == Goes(t, p) && r' == Goes(n, p))
                  && (r.Forks? ==> r == Forks([t], p) && r' == Forks([n], p)))
            && (x != a && x != n ==> r' == r)
    ensures var t, d, d' := Targets(g.edges, a)[0], Decide(net, x, Forward(p)), Decide(net', x, Forward(p));
            && (x == n ==> d' == Continue(t, p))
            && (x == a ==> if d.Continue? then d == Continue(t, p) && d' == Continue(n, p) else d' == d)
            && (x != a && x != n ==> d' == d)
  {
    InsertSplitsEdge(g, a, n, kind, x, p);
    var now, was := Accepting(net'.edges, x, p), Accepting(net.edges, x, p);
    if x == n || x == a {
      if was != [] && x == a {
        assert was == [was[0]];
        ParallelOne(was[0]);
      }
      if now != [] {
        assert now == [now[0]];
        ParallelOne(now[0]);
      }
    }
  }

  /** An inserted sink keeps what it is handed. */
  lemma InsertedSinkDelivers(net': Net, g: Graph, a: NodeId, n: NodeId, p: Packet)
    requires Splices(g, a, n) && Runs(net', g.InsertAfter(a, n, Sink).0)
    ensures Decide(net', n, Forward(p)) == Stop(Exited(p)) && Route(net', n, Forward(p)) == Ends(Ok([p]))
  {
    SingleOutgoing(g.edges, a);
  }

  /**
   Appending after a node without outgoing edges: every packet it passes on goes to `n`, unless the
   node is an exit, and ends there.
   */
  lemma InsertAppends(net: Net, net': Net, g: Graph, a: NodeId, n: NodeId, kind: NodeType, x: NodeId, p: Packet)
    requires Splices(g, a, n) && Targets(g.edges, a) == [] && !kind.Sink?
    requires Runs(net, g) && Runs(net', g.InsertAfter(a, n, kind).0)
    ensures var d, d' := Decide(net, x, Forward(p)), Decide(net', x, Forward(p));
            && (x == n ==> d' == Stop(Failed(DeadEndAt(n))))
            && (x == a && a in g.exits ==> d == d' == Stop(Exited(p)))
            && (x == a && a !in g.exits ==> d == Stop(Failed(DeadEndAt(a))) && d' == Continue(n, p))
            && (x != a && x != n ==> d' == d)
  {
    SingleOutgoing(g.edges, a);
    var added := [Plain(a, n)];
    assert net'.edges == g.edges + added;
    AcceptingAppend(g.edges, added, x, p);
    AcceptingOne(Plain(a, n), x, p);
    forall e | e in g.edges ensures e.from != a && e.from != n { TargetsIn(g.edges, a, e.to); }
    if x == a || x == n { AcceptingNone(g.edges, x, p); }
  }

  // ----- Removing ---------------------------------------------------------

  predicate Avoids(e: Edge, x: NodeId, p: Packet, n: NodeId) { Leaves(e, x, p) && e.to != n }

  /** The edge at `k` is the first in the list that takes `p` from `x` to some other node than `n`. */
  ghost predicate FirstAvoiding(edges: seq<Edge>, x: NodeId, p: Packet, n: NodeId, k: nat) {
    k < |edges| && Avoids(edges[k], x, p, n) && forall j :: 0 <= j < k ==> !Avoids(edges[j], x, p, n)
  }

  ghost predicate NoneAvoids(edges: seq<Edge>, x: NodeId, p: Packet, n: NodeId) {
    forall j :: 0 <= j < |edges| ==> !Avoids(edges[j], x, p, n)
  }

  lemma {:induction false} DetachedAccepting(edges: seq<Edge>, n: NodeId, x: NodeId, p: Packet) returns (k: nat)
    requires x != n
    ensures var kept := Accepting(Detached(edges, n), x, p);
            if NoneAvoids(edges, x, p, n) then kept == []
            else FirstAvoiding(edges, x, p, n, k) && kept != [] && kept[0] == edges[k]
  {
    k := 0;
    if edges != [] {
      var rest := edges[1..];
      if Avoids(edges[0], x, p, n) {
        assert FirstAvoiding(edges, x, p, n, 0);
      } else {
        k := DetachedAccepting(rest, n, x, p);
        if NoneAvoids(rest, x, p, n) {
          forall j | 0 <= j < |edges| ensures !Avoids(edges[j], x, p, n) {
            if j > 0 { assert !Avoids(rest[j - 1], x, p, n); }
          }
        } else {
          k := k + 1;
          forall j | 0 <= j < k ensures !Avoids(edges[j], x, p, n) {
            if j > 0 { assert !Avoids(rest[j - 1], x, p, n); }
          }
        }
      }
    }
  }

  lemma {:induction false} DetachedParallel(edges: seq<Edge>, n: NodeId, x: NodeId, p: Packet)
    requires x != n
    ensures ParallelTargets(Accepting(Detached(edges, n), x, p)) ==
            Without(ParallelTargets(Accepting(edges, x, p)), n)
  {
    if edges != [] {
      DetachedParallel(edges[1..], n, x, p);
    }
  }

  lemma {:induction false} BridgesFromAccepting(pred: NodeId, succs: seq<NodeId>, x: NodeId, p: Packet)
    ensures Accepting(BridgesFrom(pred, succs), x, p) == if x == pred then BridgesFrom(pred, succs) else []
  {
    if succs != [] {
      BridgesFromAccepting(pred, succs[1..], x, p);
      var rest := BridgesFrom(pred, succs[1..]);
      assert ([Plain(pred, succs[0])] + rest)[1..] == rest;
    }
  }

  /** A bridge takes every packet of its predecessor to the first successor, and never forks. */
  lemma {:induction false} BridgesAccepting(preds: seq<NodeId>, succs: seq<NodeId>, x: NodeId, p: Packet)
    ensures var acc := Accepting(Bridges(preds, succs), x, p);
            && ParallelTargets(acc) == []
            && (acc != [] <==> x in preds && succs != [])
            && (acc != [] ==> acc[0].to == succs[0])
  {
    if preds != [] {
      var first, rest := BridgesFrom(preds[0], succs), Bridges(preds[1..], succs);
      BridgesAccepting(preds[1..], succs, x, p);
      AcceptingAppend(first, rest, x, p);
      BridgesFromAccepting(preds[0], succs, x, p);
      ParallelAppend(Accepting(first, x, p), Accepting(rest, x, p));
      PlainNeverParallel(preds[0], succs);
    }
  }

  lemma {:induction false} PlainNeverParallel(pred: NodeId, succs: seq<NodeId>)
    ensures ParallelTargets(BridgesFrom(pred, succs)) == []
  {
    if succs != [] {
      PlainNeverParallel(pred, succs[1..]);
      var rest := BridgesFrom(pred, succs[1..]);
      assert ([Plain(pred, succs[0])] + rest)[1..] == rest;
    }
  }

  lemma {:induction false} ParallelAppend(s: seq<Edge>, t: seq<Edge>)
    ensures ParallelTargets(s + t) == ParallelTargets(s) + ParallelTargets(t)
  {
    if s == [] {
      assert s + t == t;
    } else {
      ParallelAppend(s[1..], t);
      assert (s + t)[0] == s[0] && (s + t)[1..] == s[1..] + t;
    }
  }

  /** The edges after a removal that goes through. */
  lemma RemovedEdges(g: Graph, n: NodeId)
    requires g.WellFormed() && g.RemoveAndReconnect(n).1.Ok?
    ensures var g' := g.RemoveAndReconnect(n).0;
            && g'.edges == Detached(g.edges, n) + Bridges(Origins(g.edges, n), Targets(g.edges, n))
            && g'.entries == Without(g.entries, n) && g'.exits == Without(g.exits, n)
            && (n, n) !in g.Links()
  {
    var preds, succs := Origins(g.edges, n), Targets(g.edges, n);
    RemovalSucceedsExactly(g, n);
    var bare := g.RemoveNode(n);
    forall e | e in Bridges(preds, succs) ensures e.from in bare.nodes && e.to in bare.nodes {
      BridgesIn(preds, succs, e);
      OriginsIn(g.edges, n, e.from);
      TargetsIn(g.edges, n, e.to);
      OriginsLink(g, n, e.from);
      TargetsLink(g, n, e.to);
    }
    ConnectAllOk(bare, Bridges(preds, succs));
  }

  /**
   Where a packet goes from another node once `n` is removed: along the first accepting edge that did
   not lead to `n`; if there is none and the node fed `n`, to the first successor of `n`, whatever the
   conditions on the way to it were; a fork loses its branches to `n` and gains none.
   */
  lemma RemovalRoutes(net: Net, net': Net, g: Graph, n: NodeId, x: NodeId, p: Packet) returns (k: nat)
    requires g.WellFormed() && g.RemoveAndReconnect(n).1.Ok? && x != n && x !in g.exits
    requires Runs(net, g) && Runs(net', g.RemoveAndReconnect(n).0)
    ensures var succs, d' := Targets(g.edges, n), Decide(net', x, Forward(p));
            if !NoneAvoids(g.edges, x, p, n) then FirstAvoiding(g.edges, x, p, n, k) && d' == Continue(g.edges[k].to, p)
            else if (x, n) in g.Links() && succs != [] then d' == Continue(succs[0], p)
            else d' == Stop(Failed(DeadEndAt(x)))
    ensures var r, r' := Route(net, x, Forward(p)), Route(net', x, Forward(p));
            var left := if r.Forks? then Without(r.targets, n) else [];
            && (r'.Forks? <==> left != []) && (r'.Forks? ==> r' == Forks(left, p))
            && (!r'.Forks? ==> r' == match Decide(net', x, Forward(p))
                                     case Continue(to, q) => Goes(to, q)
                                     case Stop(_) => Ends(Err(DeadEndAt(x))))
  {
    RemovedEdges(g, n);
    var preds, succs := Origins(g.edges, n), Targets(g.edges, n);
    WithoutIn(g.exits, n, x);
    k := DetachedAccepting(g.edges, n, x, p);
    DetachedParallel(g.edges, n, x, p);
    AcceptingAppend(Detached(g.edges, n), Bridges(preds, succs), x, p);
    BridgesAccepting(preds, succs, x, p);
    var kept, bridged := Accepting(Detached(g.edges, n), x, p), Accepting(Bridges(preds, succs), x, p);
    ParallelAppend(kept, bridged);
    OriginsLink(g, n, x);
    assert kept == [] ==> kept + bridged == bridged;
  }

  // ----- What a removal keeps ---------------------------------------------

  /** Where a packet goes from `x`, with a node that passes everything on skipped. */
  function Past(net: Net, n: NodeId, d: Decision): Decision {
    if d.Continue? && d.to == n then Decide(net, n, Forward(d.packet)) else d
  }

  /**
   The guard on a removal: some edge of `x` takes the packet; and if the first that does leads to `n`,
   some edge of `n` takes it too, to where the first edge of `x` that avoids `n` would take it, or else
   to the first successor of `n`.
   */
  ghost predicate Settled(edges: seq<Edge>, x: NodeId, p: Packet, n: NodeId)
    requires Targets(edges, n) != []
  {
    var at, on := Accepting(edges, x, p), Accepting(edges, n, p);
    && at != []
    && (at[0].to == n ==>
          && on != []
          && (NoneAvoids(edges, x, p, n) ==> on[0].to == Targets(edges, n)[0])
          && forall k: nat :: FirstAvoiding(edges, x, p, n, k) ==> on[0].to == edges[k].to)
  }

  lemma FirstAcceptedAvoids(edges: seq<Edge>, x: NodeId, p: Packet, n: NodeId, k: nat)
    requires Accepting(edges, x, p) != [] && Accepting(edges, x, p)[0].to != n
    requires NoneAvoids(edges, x, p, n) || FirstAvoiding(edges, x, p, n, k)
    ensures FirstAvoiding(edges, x, p, n, k) && edges[k].to == Accepting(edges, x, p)[0].to
  {
    var i := AcceptingFirst(edges, x, p);
    assert Avoids(edges[i], x, p, n);
    FirstIsUnique(edges, x, p, n, i, k);
  }

  lemma FirstIsUnique(edges: seq<Edge>, x: NodeId, p: Packet, n: NodeId, i: nat, k: nat)
    requires FirstAvoiding(edges, x, p, n, i) && FirstAvoiding(edges, x, p, n, k)
    ensures i == k
  {
  }

  lemma AvoidsSome(edges: seq<Edge>, x: NodeId, p: Packet, n: NodeId, k: nat)
    requires FirstAvoiding(edges, x, p, n, k)
    ensures Accepting(edges, x, p) != []
  {
    var i := AcceptingFirst(edges, x, p);
    assert Leaves(edges[k], x, p);
  }

  /** A packet goes from a predecessor where it went through the removed node exactly under that guard. */
  lemma RemovalKeepsStepExactlyWhen(net: Net, net': Net, g: Graph, n: NodeId, x: NodeId, p: Packet)
    requires g.WellFormed() && g.RemoveAndReconnect(n).1.Ok? && x != n && x !in g.exits && n !in g.exits
    requires (x, n) in g.Links() && Targets(g.edges, n) != []
    requires Runs(net, g) && Runs(net', g.RemoveAndReconnect(n).0)
    ensures Decide(net', x, Forward(p)) == Past(net, n, Decide(net, x, Forward(p))) <==> Settled(g.edges, x, p, n)
  {
    var k := RemovalRoutes(net, net', g, n, x, p);
    var at, on := Accepting(g.edges, x, p), Accepting(g.edges, n, p);
    if at == [] {
      if !NoneAvoids(g.edges, x, p, n) { AvoidsSome(g.edges, x, p, n, k); }
    } else if at[0].to != n {
      FirstAcceptedAvoids(g.edges, x, p, n, k);
    } else if FirstAvoiding(g.edges, x, p, n, k) {
      forall j: nat | FirstAvoiding(g.edges, x, p, n, j) ensures j == k { FirstIsUnique(g.edges, x, p, n, j, k); }
    }
  }

  /** Nodes that did not feed `n` are not concerned. */
  lemma RemovalKeepsOthers(net: Net, net': Net, g: Graph, n: NodeId, x: NodeId, p: Packet)
    requires g.WellFormed() && g.RemoveAndReconnect(n).1.Ok? && x != n && (x, n) !in g.Links()
    requires Runs(net, g) && Runs(net', g.RemoveAndReconnect(n).0)
    ensures Decide(net', x, Forward(p)) == Decide(net, x, Forward(p))
    ensures Route(net', x, Forward(p)) == Route(net, x, Forward(p))
  {
    RemovedEdges(g, n);
    WithoutIn(g.exits, n, x);
    var preds, succs := Origins(g.edges, n), Targets(g.edges, n);
    AcceptingAppend(Detached(g.edges, n), Bridges(preds, succs), x, p);
    BridgesAccepting(preds, succs, x, p);
    OriginsLink(g, n, x);
    forall e | e in g.edges ensures Leaves(e, x, p) ==> e.from != n && e.to != n {
      if Leaves(e, x, p) { assert e.Link() in g.Links(); }
    }
    DetachedKeeps(g.edges, n, x, p);
    var kept := Accepting(g.edges, x, p);
    assert kept + [] == kept;
  }

  lemma {:induction false} DetachedKeeps(edges: seq<Edge>, n: NodeId, x: NodeId, p: Packet)
    requires forall e :: e in edges ==> (Leaves(e, x, p) ==> e.from != n && e.to != n)
    ensures Accepting(Detached(edges, n), x, p) == Accepting(edges, x, p)
  {
    if edges != [] { DetachedKeeps(edges[1..], n, x, p); }
  }
}
