/**
 Live rewiring preserves meaning: inserting a fresh node, or removing an interior one and bridging
 over it, changes neither which of the other nodes reach which, nor whether the graph is acyclic,
 nor whether it validates.
 */
module Rewiring {
  import opened Wrappers
  import opened Packets
  import opened Modules
  import opened Digraphs
  import opened Graphs

  type Relation = set<(NodeId, NodeId)>

  // ----- Two ways to compare edge relations -------------------------------

  /** Every edge of `F` can be walked in `E`, starting with an edge of `E`. */
  ghost predicate Realizes(F: Relation, E: Relation) {
    forall e :: e in F ==> exists m :: (e.0, m) in E && Reaches(E, m, e.1)
  }

  lemma RealizedReaches(F: Relation, E: Relation, x: NodeId, y: NodeId)
    requires Realizes(F, E) && Reaches(F, x, y)
    ensures Reaches(E, x, y)
  {
    forall e | e in F ensures Reaches(E, e.0, e.1) {
      var m :| (e.0, m) in E && Reaches(E, m, e.1);
      ReachesEdge(E, e.0, m);
      ReachesTrans(E, e.0, m, e.1);
    }
    var w: seq<NodeId> :| IsWalkBetween(F, w, x, y);
    SimulatedWalk(F, E, w);
  }

  lemma RealizedAcyclic(F: Relation, E: Relation)
    requires Realizes(F, E) && Acyclic(E)
    ensures Acyclic(F)
  {
    forall x, y | (x, y) in F ensures !Reaches(F, y, x) {
      if Reaches(F, y, x) {
        var m :| ((x, y).0, m) in E && Reaches(E, m, (x, y).1);
        RealizedReaches(F, E, y, x);
        ReachesTrans(E, m, y, x);
      }
    }
  }

  /** A contraction whose collapsed edges lie on no cycle cannot hide a cycle. */
  lemma ContractedAcyclic(F: Relation, E: Relation, h: NodeId -> NodeId)
    requires Contracts(F, E, h) && Acyclic(E)
    requires forall e :: e in F && h(e.0) == h(e.1) ==> !Reaches(F, e.1, e.0)
    ensures Acyclic(F)
  {
    forall x, y | (x, y) in F ensures !Reaches(F, y, x) {
      assert (x, y).0 == x && (x, y).1 == y;
      if Reaches(F, y, x) {
        ContractedReaches(F, E, h, y, x);
      }
    }
  }

  /** The map that moves one node onto another. */
  function Onto(n: NodeId, target: NodeId): NodeId -> NodeId {
    x => if x == n then target else x
  }

  // ----- Inserting --------------------------------------------------------

  /** A node new to the graph and to the allow-list goes after `a`, which has at most one outgoing edge. */
  ghost predicate FreshInsert(g: Graph, a: NodeId, n: NodeId) {
    && g.WellFormed() && a in g.nodes && n !in g.nodes
    && |Targets(g.edges, a)| <= 1
    && (forall p :: p in g.allowed ==> p.0 != n && p.1 != n)
  }

  /** The edge the insertion cuts, if there is one. */
  function CutEdge(g: Graph, a: NodeId): Relation {
    var out := Targets(g.edges, a);
    if out == [] then {} else {(a, out[0])}
  }

  /** The node is not a source, and the allow-list does not concern the cut edge either. */
  ghost predicate CleanInsert(g: Graph, a: NodeId, n: NodeId, kind: NodeType) {
    FreshInsert(g, a, n) && !kind.Source? && CutEdge(g, a) !! g.allowed
  }

  /** What splicing `n` between `a` and `t` does to an edge relation. */
  function Spliced(E: Relation, a: NodeId, n: NodeId, t: NodeId): Relation {
    E - {(a, t)} + {(a, n), (n, t)}
  }

  lemma InsertedLinks(g: Graph, a: NodeId, n: NodeId, kind: NodeType)
    requires FreshInsert(g, a, n)
    ensures var g' := g.InsertAfter(a, n, kind).0;
            var out := Targets(g.edges, a);
            if out == [] then
              g'.Links() == g.Links() + {(a, n)} && g'.Checked() == g.Checked() + {(a, n)}
            else
              && (a, out[0]) in g.Links()
              && g'.Links() == Spliced(g.Links(), a, n, out[0])
              && g'.Checked() == Spliced(g.Checked() + {(a, out[0])}, a, n, out[0])
  {
    var g' := g.InsertAfter(a, n, kind).0;
    SingleOutgoing(g.edges, a);
    var i := PositionFrom(g.edges, a);
    if i == |g.edges| {
      forall x: NodeId, y: NodeId ensures (x, y) in g'.Links() <==> (x, y) in g.Links() || (x, y) == (a, n) {
        AppendedLinks(g.edges, [Plain(a, n)], x, y);
        assert [Plain(a, n)][0] in [Plain(a, n)];
      }
      assert g'.Links() == g.Links() + {(a, n)} by { PairwiseEqual(g'.Links(), g.Links() + {(a, n)}); }
    } else {
      var cut := g.edges[i];
      var t := cut.to;
      var added := [Edge(a, n, cut.edgeType, cut.condition), Plain(n, t)];
      assert added[0] in added && added[1] in added;
      assert cut in g.edges && cut.Link() == (a, t);
      forall x: NodeId, y: NodeId
        ensures (x, y) in g'.Links() <==> (x, y) in Spliced(g.Links(), a, n, t)
      {
        AppendedLinks(RemoveAt(g.edges, i), added, x, y);
        CutLinks(g.edges, i, x, y);
      }
      PairwiseEqual(g'.Links(), Spliced(g.Links(), a, n, t));
    }
  }

  lemma PairwiseEqual(E: Relation, F: Relation)
    requires forall x: NodeId, y: NodeId :: (x, y) in E <==> (x, y) in F
    ensures E == F
  {
    forall p | p in E ensures p in F { assert (p.0, p.1) in E; }
    forall p | p in F ensures p in E { assert (p.0, p.1) in F; }
  }

  function LinksOf(edges: seq<Edge>): Relation {
    set e | e in edges :: e.Link()
  }

  lemma AppendedLinks(s: seq<Edge>, t: seq<Edge>, x: NodeId, y: NodeId)
    ensures (x, y) in LinksOf(s + t) <==> (x, y) in LinksOf(s) || (x, y) in LinksOf(t)
  {
    if (x, y) in LinksOf(s + t) {
      var e :| e in s + t && e.Link() == (x, y);
      assert e in s || e in t;
    }
    if (x, y) in LinksOf(s) {
      var e :| e in s && e.Link() == (x, y);
      assert e in s + t;
    }
    if (x, y) in LinksOf(t) {
      var e :| e in t && e.Link() == (x, y);
      assert e in s + t;
    }
  }

  /** Cutting a node's only outgoing edge removes exactly that pair. */
  lemma CutLinks(edges: seq<Edge>, i: nat, x: NodeId, y: NodeId)
    requires i < |edges| && forall e :: e in RemoveAt(edges, i) ==> e.from != edges[i].from
    ensures (x, y) in LinksOf(RemoveAt(edges, i)) <==> (x, y) in LinksOf(edges) && (x, y) != edges[i].Link()
  {
    if (x, y) in LinksOf(RemoveAt(edges, i)) {
      var e :| e in RemoveAt(edges, i) && e.Link() == (x, y);
      RemoveAtIn(edges, i, e);
    }
    if (x, y) in LinksOf(edges) && (x, y) != edges[i].Link() {
      var e :| e in edges && e.Link() == (x, y);
      RemoveAtIn(edges, i, e);
    }
  }

  lemma SplicedReaches(E: Relation, a: NodeId, n: NodeId, t: NodeId)
    requires (a, t) in E && forall e :: e in E ==> e.0 != n && e.1 != n
    ensures forall x, y :: x != n && y != n ==> (Reaches(Spliced(E, a, n, t), x, y) <==> Reaches(E, x, y))
    ensures Realizes(E, Spliced(E, a, n, t)) && Contracts(Spliced(E, a, n, t), E, Onto(n, t))
  {
    var F := Spliced(E, a, n, t);
    forall e | e in E ensures exists m :: (e.0, m) in F && Reaches(F, m, e.1) {
      if e == (a, t) {
        ReachesEdge(F, n, t);
        assert (e.0, n) in F;
      } else {
        ReachesSelf(F, e.1);
        assert e == (e.0, e.1);
      }
    }
    forall x, y | x != n && y != n ensures Reaches(F, x, y) <==> Reaches(E, x, y) {
      if Reaches(F, x, y) { ContractedReaches(F, E, Onto(n, t), x, y); }
      if Reaches(E, x, y) { RealizedReaches(E, F, x, y); }
    }
  }

  lemma SplicedAcyclic(E: Relation, a: NodeId, n: NodeId, t: NodeId)
    requires (a, t) in E && forall e :: e in E ==> e.0 != n && e.1 != n
    ensures Acyclic(Spliced(E, a, n, t)) <==> Acyclic(E)
  {
    var F := Spliced(E, a, n, t);
    SplicedReaches(E, a, n, t);
    assert t != n by { assert (a, t).1 == t; }
    assert a != n by { assert (a, t).0 == a; }
    if Acyclic(F) { RealizedAcyclic(E, F); }
    if Acyclic(E) {
      forall e | e in F && Onto(n, t)(e.0) == Onto(n, t)(e.1) ensures !Reaches(F, e.1, e.0) {
        if e == (n, t) {
          if Reaches(F, t, n) { var y := ReachesLast(F, t, n); }
        } else if e == (a, n) {
          assert a == t;
          ReachesSelf(E, a);
        } else {
          assert e == (e.0, e.1) && e in E;
          ReachesSelf(E, e.0);
        }
      }
      ContractedAcyclic(F, E, Onto(n, t));
    }
  }

  lemma AppendedReaches(E: Relation, a: NodeId, n: NodeId)
    requires a != n && forall e :: e in E ==> e.0 != n && e.1 != n
    ensures forall x, y :: x != n && y != n ==> (Reaches(E + {(a, n)}, x, y) <==> Reaches(E, x, y))
    ensures Acyclic(E + {(a, n)}) <==> Acyclic(E)
  {
    var F := E + {(a, n)};
    assert Contracts(F, E, Onto(n, a));
    forall x, y | x != n && y != n ensures Reaches(F, x, y) <==> Reaches(E, x, y) {
      if Reaches(F, x, y) { ContractedReaches(F, E, Onto(n, a), x, y); }
      if Reaches(E, x, y) { ReachesMono(E, F, x, y); }
    }
    if Acyclic(F) { AcyclicMono(E, F); }
    if Acyclic(E) {
      forall e | e in F && Onto(n, a)(e.0) == Onto(n, a)(e.1) ensures !Reaches(F, e.1, e.0) {
        if e == (a, n) {
          if Reaches(F, n, a) { var y := ReachesFirst(F, n, a); }
        } else {
          assert e == (e.0, e.1);
          ReachesSelf(E, e.0);
        }
      }
      ContractedAcyclic(F, E, Onto(n, a));
    }
  }

  lemma FreshIsUnlinked(g: Graph, n: NodeId)
    requires g.WellFormed() && n !in g.nodes
    ensures forall e :: e in g.Links() ==> e.0 != n && e.1 != n
  {
    forall e | e in g.Links() ensures e.0 != n && e.1 != n {
      var edge :| edge in g.edges && edge.Link() == e;
    }
  }

  /** Two edges leave the node. */
  ghost predicate Branches(edges: seq<Edge>, a: NodeId) {
    exists i, j :: 0 <= i < j < |edges| && edges[i].from == a && edges[j].from == a
  }

  lemma {:induction false} BranchesExactly(edges: seq<Edge>, a: NodeId)
    ensures Branches(edges, a) <==> |Targets(edges, a)| > 1
    ensures Targets(edges, a) == [] <==> forall e :: e in edges ==> e.from != a
  {
    if edges != [] {
      var rest := edges[1..];
      BranchesExactly(rest, a);
      if Branches(rest, a) {
        var i, j :| 0 <= i < j < |rest| && rest[i].from == a && rest[j].from == a;
        assert edges[i + 1].from == a && edges[j + 1].from == a;
      }
      if edges[0].from == a && Targets(rest, a) != [] {
        var e :| e in rest && e.from == a;
        var j :| 0 <= j < |rest| && rest[j] == e;
        assert edges[0].from == a && edges[j + 1].from == a;
      }
      if Branches(edges, a) {
        var i, j :| 0 <= i < j < |edges| && edges[i].from == a && edges[j].from == a;
        assert rest[j - 1] in rest && rest[j - 1].from == a;
        if i > 0 { assert rest[i - 1].from == a; }
      }
    }
  }

  /**
   An insertion is refused exactly after a node that is absent or has two outgoing edges, and then
   nothing changes. Otherwise the node is there, an exit if it is a sink and an entry if it is a source.
   */
  lemma InsertSucceedsExactly(g: Graph, a: NodeId, n: NodeId, kind: NodeType)
    ensures var (g', r) := g.InsertAfter(a, n, kind);
            && (r.Ok? <==> a in g.nodes && !Branches(g.edges, a))
            && (a !in g.nodes ==> r == Err(MissingNode(a)))
            && (a in g.nodes && Branches(g.edges, a) ==>
                  exists k :: k > 1 && r == Err(BuildFailed(AmbiguousInsert(a, k))))
            && (r.Err? ==> g' == g)
            && (r.Ok? ==>
                  && g'.nodes == g.nodes + {n} && g'.allowed == g.allowed
                  && (forall x :: x in g'.entries <==> x in g.entries || (x == n && kind.Source?))
                  && (forall x :: x in g'.exits <==> x in g.exits || (x == n && kind.Sink?)))
  {
    BranchesExactly(g.edges, a);
  }

  /** Inserting never changes reachability between the old nodes. */
  lemma InsertKeepsReachability(g: Graph, a: NodeId, n: NodeId, kind: NodeType)
    requires FreshInsert(g, a, n)
    ensures var (g', r) := g.InsertAfter(a, n, kind);
            r.Ok? && forall x, y :: x in g.nodes && y in g.nodes ==> (g'.CanReach(x, y) <==> g.CanReach(x, y))
  {
    InsertedLinks(g, a, n, kind);
    FreshIsUnlinked(g, n);
    var out := Targets(g.edges, a);
    if out == [] { AppendedReaches(g.Links(), a, n); } else { SplicedReaches(g.Links(), a, n, out[0]); }
  }

  /**
   The two halves of the cut edge are not exempt from the cycle check, so the graph is acyclic
   afterwards exactly if it was with the cut edge checked like any other.
   */
  lemma InsertAcyclicExactly(g: Graph, a: NodeId, n: NodeId, kind: NodeType)
    requires FreshInsert(g, a, n)
    ensures Acyclic(g.InsertAfter(a, n, kind).0.Checked()) <==> Acyclic(g.Checked() + CutEdge(g, a))
  {
    InsertedLinks(g, a, n, kind);
    FreshIsUnlinked(g, n);
    var out := Targets(g.edges, a);
    if out == [] {
      AppendedReaches(g.Checked(), a, n);
      assert g.Checked() + CutEdge(g, a) == g.Checked();
    } else {
      SplicedAcyclic(g.Checked() + {(a, out[0])}, a, n, out[0]);
    }
  }

  /** Inserting changes neither reachability between the old nodes nor acyclicity. */
  lemma InsertKeepsMeaning(g: Graph, a: NodeId, n: NodeId, kind: NodeType)
    requires CleanInsert(g, a, n, kind)
    ensures var (g', r) := g.InsertAfter(a, n, kind);
            && r.Ok?
            && (forall x, y :: x in g.nodes && y in g.nodes ==> (g'.CanReach(x, y) <==> g.CanReach(x, y)))
            && (Acyclic(g'.Checked()) <==> Acyclic(g.Checked()))
  {
    InsertKeepsReachability(g, a, n, kind);
    InsertAcyclicExactly(g, a, n, kind);
    InsertedLinks(g, a, n, kind);
    assert g.Checked() + CutEdge(g, a) == g.Checked();
  }

  /** One more edge closes a cycle exactly when its ends were already connected the other way. */
  lemma OneMoreEdge(E: Relation, a: NodeId, t: NodeId)
    requires Acyclic(E)
    ensures Acyclic(E + {(a, t)}) <==> !Reaches(E, t, a)
  {
    var F := E + {(a, t)};
    if Reaches(E, t, a) {
      ReachesMono(E, F, t, a);
      assert (a, t) in F;
    } else {
      var S := Downstream(E, t);
      forall e | e in F && e.0 in S ensures e.1 in S {
        if e != (a, t) { DownstreamClosed(E, t, e); }
      }
      assert Closed(F, S) && t in S;
      assert a !in S by { ReachesSelf(E, t); }
      forall x, y | (x, y) in F ensures !Reaches(F, y, x) {
        if Reaches(F, y, x) {
          ThroughNewEdge(E, a, t, x, y);
          ReachesStaysInClosed(F, S, t, a);
        }
      }
    }
  }

  lemma DownstreamClosed(E: Relation, t: NodeId, e: (NodeId, NodeId))
    requires e in E && e.0 in Downstream(E, t)
    ensures e.1 in Downstream(E, t)
  {
    ReachesSelf(E, t);
    assert Reaches(E, t, e.0);
    assert e == (e.0, e.1);
    ReachesEdge(E, e.0, e.1);
    ReachesTrans(E, t, e.0, e.1);
  }

  /** A cycle of the larger relation goes through the new edge. */
  lemma ThroughNewEdge(E: Relation, a: NodeId, t: NodeId, x: NodeId, y: NodeId)
    requires Acyclic(E) && (x, y) in E + {(a, t)} && Reaches(E + {(a, t)}, y, x)
    ensures Reaches(E + {(a, t)}, t, a)
  {
    var F := E + {(a, t)};
    var w: seq<NodeId> :| IsWalkBetween(F, w, y, x);
    if (x, y) != (a, t) {
      if i :| 0 <= i < |w| - 1 && (w[i], w[i + 1]) !in E {
        WalkSlice(F, w, 0, i + 1);
        WalkSlice(F, w, i + 1, |w|);
        assert IsWalkBetween(F, w[..i + 1], y, a) && IsWalkBetween(F, w[i + 1..], t, x);
        ReachesEdge(F, x, y);
        ReachesTrans(F, t, x, y);
        ReachesTrans(F, t, y, a);
      } else {
        assert IsWalkBetween(E, w, y, x);
      }
    }
  }

  /**
   Where the cycle check passed before, it passes after an insertion unless the insertion cuts an
   allow-listed edge that closes a cycle of checked ones.
   */
  lemma InsertIntoFeedback(g: Graph, a: NodeId, n: NodeId, kind: NodeType)
    requires FreshInsert(g, a, n) && Acyclic(g.Checked())
    ensures Acyclic(g.InsertAfter(a, n, kind).0.Checked()) <==>
            !exists t :: (a, t) in CutEdge(g, a) && (a, t) in g.allowed && Reaches(g.Checked(), t, a)
  {
    InsertAcyclicExactly(g, a, n, kind);
    InsertedLinks(g, a, n, kind);
    var out := Targets(g.edges, a);
    if out == [] {
      assert g.Checked() + CutEdge(g, a) == g.Checked();
    } else {
      var t := out[0];
      if (a, t) in g.allowed {
        OneMoreEdge(g.Checked(), a, t);
        assert (a, t) in CutEdge(g, a);
      } else {
        assert g.Checked() + CutEdge(g, a) == g.Checked();
      }
    }
  }

  lemma TouchedIff(g: Graph, x: NodeId)
    ensures g.Touched(x) <==> exists p :: p in g.Links() && (p.0 == x || p.1 == x)
  {
    if g.Touched(x) {
      var e :| e in g.edges && (e.from == x || e.to == x);
      assert e.Link() in g.Links();
    }
    if p :| p in g.Links() && (p.0 == x || p.1 == x) {
      var e :| e in g.edges && e.Link() == p;
    }
  }

  lemma InsertKeepsExits(g: Graph, a: NodeId, n: NodeId, kind: NodeType, x: NodeId)
    requires CleanInsert(g, a, n, kind) && g.ReachesExit(x)
    ensures g.InsertAfter(a, n, kind).0.ReachesExit(x)
  {
    var g' := g.InsertAfter(a, n, kind).0;
    InsertKeepsMeaning(g, a, n, kind);
    var i :| 0 <= i < |g.exits| && g.CanReach(x, g.exits[i]);
    assert g'.exits[i] == g.exits[i];
  }

  /** The new node has an edge, and every other node still has one if it had one. */
  lemma InsertKeepsTouched(g: Graph, a: NodeId, n: NodeId, kind: NodeType, x: NodeId)
    requires CleanInsert(g, a, n, kind)
    ensures x == n || g.Touched(x) ==> g.InsertAfter(a, n, kind).0.Touched(x)
  {
    var g' := g.InsertAfter(a, n, kind).0;
    InsertedLinks(g, a, n, kind);
    TouchedIff(g', x);
    TouchedIff(g, x);
    if x == n {
      assert (a, n) in g'.Links();
    } else if g.Touched(x) {
      var p :| p in g.Links() && (p.0 == x || p.1 == x);
      var out := Targets(g.edges, a);
      if out != [] && p == (a, out[0]) {
        assert (a, n) in g'.Links() && (n, out[0]) in g'.Links();
      } else {
        assert p in g'.Links();
      }
    }
  }

  /** A graph that validates still does after an insertion. */
  lemma InsertKeepsSound(g: Graph, a: NodeId, n: NodeId, kind: NodeType)
    requires CleanInsert(g, a, n, kind) && g.Sound()
    ensures g.InsertAfter(a, n, kind).0.Sound()
  {
    var g' := g.InsertAfter(a, n, kind).0;
    InsertKeepsMeaning(g, a, n, kind);
    forall x | x in g'.entries ensures g'.ReachesExit(x) {
      assert g.ReachesExit(x);
      InsertKeepsExits(g, a, n, kind, x);
    }
    forall x | x in g'.nodes ensures !g'.Orphaned(x) {
      if x != n && x !in g.entries && x !in g.exits {
        assert !g.Orphaned(x);
      }
      InsertKeepsTouched(g, a, n, kind, x);
    }
  }

  // ----- Removing ---------------------------------------------------------

  /** An unmarked interior node that does not feed itself, untouched by the allow-list. */
  ghost predicate CleanRemoval(g: Graph, n: NodeId) {
    var preds, succs := Origins(g.edges, n), Targets(g.edges, n);
    && g.WellFormed() && n in g.nodes && n !in g.entries && n !in g.exits
    && preds != [] && succs != [] && (|preds| == 1 || |succs| == 1)
    && (n, n) !in g.Links()
    && (forall p :: p in g.allowed ==> p.0 != n && p.1 != n)
    && (forall p, s :: p in preds && s in succs ==> (p, s) !in g.allowed)
  }

  /** The edge relation with `n` bridged over. */
  ghost function Bridged(E: Relation, n: NodeId): Relation {
    (set e | e in E && e.0 != n && e.1 != n) +
    (set e, f | e in E && f in E && e.1 == n && f.0 == n :: (e.0, f.1))
  }

  lemma {:induction false} BridgesFromIn(pred: NodeId, succs: seq<NodeId>, e: Edge)
    ensures e in BridgesFrom(pred, succs) <==> e.from == pred && e.to in succs && e == Plain(e.from, e.to)
  {
    if succs != [] { BridgesFromIn(pred, succs[1..], e); }
  }

  lemma {:induction false} BridgesIn(preds: seq<NodeId>, succs: seq<NodeId>, e: Edge)
    ensures e in Bridges(preds, succs) <==> e.from in preds && e.to in succs && e == Plain(e.from, e.to)
  {
    if preds != [] {
      BridgesFromIn(preds[0], succs, e);
      BridgesIn(preds[1..], succs, e);
    }
  }

  lemma {:induction false} ConnectAllOk(g: Graph, es: seq<Edge>)
    requires forall e :: e in es ==> e.from in g.nodes && e.to in g.nodes
    ensures g.ConnectAll(es) == (g.(edges := g.edges + es), Ok(()))
    decreases |es|
  {
    if es == [] {
      assert g.edges + es == g.edges;
    } else {
      var g1 := g.(edges := g.edges + [es[0]]);
      ConnectAllOk(g1, es[1..]);
      assert g.edges + es == g1.edges + es[1..];
    }
  }

  lemma {:induction false} WithoutAbsent(s: seq<NodeId>, n: NodeId)
    requires n !in s
    ensures Without(s, n) == s
  {
    if s != [] { WithoutAbsent(s[1..], n); }
  }

  /** A clean removal goes through; only edges and the node itself change. */
  lemma RemovedGraph(g: Graph, n: NodeId)
    requires CleanRemoval(g, n)
    ensures g.RemoveAndReconnect(n) ==
            (g.(nodes := g.nodes - {n},
                edges := Detached(g.edges, n) + Bridges(Origins(g.edges, n), Targets(g.edges, n))), Ok(()))
  {
    var preds, succs := Origins(g.edges, n), Targets(g.edges, n);
    var bare := g.RemoveNode(n);
    WithoutAbsent(g.entries, n);
    WithoutAbsent(g.exits, n);
    forall e | e in Bridges(preds, succs) ensures e.from in bare.nodes && e.to in bare.nodes {
      BridgesIn(preds, succs, e);
      OriginsIn(g.edges, n, e.from);
      TargetsIn(g.edges, n, e.to);
    }
    ConnectAllOk(bare, Bridges(preds, succs));
  }

  lemma RemovedLinks(g: Graph, n: NodeId)
    requires CleanRemoval(g, n)
    ensures g.RemoveAndReconnect(n).0.Links() == Bridged(g.Links(), n)
    ensures g.RemoveAndReconnect(n).0.Checked() == Bridged(g.Checked(), n)
  {
    RemovedGraph(g, n);
    var preds, succs := Origins(g.edges, n), Targets(g.edges, n);
    var g' := g.RemoveAndReconnect(n).0;
    forall x: NodeId, y: NodeId ensures (x, y) in g'.Links() <==> (x, y) in Bridged(g.Links(), n) {
      AppendedLinks(Detached(g.edges, n), Bridges(preds, succs), x, y);
      DetachedLinks(g, n, x, y);
      BridgedPair(g, n, x, y);
    }
    PairwiseEqual(g'.Links(), Bridged(g.Links(), n));
    forall x: NodeId, y: NodeId ensures (x, y) in g'.Checked() <==> (x, y) in Bridged(g.Checked(), n) {
      BridgedPair(g, n, x, y);
      TargetsLink(g, n, y);
      OriginsLink(g, n, x);
    }
    PairwiseEqual(g'.Checked(), Bridged(g.Checked(), n));
  }

  lemma TargetsLink(g: Graph, n: NodeId, t: NodeId)
    ensures t in Targets(g.edges, n) <==> (n, t) in g.Links()
  {
    TargetsIn(g.edges, n, t);
    if (n, t) in g.Links() { var e :| e in g.edges && e.Link() == (n, t); }
  }

  lemma OriginsLink(g: Graph, n: NodeId, t: NodeId)
    ensures t in Origins(g.edges, n) <==> (t, n) in g.Links()
  {
    OriginsIn(g.edges, n, t);
    if (t, n) in g.Links() { var e :| e in g.edges && e.Link() == (t, n); }
  }

  lemma DetachedLinks(g: Graph, n: NodeId, x: NodeId, y: NodeId)
    ensures (x, y) in LinksOf(Detached(g.edges, n)) <==> (x, y) in g.Links() && x != n && y != n
  {
    if (x, y) in LinksOf(Detached(g.edges, n)) {
      var e :| e in Detached(g.edges, n) && e.Link() == (x, y);
      DetachedIn(g.edges, n, e);
    }
    if (x, y) in g.Links() && x != n && y != n {
      var e :| e in g.edges && e.Link() == (x, y);
      DetachedIn(g.edges, n, e);
    }
  }

  lemma BridgedPair(g: Graph, n: NodeId, x: NodeId, y: NodeId)
    ensures (x, y) in LinksOf(Bridges(Origins(g.edges, n), Targets(g.edges, n)))
            <==> (x, n) in g.Links() && (n, y) in g.Links()
  {
    var bridges := Bridges(Origins(g.edges, n), Targets(g.edges, n));
    OriginsLink(g, n, x);
    TargetsLink(g, n, y);
    BridgesIn(Origins(g.edges, n), Targets(g.edges, n), Plain(x, y));
    if (x, y) in LinksOf(bridges) {
      var e :| e in bridges && e.Link() == (x, y);
      BridgesIn(Origins(g.edges, n), Targets(g.edges, n), e);
    }
    if (x, n) in g.Links() && (n, y) in g.Links() {
      assert Plain(x, y).Link() == (x, y);
    }
  }

  lemma BridgedRealized(E: Relation, n: NodeId)
    requires (n, n) !in E
    ensures Realizes(Bridged(E, n), E)
  {
    forall p | p in Bridged(E, n) ensures exists m :: (p.0, m) in E && Reaches(E, m, p.1) {
      if p in E && p.0 != n && p.1 != n {
        ReachesSelf(E, p.1);
        assert p == (p.0, p.1);
      } else {
        var e, f :| e in E && f in E && e.1 == n && f.0 == n && p == (e.0, f.1);
        assert e == (p.0, n) && f == (n, p.1);
        ReachesEdge(E, n, p.1);
      }
    }
  }

  /** When `n` has one way in or one way out, removing it amounts to merging it with that neighbour. */
  ghost predicate MergesInto(E: Relation, n: NodeId, m: NodeId) {
    && m != n && (n, n) !in E
    && (((m, n) in E && forall e :: e in E && e.1 == n ==> e.0 == m)
        || ((n, m) in E && forall e :: e in E && e.0 == n ==> e.1 == m))
  }

  lemma BridgedContracts(E: Relation, n: NodeId, m: NodeId)
    requires MergesInto(E, n, m)
    ensures Contracts(E, Bridged(E, n), Onto(n, m))
  {
    var h := Onto(n, m);
    forall e | e in E ensures h(e.0) == h(e.1) || (h(e.0), h(e.1)) in Bridged(E, n) {
      assert e == (e.0, e.1);
      if e.0 == n {
        if (m, n) in E { assert (m, e.1) == ((m, n).0, e.1) && (m, e.1) in Bridged(E, n); }
      } else if e.1 == n {
        if (n, m) in E { assert (e.0, m) == (e.0, (n, m).1) && (e.0, m) in Bridged(E, n); }
      }
    }
  }

  lemma BridgedReaches(E: Relation, n: NodeId, m: NodeId, x: NodeId, y: NodeId)
    requires MergesInto(E, n, m) && x != n && y != n
    ensures Reaches(Bridged(E, n), x, y) <==> Reaches(E, x, y)
  {
    BridgedRealized(E, n);
    BridgedContracts(E, n, m);
    if Reaches(Bridged(E, n), x, y) { RealizedReaches(Bridged(E, n), E, x, y); }
    if Reaches(E, x, y) { ContractedReaches(E, Bridged(E, n), Onto(n, m), x, y); }
  }

  lemma BridgedAcyclic(E: Relation, n: NodeId, m: NodeId)
    requires MergesInto(E, n, m)
    ensures Acyclic(Bridged(E, n)) <==> Acyclic(E)
  {
    var F := Bridged(E, n);
    BridgedRealized(E, n);
    if Acyclic(E) { RealizedAcyclic(F, E); }
    if Acyclic(F) {
      BridgedContracts(E, n, m);
      forall e | e in E && Onto(n, m)(e.0) == Onto(n, m)(e.1) ensures !Reaches(E, e.1, e.0) {
        assert e == (e.0, e.1);
        if Reaches(E, e.1, e.0) { CollapsedOnNoCycle(E, n, m, e.0, e.1); }
      }
      ContractedAcyclic(E, F, Onto(n, m));
    }
  }

  /** An edge collapsed by the merge lies on no cycle, if the bridged graph has none. */
  lemma CollapsedOnNoCycle(E: Relation, n: NodeId, m: NodeId, x: NodeId, y: NodeId)
    requires MergesInto(E, n, m) && Acyclic(Bridged(E, n))
    requires (x, y) in E && Onto(n, m)(x) == Onto(n, m)(y)
    ensures !Reaches(E, y, x)
  {
    var F := Bridged(E, n);
    if Reaches(E, y, x) {
      if x == y {
        assert (x, y) in F;
        ReachesSelf(F, x);
      } else if x == n {
        // n -> m and back to n: the last step of the way back comes from some p with p -> m in F.
        var p := ReachesLast(E, y, n);
        BridgeEdge(E, n, p, m);
        BridgedReaches(E, n, m, m, p);
      } else {
        // m -> n and back to m: the first step of the way back goes to some s with m -> s in F.
        var s := ReachesFirst(E, n, x);
        BridgeEdge(E, n, m, s);
        BridgedReaches(E, n, m, s, m);
      }
    }
  }

  lemma BridgeEdge(E: Relation, n: NodeId, p: NodeId, s: NodeId)
    requires (p, n) in E && (n, s) in E
    ensures (p, s) in Bridged(E, n)
  {
    assert (p, s) == ((p, n).0, (n, s).1);
  }

  lemma RemovalMerges(g: Graph, n: NodeId) returns (m: NodeId)
    requires CleanRemoval(g, n)
    ensures MergesInto(g.Links(), n, m) && MergesInto(g.Checked(), n, m)
  {
    var preds, succs := Origins(g.edges, n), Targets(g.edges, n);
    if |preds| == 1 {
      m := preds[0];
      OriginsLink(g, n, m);
      forall e | e in g.Links() && e.1 == n ensures e.0 == m {
        assert e == (e.0, n);
        OriginsLink(g, n, e.0);
      }
    } else {
      m := succs[0];
      TargetsLink(g, n, m);
      forall e | e in g.Links() && e.0 == n ensures e.1 == m {
        assert e == (n, e.1);
        TargetsLink(g, n, e.1);
      }
    }
  }

  /** Removing changes neither reachability between the remaining nodes nor acyclicity. */
  lemma RemovalKeepsMeaning(g: Graph, n: NodeId)
    requires CleanRemoval(g, n)
    ensures var (g', r) := g.RemoveAndReconnect(n);
            && r.Ok?
            && (forall x, y :: x in g'.nodes && y in g'.nodes ==> (g'.CanReach(x, y) <==> g.CanReach(x, y)))
            && (Acyclic(g'.Checked()) <==> Acyclic(g.Checked()))
  {
    RemovedGraph(g, n);
    RemovedLinks(g, n);
    var m := RemovalMerges(g, n);
    var g' := g.RemoveAndReconnect(n).0;
    forall x, y | x in g'.nodes && y in g'.nodes ensures g'.CanReach(x, y) <==> g.CanReach(x, y) {
      BridgedReaches(g.Links(), n, m, x, y);
    }
    BridgedAcyclic(g.Checked(), n, m);
  }

  lemma RemovalKeepsTouched(g: Graph, n: NodeId, x: NodeId)
    requires CleanRemoval(g, n) && x != n
    ensures g.RemoveAndReconnect(n).0.Touched(x) <==> g.Touched(x)
  {
    RemovedLinks(g, n);
    var g' := g.RemoveAndReconnect(n).0;
    TouchedIff(g, x);
    TouchedIff(g', x);
    var preds, succs := Origins(g.edges, n), Targets(g.edges, n);
    OriginsLink(g, n, preds[0]);
    TargetsLink(g, n, succs[0]);
    if p :| p in g.Links() && (p.0 == x || p.1 == x) {
      assert p == (p.0, p.1);
      if p.0 == n {
        BridgeEdge(g.Links(), n, preds[0], x);
      } else if p.1 == n {
        BridgeEdge(g.Links(), n, x, succs[0]);
      } else {
        assert p in g'.Links();
      }
    }
  }

  /** A graph validates after a removal exactly when it did before. */
  lemma RemovalKeepsSound(g: Graph, n: NodeId)
    requires CleanRemoval(g, n)
    ensures g.RemoveAndReconnect(n).0.Sound() <==> g.Sound()
  {
    RemovedGraph(g, n);
    RemovalKeepsMeaning(g, n);
    var g' := g.RemoveAndReconnect(n).0;
    forall x | x in g.entries ensures g'.ReachesExit(x) <==> g.ReachesExit(x) {
      forall i | 0 <= i < |g.exits| ensures g'.CanReach(x, g.exits[i]) <==> g.CanReach(x, g.exits[i]) {
      }
    }
    forall x | x in g'.nodes ensures g'.Orphaned(x) <==> g.Orphaned(x) {
      RemovalKeepsTouched(g, n, x);
    }
    assert !g.Orphaned(n) by {
      OriginsLink(g, n, Origins(g.edges, n)[0]);
      TouchedIff(g, n);
    }
  }

  // ----- There and back ---------------------------------------------------

  lemma {:induction false} OriginsAppend(s: seq<Edge>, t: seq<Edge>, n: NodeId)
    ensures Origins(s + t, n) == Origins(s, n) + Origins(t, n)
  {
    if s == [] {
      assert s + t == t;
    } else {
      OriginsAppend(s[1..], t, n);
      assert (s + t)[0] == s[0] && (s + t)[1..] == s[1..] + t;
    }
  }

  lemma {:induction false} DetachedAppend(s: seq<Edge>, t: seq<Edge>, n: NodeId)
    ensures Detached(s + t, n) == Detached(s, n) + Detached(t, n)
  {
    if s == [] {
      assert s + t == t;
    } else {
      DetachedAppend(s[1..], t, n);
      var rest := Detached(s[1..], n);
      assert (s + t)[0] == s[0] && (s + t)[1..] == s[1..] + t;
      assert [s[0]] + (rest + Detached(t, n)) == ([s[0]] + rest) + Detached(t, n);
    }
  }

  lemma {:induction false} Unconnected(s: seq<Edge>, n: NodeId)
    requires forall e :: e in s ==> e.from != n && e.to != n
    ensures Detached(s, n) == s && Origins(s, n) == [] && Targets(s, n) == []
  {
    if s != [] { Unconnected(s[1..], n); }
  }

  lemma {:induction false} WithoutMark(s: seq<NodeId>, n: NodeId)
    requires n !in s
    ensures Without(s + [n], n) == s
  {
    if s != [] {
      WithoutMark(s[1..], n);
      assert (s + [n])[1..] == s[1..] + [n];
    }
  }

  /** The two halves of a split edge, once `n` is removed, are exactly one bridge. */
  lemma SplitEdgeRemoved(kept: seq<Edge>, spliceIn: Edge, spliceOut: Edge, n: NodeId)
    requires forall e :: e in kept ==> e.from != n && e.to != n
    requires spliceIn.to == n && spliceIn.from != n && spliceOut.from == n && spliceOut.to != n
    ensures var edges := kept + [spliceIn, spliceOut];
            && Detached(edges, n) == kept
            && Origins(edges, n) == [spliceIn.from] && Targets(edges, n) == [spliceOut.to]
  {
    var added := [spliceIn, spliceOut];
    Unconnected(kept, n);
    DetachedAppend(kept, added, n);
    OriginsAppend(kept, added, n);
    TargetsAppend(kept, added, n);
    assert added == [spliceIn] + [spliceOut];
    DetachedAppend([spliceIn], [spliceOut], n);
    OriginsAppend([spliceIn], [spliceOut], n);
    TargetsAppend([spliceIn], [spliceOut], n);
    assert kept + [] == kept;
  }

  /**
   Inserting a fresh node after one with a single outgoing edge and then removing it again restores
   the nodes, the marks and every adjacency list.
   */
  lemma InsertThenRemove(g: Graph, a: NodeId, n: NodeId, kind: NodeType)
    requires g.WellFormed() && a in g.nodes && |Targets(g.edges, a)| == 1
    requires n !in g.nodes && n !in g.entries && n !in g.exits
    ensures var g' := g.InsertAfter(a, n, kind).0;
            var (g'', r) := g'.RemoveAndReconnect(n);
            && r.Ok? && g'' == g.(edges := g''.edges)
            && forall x: NodeId :: Targets(g''.edges, x) == Targets(g.edges, x)
  {
    SingleOutgoing(g.edges, a);
    var i := PositionFrom(g.edges, a);
    var cut := g.edges[i];
    var kept := RemoveAt(g.edges, i);
    var g' := g.InsertAfter(a, n, kind).0;
    assert cut in g.edges;
    forall e | e in kept ensures e in g.edges { RemoveAtIn(g.edges, i, e); }
    SplitEdgeRemoved(kept, Edge(a, n, cut.edgeType, cut.condition), Plain(n, cut.to), n);
    WithoutAbsent(g.entries, n);
    WithoutAbsent(g.exits, n);
    WithoutMark(g.entries, n);
    WithoutMark(g.exits, n);
    var bare := g'.RemoveNode(n);
    assert bare == g.(edges := kept);
    var bridge := Bridges([a], [cut.to]);
    SingleBridge(a, cut.to);
    ConnectAllOk(bare, bridge);
    forall x: NodeId ensures Targets(kept + bridge, x) == Targets(g.edges, x) {
      TargetsAppend(kept, bridge, x);
      TargetsRemoveAt(g.edges, a, cut.to, x);
    }
  }

  lemma SingleBridge(a: NodeId, t: NodeId)
    ensures Bridges([a], [t]) == [Plain(a, t)]
  {
    assert [a][1..] == [] && [t][1..] == [];
    assert BridgesFrom(a, [t]) == [Plain(a, t)] + BridgesFrom(a, []);
  }

  /**
   `RemoveAndReconnect` succeeds exactly on a present node that does not feed itself and is not
   many-to-many. An absent or many-to-many node is refused and nothing changes; any other that feeds
   itself is removed, and the call then fails naming it.
   */
  lemma RemovalSucceedsExactly(g: Graph, n: NodeId)
    requires g.WellFormed()
    ensures var (g', r) := g.RemoveAndReconnect(n);
            && (r.Ok? <==> n in g.nodes && (n, n) !in g.Links() && Bridgeable(g.edges, n))
            && (n !in g.nodes || !Bridgeable(g.edges, n) ==> r.Err? && g' == g)
            && (n in g.nodes && (n, n) in g.Links() && Bridgeable(g.edges, n) ==>
                  r == Err(MissingNode(n)) && g'.nodes == g.nodes - {n})
  {
    var preds, succs := Origins(g.edges, n), Targets(g.edges, n);
    if n in g.nodes && (|preds| <= 1 || |succs| <= 1) {
      var bare := g.RemoveNode(n);
      var bridges := Bridges(preds, succs);
      OriginsLink(g, n, n);
      TargetsLink(g, n, n);
      BridgesIn(preds, succs, Plain(n, n));
      forall e | e in bridges ensures (e.from in bare.nodes || e.from == n) && (e.to in bare.nodes || e.to == n) {
        BridgesIn(preds, succs, e);
        OriginsIn(g.edges, n, e.from);
        TargetsIn(g.edges, n, e.to);
      }
      if (n, n) in g.Links() {
        ConnectAllStops(bare, bridges, n);
      } else {
        forall e | e in bridges ensures e.from != n && e.to != n {
          BridgesIn(preds, succs, e);
        }
        ConnectAllOk(bare, bridges);
      }
    }
  }

  /** The smallest case: one node that feeds itself is gone after the call that failed to remove it. */
  lemma SelfLoopIsLost(n: NodeId)
    ensures var g := Graph({n}, [Plain(n, n)], [], [], {});
            g.WellFormed() && g.RemoveAndReconnect(n) == (EMPTY_GRAPH, Err(MissingNode(n)))
  {
    var g := Graph({n}, [Plain(n, n)], [], [], {});
    var e := Plain(n, n);
    assert [e][1..] == [];
    assert Origins([e], n) == [e.from] + Origins([], n) && Targets([e], n) == [e.to] + Targets([], n);
    assert Detached([e], n) == Detached([], n);
    SingleBridge(n, n);
    assert g.RemoveNode(n) == EMPTY_GRAPH;
  }

  lemma {:induction false} ConnectAllStops(g: Graph, es: seq<Edge>, n: NodeId)
    requires n !in g.nodes && Plain(n, n) in es
    requires forall e :: e in es ==> (e.from in g.nodes || e.from == n) && (e.to in g.nodes || e.to == n)
    ensures g.ConnectAll(es).1 == Err(MissingNode(n)) && g.ConnectAll(es).0.nodes == g.nodes
    decreases |es|
  {
    var (g1, r) := g.Connect(es[0]);
    if r.Ok? { ConnectAllStops(g1, es[1..], n); }
  }
}
