/**
 The stored flow graph: nodes, the edge list, and the adjacency index kept beside it. `Valid` ties
 the two representations together; every operation is proved to keep it and to do to the abstract
 graph what `Graphs` says.
 */
module FlowGraphs {
  import opened Wrappers
  import opened Packets
  import opened Modules
  import opened Digraphs
  import opened Graphs
  import opened NodeQueues
  import LaneQueues
  import CycleSearch
  import PathSearch

  datatype NodeState = Uninitialized | Initializing | Running | Degraded | Stopping | Stopped

  const DEFAULT_QUEUE_CAPACITY: nat := 64

  class GraphNode {
    const id: NodeId
    const module_: Module
    const queue: NodeQueue
    var state: NodeState
    /** The packets the module has been run on: all it can know. */
    var handed: seq<Packet>

    constructor (id: NodeId, m: Module, capacity: nat)
      requires capacity >= 1
      ensures this.id == id && module_ == m && state == Uninitialized && handed == []
      ensures fresh(queue) && queue.Valid() && queue.capacity == capacity && queue.Contents() == NO_PACKETS
    {
      this.id, module_, state, handed := id, m, Uninitialized, [];
      queue := new NodeQueue(capacity);
    }

    /** Run the module, provided nobody else holds a reference to it. */
    method Process(p: Packet) returns (r: Response)
      modifies this`handed
      ensures handed == module_.Handed(old(handed), p)
      ensures r == if module_.exclusive then module_.respond(old(handed), p)
                   else Response(Fail(NotExclusivelyOwned(module_.name)), 0)
    {
      if module_.exclusive {
        r := module_.respond(handed, p);
        handed := handed + [p];
      } else {
        r := Response(Fail(NotExclusivelyOwned(module_.name)), 0);
      }
    }

    method Initialize() returns (error: Option<ModuleError>)
      modifies this`state
      ensures error == if module_.exclusive then module_.initResult
                       else Some(NotExclusivelyOwned(module_.name))
      ensures state == if error.None? then Running else Initializing
    {
      state := Initializing;
      error := if module_.exclusive then module_.initResult else Some(NotExclusivelyOwned(module_.name));
      if error.None? { state := Running; }
    }

    method Shutdown() returns (error: Option<ModuleError>)
      modifies this`state
      ensures error == if module_.exclusive then module_.shutdownResult
                       else Some(NotExclusivelyOwned(module_.name))
      ensures state == if error.None? then Stopped else Stopping
    {
      state := Stopping;
      error := if module_.exclusive then module_.shutdownResult else Some(NotExclusivelyOwned(module_.name));
      if error.None? { state := Stopped; }
    }
  }

  class FlowGraph {
    var nodes: map<NodeId, GraphNode>
    var edges: seq<Edge>
    var adjacency: map<NodeId, seq<NodeId>>
    var entryPoints: seq<NodeId>
    var exitPoints: seq<NodeId>
    var allowedFeedback: set<(NodeId, NodeId)>

    ghost function Abstract(): Graph
      reads this
    {
      Graph.Graph(nodes.Keys, edges, entryPoints, exitPoints, allowedFeedback)
    }

    /** The index lists exactly the targets of each node's edges, and every id means itself. */
    ghost predicate Valid()
      reads this
    {
      && adjacency.Keys == nodes.Keys
      && Indexes(adjacency, edges)
      && Owned(nodes)
      && Abstract().WellFormed()
    }

    constructor ()
      ensures Valid() && Abstract() == EMPTY_GRAPH && nodes == map[]
    {
      nodes, edges, adjacency, entryPoints, exitPoints, allowedFeedback := map[], [], map[], [], [], {};
    }

    /** The two representations describe the same edge relation. */
    lemma IndexAgrees()
      requires Valid()
      ensures CycleSearch.IndexLinks(adjacency) == Abstract().Links()
      ensures CycleSearch.TargetsIndexed(adjacency)
    {
      forall n, t: NodeId | n in adjacency ensures t in adjacency[n] <==> (n, t) in Abstract().Links() {
        TargetsIn(edges, n, t);
        if (n, t) in Abstract().Links() {
          var e :| e in edges && e.Link() == (n, t);
        }
      }
      forall p | p in Abstract().Links() ensures p in CycleSearch.IndexLinks(adjacency) {
        var e :| e in edges && e.Link() == p;
        assert p == (p.0, p.1) && p.0 in adjacency;
      }
    }

    // ----- Marks ----------------------------------------------------------

    method MarkEntryPoint(n: NodeId)
      requires Valid()
      modifies this`entryPoints
      ensures Valid() && entryPoints == Mark(old(entryPoints), n)
    {
      if n !in entryPoints { entryPoints := entryPoints + [n]; }
    }

    method MarkExitPoint(n: NodeId)
      requires Valid()
      modifies this`exitPoints
      ensures Valid() && exitPoints == Mark(old(exitPoints), n)
    {
      if n !in exitPoints { exitPoints := exitPoints + [n]; }
    }

    method AllowFeedbackEdge(from: NodeId, to: NodeId)
      requires Valid()
      modifies this`allowedFeedback
      ensures Valid() && Abstract() == old(Abstract()).(allowed := old(allowedFeedback) + {(from, to)})
    {
      allowedFeedback := allowedFeedback + {(from, to)};
    }

    // ----- Nodes and edges ------------------------------------------------

    /** The node is given away to the graph, so its queue is nobody else's. */
    method AddNode(node: GraphNode)
      requires Valid()
      requires forall n :: n in nodes && n != node.id ==> nodes[n].queue != node.queue
      modifies this
      ensures Valid() && Abstract() == old(Abstract()).AddNode(node.id, node.module_.nodeType)
      ensures nodes == old(nodes)[node.id := node]
    {
      var id := node.id;
      if node.module_.nodeType.Source? {
        MarkEntryPoint(id);
      } else if node.module_.nodeType.Sink? {
        MarkExitPoint(id);
      }
      OwnedAdd(nodes, node);
      AdditionWellFormed(old(Abstract()), id, node.module_.nodeType);
      nodes := nodes[id := node];
      if id !in adjacency {
        IndexesNew(adjacency, edges, id);
        adjacency := adjacency[id := []];
      }
      assert Abstract() == old(Abstract()).AddNode(id, node.module_.nodeType);
    }

    method RemoveNode(id: NodeId) returns (removed: Option<GraphNode>)
      requires Valid()
      modifies this
      ensures Valid() && Abstract() == old(Abstract()).RemoveNode(id)
      ensures nodes == old(nodes) - {id}
      ensures removed == if id in old(nodes) then Some(old(nodes)[id]) else None
    {
      if id !in nodes {
        assert nodes - {id} == nodes;
        return None;
      }
      removed := Some(nodes[id]);
      nodes := nodes - {id};
      assert nodes.Keys == old(nodes).Keys - {id};
      IndexesDetached(adjacency, edges, id);
      RemovalWellFormed(old(Abstract()), id);
      edges := Detached(edges, id);
      ForgetTarget(id);
      entryPoints := Without(entryPoints, id);
      exitPoints := Without(exitPoints, id);
      assert Abstract() == old(Abstract()).RemoveNode(id);
    }

    /** Drop a node's own list, and the node from every other list. */
    method ForgetTarget(id: NodeId)
      modifies this`adjacency
      ensures adjacency == Forgotten(old(adjacency), id)
    {
      ghost var was := adjacency;
      adjacency := adjacency - {id};
      var rest := adjacency.Keys;
      while rest != {}
        invariant rest <= adjacency.Keys == was.Keys - {id}
        invariant forall n :: n in adjacency ==>
                    adjacency[n] == (if n in rest then was[n] else Without(was[n], id))
        decreases rest
      {
        var n :| n in rest;
        adjacency := adjacency[n := Without(adjacency[n], id)];
        rest := rest - {n};
      }
    }

    method Connect(e: Edge) returns (r: Result<(), GraphError>)
      requires Valid()
      modifies this`edges, this`adjacency
      ensures Valid() && (Abstract(), r) == old(Abstract()).Connect(e)
    {
      if e.from !in nodes { return Err(MissingNode(e.from)); }
      if e.to !in nodes { return Err(MissingNode(e.to)); }
      IndexesConnect(adjacency, edges, e);
      adjacency := adjacency[e.from := adjacency[e.from] + [e.to]];
      edges := edges + [e];
      r := Ok(());
    }

    /** A connection whose ends are known to be there cannot fail. */
    method Attach(e: Edge)
      requires Valid() && e.from in nodes && e.to in nodes
      modifies this`edges, this`adjacency
      ensures Valid() && edges == old(edges) + [e]
    {
      var _ := Connect(e);
    }

    method Disconnect(from: NodeId, to: NodeId) returns (removed: Option<Edge>)
      requires Valid()
      modifies this`edges, this`adjacency
      ensures Valid() && (Abstract(), removed) == old(Abstract()).Disconnect(from, to)
    {
      var i := Position(edges, from, to);
      if i == |edges| { return None; }
      removed := Some(edges[i]);
      RemoveEdge(i);
    }

    /** Take the edge at `i`, the first between its endpoints, out of both representations. */
    method RemoveEdge(i: nat)
      requires Valid() && i < |edges| && i == Position(edges, edges[i].from, edges[i].to)
      modifies this`edges, this`adjacency
      ensures Valid() && edges == RemoveAt(old(edges), i)
    {
      var e := edges[i];
      IndexesRemove(adjacency, edges, i);
      forall x | x in RemoveAt(edges, i) ensures x in edges { RemoveAtIn(edges, i, x); }
      assert e in edges;
      edges := edges[..i] + edges[i + 1..];
      adjacency := adjacency[e.from := DropFirst(adjacency[e.from], e.to)];
    }

    // ----- Rewiring -------------------------------------------------------

    method InsertAfter(after: NodeId, node: GraphNode) returns (r: Result<(), GraphError>)
      requires Valid()
      requires forall n :: n in nodes && n != node.id ==> nodes[n].queue != node.queue
      modifies this
      ensures Valid()
      ensures (Abstract(), r) == old(Abstract()).InsertAfter(after, node.id, node.module_.nodeType)
      ensures nodes == if r.Ok? then old(nodes)[node.id := node] else old(nodes)
    {
      if after !in nodes { return Err(MissingNode(after)); }
      var outgoing := |Targets(edges, after)|;
      if outgoing > 1 { return Err(BuildFailed(AmbiguousInsert(after, outgoing))); }
      SingleOutgoing(edges, after);
      var i := PositionFrom(edges, after);
      AddNode(node);
      if i < |edges| {
        Splice(i, node.id);
      } else {
        var _ := Connect(Plain(after, node.id));
      }
      r := Ok(());
    }

    /** Route the edge at `i` through `n`, which keeps its type and condition on the first half. */
    method Splice(i: nat, n: NodeId)
      requires Valid() && n in nodes
      requires i < |edges| && i == Position(edges, edges[i].from, edges[i].to)
      modifies this`edges, this`adjacency
      ensures Valid()
      ensures var cut := old(edges)[i];
              edges == RemoveAt(old(edges), i) +
                       [Edge(cut.from, n, cut.edgeType, cut.condition), Plain(n, cut.to)]
    {
      var cut := edges[i];
      assert cut in edges;
      RemoveEdge(i);
      Attach(Edge(cut.from, n, cut.edgeType, cut.condition));
      Attach(Plain(n, cut.to));
    }

    /** Hands the node back, unless a bridge failed: then the node is gone and not handed back. */
    method RemoveAndReconnect(id: NodeId) returns (r: Result<GraphNode, GraphError>)
      requires Valid()
      modifies this
      ensures Valid() && Abstract() == old(Abstract()).RemoveAndReconnect(id).0
      ensures r == (match old(Abstract()).RemoveAndReconnect(id).1
                    case Ok(_) => Ok(old(nodes)[id])
                    case Err(e) => Err(e))
      ensures nodes == if Bridgeable(old(edges), id) then old(nodes) - {id} else old(nodes)
    {
      if id !in nodes {
        assert nodes - {id} == nodes;
        return Err(MissingNode(id));
      }
      var predecessors, successors := Origins(edges, id), Targets(edges, id);
      if |predecessors| > 1 && |successors| > 1 {
        return Err(BuildFailed(ManyToMany(id, |predecessors|, |successors|)));
      }
      var removed := RemoveNode(id);
      var bridged := Bridge(predecessors, successors);
      r := if bridged.Ok? then Ok(removed.value) else Err(bridged.error);
    }

    /** Connect every predecessor of a removed node to every successor, until one cannot be. */
    method Bridge(predecessors: seq<NodeId>, successors: seq<NodeId>) returns (r: Result<(), GraphError>)
      requires Valid()
      modifies this`edges, this`adjacency
      ensures Valid() && (Abstract(), r) == old(Abstract()).ConnectAll(Bridges(predecessors, successors))
    {
      ghost var bare := Abstract();
      var i := 0;
      assert predecessors[0..] == predecessors;
      while i < |predecessors|
        invariant i <= |predecessors| && Valid()
        invariant bare.ConnectAll(Bridges(predecessors, successors)) ==
                  Abstract().ConnectAll(Bridges(predecessors[i..], successors))
      {
        assert predecessors[i..][1..] == predecessors[i + 1..];
        Abstract().ConnectAllAppend(
          BridgesFrom(predecessors[i], successors), Bridges(predecessors[i + 1..], successors));
        r := BridgeFrom(predecessors[i], successors);
        if r.Err? { return; }
        i := i + 1;
      }
      r := Ok(());
    }

    /** Connect one predecessor of a removed node to each of its successors. */
    method BridgeFrom(predecessor: NodeId, successors: seq<NodeId>) returns (r: Result<(), GraphError>)
      requires Valid()
      modifies this`edges, this`adjacency
      ensures Valid() && (Abstract(), r) == old(Abstract()).ConnectAll(BridgesFrom(predecessor, successors))
    {
      ghost var bare := Abstract();
      var j := 0;
      r := Ok(());
      assert successors[0..] == successors;
      while j < |successors|
        invariant j <= |successors| && Valid() && r == Ok(())
        invariant bare.ConnectAll(BridgesFrom(predecessor, successors)) ==
                  Abstract().ConnectAll(BridgesFrom(predecessor, successors[j..]))
      {
        assert successors[j..][1..] == successors[j + 1..];
        r := Connect(Plain(predecessor, successors[j]));
        if r.Err? { return; }
        j := j + 1;
      }
    }

    // ----- Queries --------------------------------------------------------

    method DetectCycle() returns (cycle: Option<seq<NodeId>>)
      requires Valid()
      ensures cycle.Some? ==> IsCycle(Abstract().Checked(), cycle.value)
      ensures cycle.None? <==> Acyclic(Abstract().Checked())
    {
      IndexAgrees();
      var search := new CycleSearch.Search(adjacency, allowedFeedback);
      cycle := search.Run();
    }

    method FindPath(from: NodeId, to: NodeId) returns (path: Option<seq<NodeId>>)
      requires Valid()
      ensures path.Some? ==> PathSearch.Shortest(Abstract().Links(), path.value, from, to)
      ensures path.None? <==> !Abstract().CanReach(from, to)
    {
      IndexAgrees();
      path := PathSearch.FindPath(adjacency, from, to);
    }

    /** Ok exactly on a sound graph; otherwise the first fault found, which is a real one. */
    method Validate() returns (r: Result<(), GraphError>)
      requires Valid()
      ensures r.Ok? <==> Abstract().Sound()
      ensures r.Err? ==> Abstract().Faulty(r.error)
    {
      var cycle := DetectCycle();
      if cycle.Some? { return Err(Cycle(cycle.value)); }
      var i := 0;
      while i < |entryPoints|
        invariant i <= |entryPoints|
        invariant forall k :: 0 <= k < i ==> Abstract().ReachesExit(entryPoints[k])
      {
        var reaches := CanExit(entryPoints[i]);
        if !reaches { return Err(BuildFailed(UnreachableExit(entryPoints[i]))); }
        i := i + 1;
      }
      var rest := nodes.Keys;
      while rest != {}
        invariant rest <= nodes.Keys
        invariant forall n :: n in nodes && n !in rest ==> !Abstract().Orphaned(n)
        decreases rest
      {
        var id :| id in rest;
        rest := rest - {id};
        if id !in entryPoints && id !in exitPoints {
          var hasIncoming := exists e | e in edges :: e.to == id;
          var hasOutgoing := adjacency[id] != [];
          assert hasOutgoing <==> exists e :: e in edges && e.from == id by {
            if hasOutgoing { TargetsIn(edges, id, adjacency[id][0]); }
            if e :| e in edges && e.from == id { TargetsIn(edges, id, e.to); }
          }
          if !hasIncoming && !hasOutgoing { return Err(BuildFailed(Orphan(id))); }
        }
      }
      r := Ok(());
    }

    /** Whether some exit mark can be reached. */
    method CanExit(entry: NodeId) returns (reaches: bool)
      requires Valid()
      ensures reaches == Abstract().ReachesExit(entry)
    {
      var j := 0;
      while j < |exitPoints|
        invariant j <= |exitPoints|
        invariant forall k :: 0 <= k < j ==> !Abstract().CanReach(entry, exitPoints[k])
      {
        var path := FindPath(entry, exitPoints[j]);
        if path.Some? { return true; }
        j := j + 1;
      }
      reaches := false;
    }
  }

  // ----- Keeping the index ------------------------------------------------

  type Index = map<NodeId, seq<NodeId>>

  ghost predicate Indexes(adjacency: Index, edges: seq<Edge>) {
    forall n :: n in adjacency ==> adjacency[n] == Targets(edges, n)
  }

  /** Nodes are stored under their own ids, and no two share a queue. */
  ghost predicate Owned(nodes: map<NodeId, GraphNode>) {
    && (forall n :: n in nodes ==> nodes[n].id == n)
    && forall m, n :: m in nodes && n in nodes && m != n ==> nodes[m].queue != nodes[n].queue
  }

  lemma OwnedAdd(nodes: map<NodeId, GraphNode>, node: GraphNode)
    requires Owned(nodes)
    requires forall n :: n in nodes && n != node.id ==> nodes[n].queue != node.queue
    ensures Owned(nodes[node.id := node]) && nodes[node.id := node].Keys == nodes.Keys + {node.id}
  {
  }

  lemma {:induction false} NoTargets(edges: seq<Edge>, n: NodeId)
    requires forall e :: e in edges ==> e.from != n
    ensures Targets(edges, n) == []
  {
    if edges != [] { NoTargets(edges[1..], n); }
  }

  lemma IndexesNew(adjacency: Index, edges: seq<Edge>, n: NodeId)
    requires Indexes(adjacency, edges) && forall e :: e in edges ==> e.from in adjacency
    requires n !in adjacency
    ensures Indexes(adjacency[n := []], edges) && adjacency[n := []].Keys == adjacency.Keys + {n}
  {
    NoTargets(edges, n);
  }

  lemma IndexesConnect(adjacency: Index, edges: seq<Edge>, e: Edge)
    requires Indexes(adjacency, edges) && e.from in adjacency
    ensures Indexes(adjacency[e.from := adjacency[e.from] + [e.to]], edges + [e])
  {
    forall n ensures Targets(edges + [e], n) == Targets(edges, n) + if n == e.from then [e.to] else [] {
      TargetsAppend(edges, [e], n);
    }
  }

  lemma IndexesRemove(adjacency: Index, edges: seq<Edge>, i: nat)
    requires Indexes(adjacency, edges) && i < |edges| && edges[i].from in adjacency
    requires i == Position(edges, edges[i].from, edges[i].to)
    ensures Indexes(adjacency[edges[i].from := DropFirst(adjacency[edges[i].from], edges[i].to)], RemoveAt(edges, i))
  {
    forall n ensures Targets(RemoveAt(edges, i), n) ==
                     if n == edges[i].from then DropFirst(Targets(edges, n), edges[i].to) else Targets(edges, n) {
      TargetsRemoveAt(edges, edges[i].from, edges[i].to, n);
    }
  }

  /** The index without a node's own list and without the node in any other. */
  function Forgotten(adjacency: Index, id: NodeId): Index {
    map n | n in adjacency && n != id :: Without(adjacency[n], id)
  }

  lemma IndexesDetached(adjacency: Index, edges: seq<Edge>, id: NodeId)
    requires Indexes(adjacency, edges)
    ensures Indexes(Forgotten(adjacency, id), Detached(edges, id))
    ensures Forgotten(adjacency, id).Keys == adjacency.Keys - {id}
  {
    forall n | n in Forgotten(adjacency, id)
      ensures Forgotten(adjacency, id)[n] == Targets(Detached(edges, id), n)
    {
      TargetsDetached(edges, id, n);
    }
  }

  lemma AdditionWellFormed(g: Graph, id: NodeId, kind: NodeType)
    requires g.WellFormed()
    ensures g.AddNode(id, kind).WellFormed()
  {
  }

  lemma RemovalWellFormed(g: Graph, id: NodeId)
    requires g.WellFormed()
    ensures g.RemoveNode(id).WellFormed()
  {
    WithoutDistinct(g.entries, id);
    WithoutDistinct(g.exits, id);
    forall e | e in Detached(g.edges, id) ensures e in g.edges && e.from != id && e.to != id {
      DetachedIn(g.edges, id, e);
    }
  }
}
