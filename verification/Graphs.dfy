/**
 The flow graph as a value: its node ids, its edges in insertion order, its marks and the
 feedback allow-list. The stored graph keeps an adjacency index beside the edge list;
 `Targets` is what that index must say.
 */
module Graphs {
  import opened Wrappers
  import opened Packets
  import opened Modules
  import opened Digraphs

  datatype EdgeType = Sequential | Conditional | Parallel | Fallback

  datatype Edge = Edge(from: NodeId, to: NodeId, edgeType: EdgeType, condition: Option<Condition>)
  {
    predicate Accepts(p: Packet) {
      condition.Some? ==> condition.value.Evaluate(p)
    }

    function Link(): (NodeId, NodeId) { (from, to) }
  }

  function Plain(from: NodeId, to: NodeId): Edge { Edge(from, to, Sequential, None) }

  /** The targets of a node's edges, in order and with multiplicity. */
  function Targets(edges: seq<Edge>, n: NodeId): seq<NodeId> {
    if edges == [] then []
    else if edges[0].from == n then [edges[0].to] + Targets(edges[1..], n)
    else Targets(edges[1..], n)
  }

  /** The sources of the edges into a node, in order and with multiplicity. */
  function Origins(edges: seq<Edge>, n: NodeId): seq<NodeId> {
    if edges == [] then []
    else if edges[0].to == n then [edges[0].from] + Origins(edges[1..], n)
    else Origins(edges[1..], n)
  }

  /** At most one edge comes in, or at most one goes out, so it is clear which pairs to bridge. */
  predicate Bridgeable(edges: seq<Edge>, n: NodeId) {
    |Origins(edges, n)| <= 1 || |Targets(edges, n)| <= 1
  }

  /** The edges not touching a node. */
  function Detached(edges: seq<Edge>, n: NodeId): seq<Edge> {
    if edges == [] then []
    else if edges[0].from != n && edges[0].to != n then [edges[0]] + Detached(edges[1..], n)
    else Detached(edges[1..], n)
  }

  function Without(s: seq<NodeId>, n: NodeId): seq<NodeId> {
    if s == [] then []
    else if s[0] != n then [s[0]] + Without(s[1..], n)
    else Without(s[1..], n)
  }

  function DropFirst(s: seq<NodeId>, n: NodeId): seq<NodeId> {
    if s == [] then [] else if s[0] == n then s[1..] else [s[0]] + DropFirst(s[1..], n)
  }

  /** The position of the first edge between two nodes, or the edge count. */
  function Position(edges: seq<Edge>, from: NodeId, to: NodeId): (i: nat)
    ensures i <= |edges|
    ensures i < |edges| ==> edges[i].Link() == (from, to)
    ensures forall k :: 0 <= k < i ==> edges[k].Link() != (from, to)
  {
    if edges == [] then 0
    else if edges[0].Link() == (from, to) then 0
    else 1 + Position(edges[1..], from, to)
  }

  /** The position of the first edge out of a node, or the edge count. */
  function PositionFrom(edges: seq<Edge>, from: NodeId): (i: nat)
    ensures i <= |edges|
    ensures i < |edges| ==> edges[i].from == from
    ensures forall k :: 0 <= k < i ==> edges[k].from != from
  {
    if edges == [] then 0
    else if edges[0].from == from then 0
    else 1 + PositionFrom(edges[1..], from)
  }

  function RemoveAt(edges: seq<Edge>, i: nat): seq<Edge>
    requires i < |edges|
  {
    edges[..i] + edges[i + 1..]
  }

  function Mark(s: seq<NodeId>, n: NodeId): seq<NodeId> { if n in s then s else s + [n] }

  /** One plain edge from every predecessor to every successor. */
  function Bridges(preds: seq<NodeId>, succs: seq<NodeId>): seq<Edge> {
    if preds == [] then [] else BridgesFrom(preds[0], succs) + Bridges(preds[1..], succs)
  }

  function BridgesFrom(pred: NodeId, succs: seq<NodeId>): seq<Edge> {
    if succs == [] then [] else [Plain(pred, succs[0])] + BridgesFrom(pred, succs[1..])
  }

  datatype Graph = Graph(
    nodes: set<NodeId>,
    edges: seq<Edge>,
    entries: seq<NodeId>,
    exits: seq<NodeId>,
    allowed: set<(NodeId, NodeId)>)
  {
    ghost predicate WellFormed() {
      && (forall e :: e in edges ==> e.from in nodes && e.to in nodes)
      && Distinct(entries) && Distinct(exits)
    }

    /** The edge relation execution follows. */
    function Links(): set<(NodeId, NodeId)> {
      set e | e in edges :: e.Link()
    }

    /** The edge relation cycle detection looks at. */
    function Checked(): set<(NodeId, NodeId)> {
      Links() - allowed
    }

    // ----- What validation asks -----------------------------------------

    ghost predicate CanReach(from: NodeId, to: NodeId) {
      from in nodes && to in nodes && Reaches(Links(), from, to)
    }

    ghost predicate ReachesExit(entry: NodeId) {
      exists i :: 0 <= i < |exits| && CanReach(entry, exits[i])
    }

    ghost predicate Touched(n: NodeId) {
      exists e :: e in edges && (e.from == n || e.to == n)
    }

    ghost predicate Orphaned(n: NodeId) {
      n in nodes && n !in entries && n !in exits && !Touched(n)
    }

    /** What `validate` accepts. */
    ghost predicate Sound() {
      && Acyclic(Checked())
      && (forall n :: n in entries ==> ReachesExit(n))
      && (forall n :: n in nodes ==> !Orphaned(n))
    }

    /** What each error `validate` reports says about the graph. */
    ghost predicate Faulty(error: GraphError) {
      match error
      case Cycle(cycle) => IsCycle(Checked(), cycle)
      case BuildFailed(UnreachableExit(entry)) => Acyclic(Checked()) && entry in entries && !ReachesExit(entry)
      case BuildFailed(Orphan(n)) =>
        Acyclic(Checked()) && (forall m :: m in entries ==> ReachesExit(m)) && Orphaned(n)
      case _ => false
    }

    // ----- Mutations ----------------------------------------------------

    function AddNode(n: NodeId, kind: NodeType): Graph {
      this.(nodes := nodes + {n},
            entries := if kind.Source? then Mark(entries, n) else entries,
            exits := if kind.Sink? then Mark(exits, n) else exits)
    }

    function RemoveNode(n: NodeId): Graph {
      if n !in nodes then this
      else this.(nodes := nodes - {n},
                 edges := Detached(edges, n),
                 entries := Without(entries, n),
                 exits := Without(exits, n))
    }

    function Connect(e: Edge): (Graph, Result<(), GraphError>) {
      if e.from !in nodes then (this, Err(MissingNode(e.from)))
      else if e.to !in nodes then (this, Err(MissingNode(e.to)))
      else (this.(edges := edges + [e]), Ok(()))
    }

    /** Connect edges in order, stopping at the first failure. */
    function ConnectAll(es: seq<Edge>): (Graph, Result<(), GraphError>)
      decreases |es|
    {
      if es == [] then (this, Ok(()))
      else
        var (g, r) := Connect(es[0]);
        if r.Ok? then g.ConnectAll(es[1..]) else (g, r)
    }

    lemma {:induction false} ConnectAllAppend(s: seq<Edge>, t: seq<Edge>)
      ensures var (g, r) := ConnectAll(s);
              ConnectAll(s + t) == if r.Ok? then g.ConnectAll(t) else (g, r)
      decreases |s|
    {
      if s == [] {
        assert s + t == t;
      } else {
        assert (s + t)[0] == s[0] && (s + t)[1..] == s[1..] + t;
        var (g, r) := Connect(s[0]);
        if r.Ok? { g.ConnectAllAppend(s[1..], t); }
      }
    }

    function Disconnect(from: NodeId, to: NodeId): (Graph, Option<Edge>) {
      var i := Position(edges, from, to);
      if i < |edges| then (this.(edges := RemoveAt(edges, i)), Some(edges[i])) else (this, None)
    }

    function InsertAfter(after: NodeId, n: NodeId, kind: NodeType): (Graph, Result<(), GraphError>) {
      var out := Targets(edges, after);
      if after !in nodes then (this, Err(MissingNode(after)))
      else if |out| > 1 then (this, Err(BuildFailed(AmbiguousInsert(after, |out|))))
      else
        var g := AddNode(n, kind);
        var i := PositionFrom(edges, after);
        if i < |edges| then
          var cut := edges[i];
          (g.(edges := RemoveAt(edges, i) +
                       [Edge(after, n, cut.edgeType, cut.condition), Plain(n, cut.to)]), Ok(()))
        else (g.(edges := edges + [Plain(after, n)]), Ok(()))
    }

    /**
     A node that feeds itself is its own predecessor, so bridging then names a node that is already
     gone: the call fails after the removal has taken place.
     */
    function RemoveAndReconnect(n: NodeId): (Graph, Result<(), GraphError>) {
      var preds := Origins(edges, n);
      var succs := Targets(edges, n);
      if n !in nodes then (this, Err(MissingNode(n)))
      else if !Bridgeable(edges, n) then (this, Err(BuildFailed(ManyToMany(n, |preds|, |succs|))))
      else RemoveNode(n).ConnectAll(Bridges(preds, succs))
    }
  }

  const EMPTY_GRAPH := Graph({}, [], [], [], {})

  // ----- Facts about the index ------------------------------------------

  lemma {:induction false} TargetsAppend(s: seq<Edge>, t: seq<Edge>, n: NodeId)
    ensures Targets(s + t, n) == Targets(s, n) + Targets(t, n)
  {
    if s == [] {
      assert s + t == t;
    } else {
      TargetsAppend(s[1..], t, n);
      assert (s + t)[0] == s[0] && (s + t)[1..] == s[1..] + t;
    }
  }

  lemma {:induction false} TargetsIn(edges: seq<Edge>, n: NodeId, t: NodeId)
    ensures t in Targets(edges, n) <==> exists e :: e in edges && e.Link() == (n, t)
  {
    if edges != [] {
      TargetsIn(edges[1..], n, t);
      assert edges[0] in edges && forall e :: e in edges <==> e == edges[0] || e in edges[1..];
      assert edges[0].Link() == (n, t) <==> edges[0].from == n && edges[0].to == t;
    }
  }

  lemma {:induction false} OriginsIn(edges: seq<Edge>, n: NodeId, t: NodeId)
    ensures t in Origins(edges, n) <==> exists e :: e in edges && e.Link() == (t, n)
  {
    if edges != [] {
      OriginsIn(edges[1..], n, t);
      assert edges[0] in edges && forall e :: e in edges <==> e == edges[0] || e in edges[1..];
      assert edges[0].Link() == (t, n) <==> edges[0].from == t && edges[0].to == n;
    }
  }

  lemma {:induction false} TargetsDetached(edges: seq<Edge>, gone: NodeId, n: NodeId)
    ensures Targets(Detached(edges, gone), n) ==
            if n == gone then [] else Without(Targets(edges, n), gone)
  {
    if edges != [] {
      TargetsDetached(edges[1..], gone, n);
    }
  }

  lemma {:induction false} DetachedIn(edges: seq<Edge>, n: NodeId, e: Edge)
    ensures e in Detached(edges, n) <==> e in edges && e.from != n && e.to != n
  {
    if edges != [] { DetachedIn(edges[1..], n, e); }
  }

  lemma {:induction false} WithoutIn(s: seq<NodeId>, n: NodeId, x: NodeId)
    ensures x in Without(s, n) <==> x in s && x != n
  {
    if s != [] { WithoutIn(s[1..], n, x); }
  }

  lemma {:induction false} WithoutDistinct(s: seq<NodeId>, n: NodeId)
    requires Distinct(s)
    ensures Distinct(Without(s, n))
  {
    if s != [] {
      WithoutDistinct(s[1..], n);
      WithoutIn(s[1..], n, s[0]);
    }
  }

  /** Dropping the first edge between two nodes drops the first such target and nothing else. */
  lemma {:induction false} TargetsRemoveAt(edges: seq<Edge>, from: NodeId, to: NodeId, n: NodeId)
    requires Position(edges, from, to) < |edges|
    ensures Targets(RemoveAt(edges, Position(edges, from, to)), n) ==
            if n == from then DropFirst(Targets(edges, n), to) else Targets(edges, n)
  {
    var i := Position(edges, from, to);
    if i == 0 {
      assert RemoveAt(edges, i) == edges[1..];
    } else {
      TargetsRemoveAt(edges[1..], from, to, n);
      var r := RemoveAt(edges[1..], i - 1);
      assert RemoveAt(edges, i) == [edges[0]] + r;
      assert ([edges[0]] + r)[1..] == r;
    }
  }

  lemma RemoveAtIn(edges: seq<Edge>, i: nat, e: Edge)
    requires i < |edges|
    ensures e in RemoveAt(edges, i) ==> e in edges
    ensures e in edges && e != edges[i] ==> e in RemoveAt(edges, i)
  {
    var r := RemoveAt(edges, i);
    if e in edges && e != edges[i] {
      var k :| 0 <= k < |edges| && edges[k] == e;
      assert r[if k < i then k else k - 1] == e;
    }
  }

  /** With a single edge out of a node, it is the first one between its endpoints. */
  lemma {:induction false} SingleOutgoing(edges: seq<Edge>, from: NodeId)
    requires |Targets(edges, from)| <= 1
    ensures PositionFrom(edges, from) < |edges| <==> Targets(edges, from) != []
    ensures var i := PositionFrom(edges, from);
            i < |edges| ==>
              && Targets(edges, from) == [edges[i].to]
              && Position(edges, from, edges[i].to) == i
              && forall e :: e in RemoveAt(edges, i) ==> e.from != from
  {
    if edges != [] {
      if edges[0].from == from {
        assert RemoveAt(edges, 0) == edges[1..];
        forall e | e in edges[1..] ensures e.from != from {
          TargetsIn(edges[1..], from, e.to);
        }
      } else {
        SingleOutgoing(edges[1..], from);
        var i := PositionFrom(edges, from);
        if i < |edges| {
          assert RemoveAt(edges, i) == [edges[0]] + RemoveAt(edges[1..], i - 1);
        }
      }
    }
  }
}
