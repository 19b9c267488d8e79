/**
 Building a linear graph from a profile's stack of module names. The builder is a small compiler:
 running the graph it builds is running the modules in stack order.
 */
module GraphBuilder {
  import opened Wrappers
  import opened Packets
  import opened Modules
  import opened Digraphs
  import opened Listings
  import opened Graphs
  import opened LaneQueues
  import opened NodeQueues
  import opened FlowGraphs
  import opened Walks
  import opened SequentialExecution
  import opened Traces

  datatype BuildError = UnknownModule(name: string) | Rejected(reason: GraphError)

  /** Looks a module up by name; it may answer differently each time it is asked. */
  type Resolver = (nat, string) -> Option<Module>

  // ----- The graph of a stack ---------------------------------------------

  function Zip<V>(ids: seq<NodeId>, values: seq<V>): map<NodeId, V>
    requires |ids| == |values|
  {
    if ids == [] then map[]
    else var last := |ids| - 1; Zip(ids[..last], values[..last])[ids[last] := values[last]]
  }

  function Repeat<V>(n: nat, v: V): seq<V> { seq(n, _ => v) }

  /** The ids of the modules of one kind, in stack order. */
  function OfKind(ids: seq<NodeId>, modules: seq<Module>, kind: NodeType): seq<NodeId>
    requires |ids| == |modules|
  {
    if ids == [] then []
    else
      var last := |ids| - 1;
      var before := OfKind(ids[..last], modules[..last], kind);
      if modules[last].nodeType == kind then before + [ids[last]] else before
  }

  /** A plain edge from each of the first `n` nodes to the next. */
  function Chain(ids: seq<NodeId>, n: nat): seq<Edge>
    requires n == 0 || n < |ids|
  {
    if n == 0 then [] else Chain(ids, n - 1) + [Plain(ids[n - 1], ids[n])]
  }

  /** Unconnected nodes, with the marks that adding them sets. */
  function Loose(ids: seq<NodeId>, modules: seq<Module>): Net
    requires |ids| == |modules|
  {
    Net(Zip(ids, modules), [], OfKind(ids, modules, Source), OfKind(ids, modules, Sink),
        Zip(ids, Repeat(|ids|, DEFAULT_QUEUE_CAPACITY)))
  }

  /** What the builder makes of a stack. */
  function ChainNet(ids: seq<NodeId>, modules: seq<Module>): Net
    requires |ids| == |modules|
  {
    if ids == [] then Loose(ids, modules)
    else
      var loose := Loose(ids, modules);
      loose.(edges := Chain(ids, |ids| - 1),
             entries := Mark(loose.entries, ids[0]),
             exits := Mark(loose.exits, ids[|ids| - 1]))
  }

  // ----- Facts about it ---------------------------------------------------

  lemma {:induction false} ZipAt<V>(ids: seq<NodeId>, values: seq<V>)
    requires |ids| == |values| && Distinct(ids)
    ensures forall n: NodeId :: n in Zip(ids, values) <==> n in ids
    ensures forall i :: 0 <= i < |ids| ==> Zip(ids, values)[ids[i]] == values[i]
  {
    if ids != [] {
      var last := |ids| - 1;
      ZipAt(ids[..last], values[..last]);
      assert ids == ids[..last] + [ids[last]];
    }
  }

  lemma {:induction false} OfKindIn(ids: seq<NodeId>, modules: seq<Module>, kind: NodeType)
    requires |ids| == |modules| && Distinct(ids)
    ensures forall i :: 0 <= i < |ids| ==> (ids[i] in OfKind(ids, modules, kind) <==> modules[i].nodeType == kind)
    ensures forall n :: n in OfKind(ids, modules, kind) ==> n in ids
    ensures Distinct(OfKind(ids, modules, kind))
  {
    if ids != [] {
      var last := |ids| - 1;
      OfKindIn(ids[..last], modules[..last], kind);
      assert ids == ids[..last] + [ids[last]];
      assert ids[last] !in ids[..last];
    }
  }

  lemma {:induction false} ChainEdgesAre(ids: seq<NodeId>, n: nat)
    requires n == 0 || n < |ids|
    ensures |Chain(ids, n)| == n
    ensures forall i :: 0 <= i < n ==> Chain(ids, n)[i] == Plain(ids[i], ids[i + 1])
  {
    if n > 0 { ChainEdgesAre(ids, n - 1); }
  }

  lemma {:induction false} AcceptingAppend(s: seq<Edge>, t: seq<Edge>, n: NodeId, p: Packet)
    ensures Accepting(s + t, n, p) == Accepting(s, n, p) + Accepting(t, n, p)
  {
    if s == [] {
      assert s + t == t;
    } else {
      assert (s + t)[0] == s[0] && (s + t)[1..] == s[1..] + t;
      AcceptingAppend(s[1..], t, n, p);
    }
  }

  /** Each node's one edge leads to the next, and accepts everything. */
  lemma {:induction false} ChainAccepting(ids: seq<NodeId>, n: nat, i: nat, p: Packet)
    requires (n == 0 || n < |ids|) && i < |ids| && Distinct(ids)
    ensures Accepting(Chain(ids, n), ids[i], p) == if i < n then [Plain(ids[i], ids[i + 1])] else []
  {
    if n > 0 {
      var e := Plain(ids[n - 1], ids[n]);
      ChainAccepting(ids, n - 1, i, p);
      AcceptingAppend(Chain(ids, n - 1), [e], ids[i], p);
      assert [e][1..] == [];
    }
  }

  function LinksOf(ids: seq<NodeId>): set<(NodeId, NodeId)>
    requires ids != []
  {
    set e | e in Chain(ids, |ids| - 1) :: e.Link()
  }

  lemma LinkAt(ids: seq<NodeId>, i: nat)
    requires i < |ids| - 1
    ensures (ids[i], ids[i + 1]) in LinksOf(ids)
    ensures Plain(ids[i], ids[i + 1]) in Chain(ids, |ids| - 1)
  {
    ChainEdgesAre(ids, |ids| - 1);
    var e := Chain(ids, |ids| - 1)[i];
    assert e in Chain(ids, |ids| - 1) && e.Link() == (ids[i], ids[i + 1]);
  }

  lemma LinkIndex(ids: seq<NodeId>, link: (NodeId, NodeId)) returns (i: nat)
    requires ids != [] && link in LinksOf(ids)
    ensures i < |ids| - 1 && link == (ids[i], ids[i + 1])
  {
    ChainEdgesAre(ids, |ids| - 1);
    var e :| e in Chain(ids, |ids| - 1) && e.Link() == link;
    i :| 0 <= i < |ids| - 1 && Chain(ids, |ids| - 1)[i] == e;
  }

  lemma LaterIsClosed(ids: seq<NodeId>, i: nat)
    requires Distinct(ids) && i < |ids|
    ensures Closed(LinksOf(ids), SetOf(ids[i..]))
  {
    forall e | e in LinksOf(ids) && e.0 in SetOf(ids[i..]) ensures e.1 in SetOf(ids[i..]) {
      var k := LinkIndex(ids, e);
      var m :| 0 <= m < |ids[i..]| && ids[i..][m] == ids[k];
      assert k == i + m;
      assert ids[i..][m + 1] == ids[k + 1];
    }
  }

  lemma ChainAcyclic(ids: seq<NodeId>)
    requires Distinct(ids) && ids != []
    ensures Acyclic(LinksOf(ids))
  {
    var E := LinksOf(ids);
    forall x: NodeId, y: NodeId | (x, y) in E ensures !Reaches(E, y, x) {
      var i := LinkIndex(ids, (x, y));
      LaterIsClosed(ids, i + 1);
      assert y == ids[i + 1..][0];
      assert x !in ids[i + 1..];
      if Reaches(E, y, x) { ReachesStaysInClosed(E, SetOf(ids[i + 1..]), y, x); }
    }
  }

  lemma ChainReaches(ids: seq<NodeId>, i: nat)
    requires i < |ids|
    ensures Reaches(LinksOf(ids), ids[i], ids[|ids| - 1])
  {
    var w := ids[i..];
    forall k | 0 <= k < |w| - 1 ensures (w[k], w[k + 1]) in LinksOf(ids) { LinkAt(ids, i + k); }
    assert IsWalkBetween(LinksOf(ids), w, ids[i], ids[|ids| - 1]);
  }

  function GraphOf(net: Net): Graph {
    Graph.Graph(net.modules.Keys, net.edges, net.entries, net.exits, {})
  }

  lemma ChainExits(ids: seq<NodeId>, modules: seq<Module>, n: NodeId)
    requires |ids| == |modules| && Distinct(ids) && n in GraphOf(ChainNet(ids, modules)).entries
    ensures GraphOf(ChainNet(ids, modules)).ReachesExit(n)
  {
    var g := GraphOf(ChainNet(ids, modules));
    ZipAt(ids, modules);
    OfKindIn(ids, modules, Source);
    var i :| 0 <= i < |ids| && ids[i] == n;
    ChainReaches(ids, i);
    assert g.Links() == LinksOf(ids);
    var j :| 0 <= j < |g.exits| && g.exits[j] == ids[|ids| - 1];
    assert g.CanReach(n, g.exits[j]);
  }

  lemma ChainHasNoOrphan(ids: seq<NodeId>, modules: seq<Module>, n: NodeId)
    requires |ids| == |modules| && Distinct(ids)
    ensures !GraphOf(ChainNet(ids, modules)).Orphaned(n)
  {
    var g := GraphOf(ChainNet(ids, modules));
    ZipAt(ids, modules);
    if n in g.nodes {
      var i :| 0 <= i < |ids| && ids[i] == n;
      if i < |ids| - 1 {
        LinkAt(ids, i);
        assert Plain(n, ids[i + 1]) in g.edges;
      } else {
        assert n in g.exits;
      }
    }
  }

  /** Validation accepts every chain. */
  lemma ChainSound(ids: seq<NodeId>, modules: seq<Module>)
    requires |ids| == |modules| && Distinct(ids)
    ensures GraphOf(ChainNet(ids, modules)).Sound()
  {
    var g := GraphOf(ChainNet(ids, modules));
    if ids == [] {
      assert g.Links() == {};
    } else {
      ChainAcyclic(ids);
      assert g.Checked() == g.Links() == LinksOf(ids);
    }
    forall n | n in g.entries ensures g.ReachesExit(n) { ChainExits(ids, modules, n); }
    forall n | n in g.nodes ensures !g.Orphaned(n) { ChainHasNoOrphan(ids, modules, n); }
  }

  // ----- What the graph computes ------------------------------------------

  /**
   The modules of a stack applied in order: the run stops at the first refusal, absorption or error,
   at a sink, and at the end of the stack.
   */
  function Compose(ids: seq<NodeId>, modules: seq<Module>, handed: Logs, p: Packet): Ending
    requires |ids| == |modules| > 0
  {
    var m := modules[0];
    if !m.WithinPayload(p) then Failed(InModule(QuotaExceeded(m.name, PayloadSize)))
    else
      match m.Process(LogAt(handed, ids[0]), p.RecordHop(ids[0]))
      case Fail(e) => Failed(InModule(e))
      case Absorb => Absorbed
      case Forward(q) =>
        if |ids| == 1 || m.nodeType.Sink? then Exited(q) else Compose(ids[1..], modules[1..], handed, q)
  }

  /** Only the histories of the modules that run matter. */
  lemma {:induction false} ComposeSame(ids: seq<NodeId>, modules: seq<Module>, a: Logs, b: Logs, p: Packet)
    requires |ids| == |modules| > 0 && forall n :: n in ids ==> LogAt(a, n) == LogAt(b, n)
    ensures Compose(ids, modules, a, p) == Compose(ids, modules, b, p)
  {
    if |ids| > 1 {
      var outcome := modules[0].Process(LogAt(a, ids[0]), p.RecordHop(ids[0]));
      if outcome.Forward? { ComposeSame(ids[1..], modules[1..], a, b, outcome.packet); }
    }
  }

  /** What a node of the chain does with a packet. */
  lemma ChainDecides(ids: seq<NodeId>, modules: seq<Module>, i: nat, outcome: Outcome)
    requires |ids| == |modules| && Distinct(ids) && i < |ids|
    ensures var net := ChainNet(ids, modules);
            && ids[i] in net.modules && net.modules[ids[i]] == modules[i]
            && Decide(net, ids[i], outcome) ==
               match outcome
               case Fail(e) => Stop(Failed(InModule(e)))
               case Absorb => Stop(Absorbed)
               case Forward(q) =>
                 if i == |ids| - 1 || modules[i].nodeType.Sink? then Stop(Exited(q)) else Continue(ids[i + 1], q)
  {
    ZipAt(ids, modules);
    OfKindIn(ids, modules, Sink);
    assert ids[i] == ids[|ids| - 1] <==> i == |ids| - 1;
    if outcome.Forward? { ChainAccepting(ids, |ids| - 1, i, outcome.packet); }
  }

  /** Running one module leaves what later ones do unchanged. */
  lemma ComposeLater(
    net: Net, ids: seq<NodeId>, modules: seq<Module>, i: nat, handed: Logs, q: Packet, p: Packet)
    requires |ids| == |modules| && Distinct(ids) && i < |ids| - 1 && ids[i] in net.modules
    ensures Compose(ids[i + 1..], modules[i + 1..], Record(net, handed, ids[i], q), p) ==
            Compose(ids[i + 1..], modules[i + 1..], handed, p)
  {
    var handed' := Record(net, handed, ids[i], q);
    forall k | k in ids[i + 1..] ensures LogAt(handed', k) == LogAt(handed, k) { assert k != ids[i]; }
    ComposeSame(ids[i + 1..], modules[i + 1..], handed', handed, p);
  }

  lemma {:induction false} ChainWalks(
    ids: seq<NodeId>, modules: seq<Module>, i: nat, handed: Logs, p: Packet, fuel: nat)
    requires |ids| == |modules| && Distinct(ids) && i < |ids| && fuel >= |ids| - i
    ensures Walk(ChainNet(ids, modules), handed, ids[i], p, fuel).ending == Compose(ids[i..], modules[i..], handed, p)
    decreases |ids| - i
  {
    var net, n, m := ChainNet(ids, modules), ids[i], modules[i];
    var q := p.RecordHop(n);
    var outcome := m.Process(LogAt(handed, n), q);
    ChainDecides(ids, modules, i, outcome);
    if m.WithinPayload(p) && outcome.Forward? && i < |ids| - 1 && !m.nodeType.Sink? {
      var handed' := Record(net, handed, n, q);
      ChainWalks(ids, modules, i + 1, handed', outcome.packet, fuel - 1);
      assert ids[i..][1..] == ids[i + 1..] && modules[i..][1..] == modules[i + 1..];
      ComposeLater(net, ids, modules, i, handed, q, outcome.packet);
    }
  }

  /** Executing a packet on the built graph is applying the modules in stack order. */
  lemma BuiltGraphComposes(ids: seq<NodeId>, modules: seq<Module>, handed: Logs, p: Packet, fuel: nat)
    requires |ids| == |modules| > 0 && Distinct(ids) && fuel >= |ids|
    ensures Execute(ChainNet(ids, modules), handed, ids[0], p, fuel).ending == Compose(ids, modules, handed, p)
  {
    ChainWalks(ids, modules, 0, handed, p, fuel);
    assert ids[0..] == ids && modules[0..] == modules;
  }

  /** The plain composition of the modules' functions. */
  function Pipeline(modules: seq<Module>, p: Packet): Outcome {
    if modules == [] then Forward(p)
    else
      var outcome := modules[0].respond([], p).outcome;
      if outcome.Forward? then Pipeline(modules[1..], outcome.packet) else outcome
  }

  /** Exclusively owned, without limits, stateless, and leaving tracing off. */
  ghost predicate Plainly(m: Module) {
    && m.exclusive && m.maxPayload.None? && m.maxTime.None? && m.Stateless()
    && forall p: Packet :: !p.traced && m.respond([], p).outcome.Forward? ==> !m.respond([], p).outcome.packet.traced
  }

  /**
   With such modules, none before the last a sink, an untraced packet goes through exactly the
   composition of the modules' functions.
   */
  lemma {:induction false} ComposeIsPipeline(ids: seq<NodeId>, modules: seq<Module>, handed: Logs, p: Packet)
    requires |ids| == |modules| > 0 && !p.traced
    requires forall m :: m in modules ==> Plainly(m)
    requires forall i :: 0 <= i < |modules| - 1 ==> !modules[i].nodeType.Sink?
    ensures Compose(ids, modules, handed, p) ==
            match Pipeline(modules, p)
            case Fail(e) => Failed(InModule(e))
            case Absorb => Absorbed
            case Forward(q) => Exited(q)
  {
    var m := modules[0];
    assert m in modules && Plainly(m);
    assert m.respond(LogAt(handed, ids[0]), p) == m.respond([], p);
    var outcome := m.respond([], p).outcome;
    if outcome.Forward? && |ids| > 1 {
      ComposeIsPipeline(ids[1..], modules[1..], handed, outcome.packet);
    } else if outcome.Forward? {
      assert modules[1..] == [];
    }
  }

  /** Exclusively owned, without limits, stateless, and not looking at traces. */
  ghost predicate PlainlyBlind(m: Module) {
    m.exclusive && m.maxPayload.None? && m.maxTime.None? && m.Stateless() && TraceBlind(m)
  }

  function EndingOf(outcome: Outcome): Ending {
    match outcome
    case Fail(e) => Failed(InModule(e))
    case Absorb => Absorbed
    case Forward(q) => Exited(q)
  }

  lemma BlindResponds(m: Module, h: seq<Packet>, p: Packet, p': Packet)
    requires PlainlyBlind(m) && Strip(p) == Strip(p')
    ensures StripOutcome(m.Process(h, p)) == StripOutcome(m.respond([], p').outcome) && m.WithinPayload(p)
  {
    assert m.respond(h, p) == m.respond([], p);
    BlindProcesses(m, [], [], p, p');
  }

  /**
   With modules that do not look at traces, none before the last a sink, every packet, traced or not, goes
   through the composition of the modules' functions, up to its trace.
   */
  lemma {:induction false} ComposeIsPipelineTraced(
    ids: seq<NodeId>, modules: seq<Module>, handed: Logs, p: Packet, p': Packet)
    requires |ids| == |modules| > 0 && Strip(p) == Strip(p')
    requires forall m :: m in modules ==> PlainlyBlind(m)
    requires forall i :: 0 <= i < |modules| - 1 ==> !modules[i].nodeType.Sink?
    ensures StripEnding(Compose(ids, modules, handed, p)) == EndingOf(StripOutcome(Pipeline(modules, p')))
  {
    var m, q := modules[0], p.RecordHop(ids[0]);
    assert m in modules && PlainlyBlind(m);
    HopsAreTrace(p, ids[0]);
    BlindResponds(m, LogAt(handed, ids[0]), q, p');
    var outcome, plain := m.Process(LogAt(handed, ids[0]), q), m.respond([], p').outcome;
    if outcome.Forward? && |ids| > 1 {
      ComposeIsPipelineTraced(ids[1..], modules[1..], handed, outcome.packet, plain.packet);
    } else if outcome.Forward? {
      assert modules[1..] == [];
    }
  }

  // ----- The builder ------------------------------------------------------

  /** The modules the stack's names resolve to, up to the first that does not. */
  function Resolved(stack: seq<string>, resolve: Resolver, n: nat): seq<Module>
    requires n <= |stack| && forall i :: 0 <= i < n ==> resolve(i, stack[i]).Some?
  {
    seq(n, i requires 0 <= i < n => resolve(i, stack[i]).value)
  }

  // What each step of the builder adds to the specification.

  lemma LooseSnoc(ids: seq<NodeId>, modules: seq<Module>, i: nat)
    requires i < |modules| <= |ids|
    ensures var before, m := Loose(ids[..i], modules[..i]), modules[i];
            Loose(ids[..i + 1], modules[..i + 1]) ==
            Net(before.modules[ids[i] := m], [],
                if m.nodeType.Source? then before.entries + [ids[i]] else before.entries,
                if m.nodeType.Sink? then before.exits + [ids[i]] else before.exits,
                before.capacity[ids[i] := DEFAULT_QUEUE_CAPACITY])
  {
    assert ids[..i + 1][..i] == ids[..i] && modules[..i + 1][..i] == modules[..i];
    assert Repeat(i + 1, DEFAULT_QUEUE_CAPACITY)[..i] == Repeat(i, DEFAULT_QUEUE_CAPACITY);
  }

  lemma FreshId(ids: seq<NodeId>, modules: seq<Module>, i: nat)
    requires i < |ids| && i <= |modules| && Distinct(ids)
    ensures var before := Loose(ids[..i], modules[..i]);
            ids[i] !in before.modules && ids[i] !in before.entries && ids[i] !in before.exits
  {
    ZipAt(ids[..i], modules[..i]);
    OfKindIn(ids[..i], modules[..i], Source);
    OfKindIn(ids[..i], modules[..i], Sink);
    assert ids[i] !in ids[..i];
  }

  lemma KnownIds(ids: seq<NodeId>, modules: seq<Module>)
    requires |ids| == |modules| && Distinct(ids)
    ensures There(ids, Loose(ids, modules).modules.Keys)
  {
    ZipAt(ids, modules);
  }

  /** Nodes whose modules have seen nothing and whose queues are empty. */
  ghost predicate Blank(nodes: map<NodeId, GraphNode>)
    reads nodes.Values, set n | n in nodes :: nodes[n].queue
  {
    forall n :: n in nodes ==>
      nodes[n].queue.Valid() && nodes[n].handed == [] && nodes[n].queue.Contents() == NO_PACKETS
  }

  lemma NodesAdd(nodes: map<NodeId, GraphNode>, node: GraphNode)
    ensures ModulesIn(nodes[node.id := node]) == ModulesIn(nodes)[node.id := node.module_]
    ensures CapacitiesIn(nodes[node.id := node]) == CapacitiesIn(nodes)[node.id := node.queue.capacity]
  {
  }

  method AddLoose(g: FlowGraph, id: NodeId, m: Module)
    requires g.Valid() && Blank(g.nodes) && id !in g.nodes
    modifies g
    ensures g.Valid() && Blank(g.nodes)
    ensures g.allowedFeedback == old(g.allowedFeedback)
    ensures var net := old(NetOf(g));
            NetOf(g) == Net(net.modules[id := m], net.edges,
                            if m.nodeType.Source? then Mark(net.entries, id) else net.entries,
                            if m.nodeType.Sink? then Mark(net.exits, id) else net.exits,
                            net.capacity[id := DEFAULT_QUEUE_CAPACITY])
  {
    var node := new GraphNode(id, m, DEFAULT_QUEUE_CAPACITY);
    NodesAdd(g.nodes, node);
    ghost var nodes := g.nodes[id := node];
    assert Blank(nodes);
    assert forall n :: n in g.nodes && n != id ==> g.nodes[n].queue != node.queue;
    g.AddNode(node);
  }

  predicate AllKnown(stack: seq<string>, resolve: Resolver) {
    forall i :: 0 <= i < |stack| ==> resolve(i, stack[i]).Some?
  }

  /** The first name that does not resolve. */
  ghost predicate FirstUnknown(stack: seq<string>, resolve: Resolver, name: string) {
    exists k :: 0 <= k < |stack| && resolve(k, stack[k]).None? && name == stack[k]
                && AllKnown(stack[..k], resolve)
  }

  /** Add a node for each name, until one does not resolve. */
  method AddAll(g: FlowGraph, stack: seq<string>, resolve: Resolver, ids: seq<NodeId>)
    returns (unknown: Option<string>)
    requires |ids| == |stack| && Distinct(ids)
    requires g.Valid() && g.nodes == map[] && g.Abstract() == EMPTY_GRAPH
    modifies g
    ensures g.Valid() && g.allowedFeedback == {} && Blank(g.nodes)
    ensures unknown.None? ==> AllKnown(stack, resolve) && NetOf(g) == Loose(ids, Resolved(stack, resolve, |stack|))
    ensures unknown.Some? ==> FirstUnknown(stack, resolve, unknown.value)
  {
    ghost var modules: seq<Module> := [];
    var i := 0;
    while i < |stack|
      invariant g.Valid() && Blank(g.nodes) && g.allowedFeedback == {}
      invariant Known(stack, resolve, ids, i, modules, NetOf(g))
    {
      var m := resolve(i, stack[i]);
      if m.None? { return Some(stack[i]); }
      KnownStep(stack, resolve, ids, i, modules, NetOf(g));
      AddLoose(g, ids[i], m.value);
      modules := modules + [m.value];
      i := i + 1;
    }
    assert ids[..i] == ids;
    unknown := None;
  }

  /** The first `i` names have resolved and have their nodes. */
  ghost predicate Known(
    stack: seq<string>, resolve: Resolver, ids: seq<NodeId>, i: nat, modules: seq<Module>, net: Net)
  {
    && i <= |stack| == |ids| && (forall k :: 0 <= k < i ==> resolve(k, stack[k]).Some?)
    && modules == Resolved(stack, resolve, i) && net == Loose(ids[..i], modules)
  }

  lemma KnownStep(stack: seq<string>, resolve: Resolver, ids: seq<NodeId>, i: nat, modules: seq<Module>, net: Net)
    requires Known(stack, resolve, ids, i, modules, net) && Distinct(ids)
    requires i < |stack| && resolve(i, stack[i]).Some?
    ensures ids[i] !in net.modules
    ensures var m := resolve(i, stack[i]).value;
            Known(stack, resolve, ids, i + 1, modules + [m],
                  Net(net.modules[ids[i] := m], net.edges,
                      if m.nodeType.Source? then Mark(net.entries, ids[i]) else net.entries,
                      if m.nodeType.Sink? then Mark(net.exits, ids[i]) else net.exits,
                      net.capacity[ids[i] := DEFAULT_QUEUE_CAPACITY]))
  {
    var modules' := modules + [resolve(i, stack[i]).value];
    assert modules' == Resolved(stack, resolve, i + 1);
    assert modules[..i] == modules == modules'[..i] && modules'[..i + 1] == modules';
    FreshId(ids, modules, i);
    LooseSnoc(ids, modules', i);
  }

  predicate There(ids: seq<NodeId>, known: set<NodeId>) { forall n :: n in ids ==> n in known }

  /** The first `k` connections are made. */
  ghost predicate Linked(g: FlowGraph, ids: seq<NodeId>, k: nat)
    reads g
  {
    g.Valid() && There(ids, g.nodes.Keys) && (k == 0 || k < |ids|) && g.edges == Chain(ids, k)
  }

  method ConnectNext(g: FlowGraph, ids: seq<NodeId>, k: nat)
    requires Linked(g, ids, k) && k < |ids| - 1
    modifies g`edges, g`adjacency
    ensures Linked(g, ids, k + 1)
  {
    assert ids[k] in ids && ids[k + 1] in ids;
    g.Attach(Plain(ids[k], ids[k + 1]));
  }

  /** Connect each node to the next. */
  method Link(g: FlowGraph, ids: seq<NodeId>)
    requires Linked(g, ids, 0) && ids != []
    modifies g`edges, g`adjacency
    ensures Linked(g, ids, |ids| - 1)
  {
    var k := 0;
    while k < |ids| - 1
      invariant k <= |ids| - 1 && Linked(g, ids, k)
    {
      ConnectNext(g, ids, k);
      k := k + 1;
    }
  }

  method LinkAndMark(g: FlowGraph, ids: seq<NodeId>)
    requires g.Valid() && There(ids, g.nodes.Keys) && g.edges == []
    modifies g`edges, g`adjacency, g`entryPoints, g`exitPoints
    ensures g.Valid()
    ensures var net := old(NetOf(g));
            NetOf(g) == if ids == [] then net
                        else net.(edges := Chain(ids, |ids| - 1), entries := Mark(net.entries, ids[0]),
                                  exits := Mark(net.exits, ids[|ids| - 1]))
  {
    if |ids| > 0 {
      Link(g, ids);
      g.MarkEntryPoint(ids[0]);
      g.MarkExitPoint(ids[|ids| - 1]);
    }
  }

  /** Validation, whose verdict the caller can foresee for a chain. */
  method Finish(g: FlowGraph) returns (r: Result<FlowGraph, BuildError>)
    requires g.Valid() && Blank(g.nodes) && g.allowedFeedback == {}
    ensures Usable(g) && Blank(g.nodes)
    ensures r.Ok? <==> GraphOf(NetOf(g)).Sound()
    ensures r.Ok? ==> r.value == g
  {
    assert g.Abstract() == GraphOf(NetOf(g));
    var valid := g.Validate();
    if valid.Err? { return Err(Rejected(valid.error)); }
    r := Ok(g);
  }

  /**
   Succeeds exactly when every name resolves; otherwise names the first that does not. The graph it
   builds is the stack's chain, with nothing run or queued yet. `ids` are the fresh node ids.
   */
  method BuildFromProfile(stack: seq<string>, resolve: Resolver, ids: seq<NodeId>)
    returns (r: Result<FlowGraph, BuildError>)
    requires |ids| == |stack| && Distinct(ids)
    ensures r.Ok? <==> AllKnown(stack, resolve)
    ensures r.Ok? ==> fresh(r.value) && Usable(r.value) && Blank(r.value.nodes)
    ensures r.Ok? ==> NetOf(r.value) == ChainNet(ids, Resolved(stack, resolve, |stack|))
    ensures r.Err? ==> r.error.UnknownModule? && FirstUnknown(stack, resolve, r.error.name)
  {
    var g := new FlowGraph();
    var unknown := AddAll(g, stack, resolve, ids);
    if unknown.Some? { return Err(UnknownModule(unknown.value)); }
    ghost var modules := Resolved(stack, resolve, |stack|);
    KnownIds(ids, modules);
    LinkAndMark(g, ids);
    ChainSound(ids, modules);
    r := Finish(g);
  }

  /** On a built graph the engine computes the composition of the stack, from the first node on. */
  lemma BuiltGraphExecutes(g: FlowGraph, ids: seq<NodeId>, modules: seq<Module>, p: Packet, fuel: nat)
    requires Usable(g) && Blank(g.nodes) && |ids| == |modules| > 0 && Distinct(ids) && fuel >= |ids|
    requires NetOf(g) == ChainNet(ids, modules)
    ensures NetOf(g).WellFormed() && QueuesFit(NetOf(g), QueuesOf(g))
    ensures var (run, queues) := QueuedExecute(NetOf(g), LogsOf(g), QueuesOf(g), ids[0], p, fuel);
            run.ending == Compose(ids, modules, LogsOf(g), p) && queues == QueuesOf(g)
  {
    ExecutesTheWalk(g, ids[0], p, fuel);
    BuiltGraphComposes(ids, modules, LogsOf(g), p, fuel);
  }
}
