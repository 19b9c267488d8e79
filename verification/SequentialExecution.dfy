/**
 The sequential executor over the stored graph: each hop enqueues into the node's own queue,
 dequeues by priority and runs the module. It is proved to do exactly what `Walks.QueuedWalk` says,
 whatever the queues held before.
 */
module SequentialExecution {
  import opened Wrappers
  import opened Packets
  import opened Modules
  import opened Digraphs
  import opened Graphs
  import opened LaneQueues
  import opened NodeQueues
  import opened FlowGraphs
  import opened Walks

  ghost function ModulesIn(nodes: map<NodeId, GraphNode>): map<NodeId, Module> {
    map n | n in nodes :: nodes[n].module_
  }

  ghost function CapacitiesIn(nodes: map<NodeId, GraphNode>): map<NodeId, nat> {
    map n | n in nodes :: nodes[n].queue.capacity
  }

  ghost function NetOf(g: FlowGraph): Net
    reads g
  {
    Net(ModulesIn(g.nodes), g.edges, g.entryPoints, g.exitPoints, CapacitiesIn(g.nodes))
  }

  ghost function LogsOf(g: FlowGraph): Logs
    reads g, g.nodes.Values
  {
    map n | n in g.nodes :: g.nodes[n].handed
  }

  ghost function NodeQueuesOf(g: FlowGraph): set<NodeQueue>
    reads g
  {
    set n | n in g.nodes :: g.nodes[n].queue
  }

  ghost function QueuesOf(g: FlowGraph): Queues
    reads g, NodeQueuesOf(g)
  {
    map n | n in g.nodes :: g.nodes[n].queue.Contents()
  }

  ghost predicate Usable(g: FlowGraph)
    reads g, NodeQueuesOf(g)
  {
    g.Valid() && forall n :: n in g.nodes ==> g.nodes[n].queue.Valid()
  }

  lemma UsableNet(g: FlowGraph)
    requires Usable(g)
    ensures NetOf(g).WellFormed() && QueuesFit(NetOf(g), QueuesOf(g))
    ensures NetOf(g).Links() == g.Abstract().Links()
  {
  }

  method CheckPayloadLimit(node: GraphNode, p: Packet) returns (error: Option<ExecutionError>)
    ensures error == if node.module_.WithinPayload(p) then None
                     else Some(InModule(QuotaExceeded(node.module_.name, PayloadSize)))
  {
    if node.module_.maxPayload.None? { return None; }
    if |p.payload| > node.module_.maxPayload.value {
      return Some(InModule(QuotaExceeded(node.module_.name, PayloadSize)));
    }
    error := None;
  }

  /** Put a packet into a node's queue and take out whichever packet priority puts next. */
  method EnqueueAndDequeue(node: GraphNode, p: Packet) returns (r: Result<Packet, ExecutionError>)
    requires node.queue.Valid()
    modifies node.queue
    ensures node.queue.Valid()
    ensures var lanes := old(node.queue.Contents());
            if |lanes[LaneFor(p)]| >= node.queue.capacity then
              r == Err(InGraph(BuildFailed(QueueFull(node.id)))) && node.queue.Contents() == lanes
            else
              r.Ok? && (Some(r.value), node.queue.Contents()) == Pop(Push(lanes, LaneFor(p), p))
  {
    ghost var lanes := node.queue.Contents();
    var sent := node.queue.TrySend(p);
    if !sent { return Err(InGraph(BuildFailed(QueueFull(node.id)))); }
    PushedIsThere(lanes, p);
    var front := node.queue.TryRecvPrioritized();
    r := Ok(front.value);
  }

  lemma PushedIsThere(lanes: Lanes<Packet>, p: Packet)
    requires |lanes| == 3
    ensures Pop(Push(lanes, LaneFor(p), p)).0.Some?
  {
    assert Push(lanes, LaneFor(p), p)[LaneFor(p)] != [];
  }

  function QueuedExecute(net: Net, handed: Logs, queues: Queues, entry: NodeId, p: Packet, fuel: nat): (Run, Queues)
    requires net.WellFormed() && QueuesFit(net, queues)
  {
    if entry in net.entries then QueuedWalk(net, handed, queues, entry, p, fuel)
    else (Run(Failed(InGraph(MissingNode(entry))), handed, []), queues)
  }

  /** One `process` call, with its time budget checked afterwards. */
  method ProcessWithin(node: GraphNode, p: Packet) returns (outcome: Outcome)
    modifies node`handed
    ensures outcome == node.module_.Process(old(node.handed), p)
    ensures node.handed == node.module_.Handed(old(node.handed), p)
  {
    var response := node.Process(p);
    var budget := node.module_.maxTime;
    outcome := if budget.Some? && response.elapsed > budget.value
               then Fail(QuotaExceeded(node.module_.name, ProcessingTime)) else response.outcome;
  }

  lemma UpdatedAt<T>(before: map<NodeId, T>, after: map<NodeId, T>, n: NodeId)
    requires before.Keys == after.Keys && n in before
    requires forall m :: m in before && m != n ==> before[m] == after[m]
    ensures after == before[n := after[n]]
  {
  }

  method QueueAt(g: FlowGraph, n: NodeId, p: Packet) returns (r: Result<Packet, ExecutionError>)
    requires Usable(g) && n in g.nodes
    modifies g.nodes[n].queue
    ensures Usable(g) && LogsOf(g) == old(LogsOf(g))
    ensures var lanes := old(QueuesOf(g))[n];
            if |lanes[LaneFor(p)]| >= NetOf(g).capacity[n] then
              r == Err(InGraph(BuildFailed(QueueFull(n)))) && QueuesOf(g) == old(QueuesOf(g))
            else
              r.Ok? && Pop(Push(lanes, LaneFor(p), p)).0 == Some(r.value)
              && QueuesOf(g) == old(QueuesOf(g))[n := Pop(Push(lanes, LaneFor(p), p)).1]
  {
    ghost var logs, queues := LogsOf(g), QueuesOf(g);
    r := EnqueueAndDequeue(g.nodes[n], p);
    assert LogsOf(g) == logs;
    UpdatedAt(queues, QueuesOf(g), n);
  }

  method ProcessAt(g: FlowGraph, n: NodeId, p: Packet) returns (outcome: Outcome)
    requires Usable(g) && n in g.nodes
    modifies g.nodes[n]
    ensures Usable(g) && QueuesOf(g) == old(QueuesOf(g))
    ensures outcome == NetOf(g).modules[n].Process(LogAt(old(LogsOf(g)), n), p)
    ensures LogsOf(g) == Record(NetOf(g), old(LogsOf(g)), n, p)
  {
    outcome := ProcessWithin(g.nodes[n], p);
    UpdatedAt(old(LogsOf(g)), LogsOf(g), n);
  }

  /** The pieces of an accepted hop, put together. */
  lemma HopAssembled(net: Net, handed: Logs, queues: Queues, n: NodeId, packet: Packet, q: Packet)
    requires net.WellFormed() && QueuesFit(net, queues) && Refused(net, n, packet).None?
    requires var sent := packet.RecordHop(n);
             && |queues[n][LaneFor(sent)]| < net.capacity[n]
             && Pop(Push(queues[n], LaneFor(sent), sent)).0 == Some(q)
    ensures var sent := packet.RecordHop(n);
            QueuedHop(net, handed, queues, n, packet) ==
            Stride(Decide(net, n, net.modules[n].Process(LogAt(handed, n), q)),
                   Record(net, handed, n, q),
                   queues[n := Pop(Push(queues[n], LaneFor(sent), sent)).1],
                   [Hop(n, q)])
  {
  }

  method ProcessAndRoute(g: FlowGraph, n: NodeId, p: Packet) returns (decision: Decision)
    requires Usable(g) && n in g.nodes
    modifies g.nodes[n]
    ensures Usable(g) && QueuesOf(g) == old(QueuesOf(g))
    ensures decision == Decide(NetOf(g), n, NetOf(g).modules[n].Process(LogAt(old(LogsOf(g)), n), p))
    ensures LogsOf(g) == Record(NetOf(g), old(LogsOf(g)), n, p)
  {
    var outcome := ProcessAt(g, n, p);
    decision := DecideOn(g.edges, g.exitPoints, n, outcome);
  }

  /** Queue the packet at a node that admits it, process whatever comes out, and route the result. */
  method AdmittedHop(g: FlowGraph, n: NodeId, packet: Packet) returns (decision: Decision, ghost hops: seq<Hop>)
    requires Usable(g) && NetOf(g).WellFormed() && QueuesFit(NetOf(g), QueuesOf(g))
    requires n in g.nodes && Refused(NetOf(g), n, packet).None?
    modifies g.nodes[n], g.nodes[n].queue
    ensures Usable(g)
    ensures QueuedHop(NetOf(g), old(LogsOf(g)), old(QueuesOf(g)), n, packet) ==
            Stride(decision, LogsOf(g), QueuesOf(g), hops)
  {
    hops := [];
    ghost var net, logs, queues := NetOf(g), LogsOf(g), QueuesOf(g);
    var queued := QueueAt(g, n, packet.RecordHop(n));
    assert NetOf(g) == net;
    if queued.Err? { return Stop(Failed(queued.error)), hops; }
    ghost var queues' := QueuesOf(g);
    HopAssembled(net, logs, queues, n, packet, queued.value);
    hops := [Hop(n, queued.value)];
    decision := ProcessAndRoute(g, n, queued.value);
    assert NetOf(g) == net && QueuesOf(g) == queues';
  }

  lemma HopRefused(net: Net, logs: Logs, queues: Queues, n: NodeId, packet: Packet)
    requires net.WellFormed() && QueuesFit(net, queues) && Refused(net, n, packet).Some?
    ensures QueuedHop(net, logs, queues, n, packet) ==
            Stride(Stop(Failed(Refused(net, n, packet).value)), logs, queues, [])
  {
  }

  method OneHop(g: FlowGraph, n: NodeId, packet: Packet) returns (decision: Decision, ghost hops: seq<Hop>)
    requires Usable(g) && NetOf(g).WellFormed() && QueuesFit(NetOf(g), QueuesOf(g))
    modifies g.nodes.Values, NodeQueuesOf(g)
    ensures Usable(g)
    ensures QueuedHop(NetOf(g), old(LogsOf(g)), old(QueuesOf(g)), n, packet) ==
            Stride(decision, LogsOf(g), QueuesOf(g), hops)
  {
    ghost var net, logs, queues := NetOf(g), LogsOf(g), QueuesOf(g);
    hops := [];
    var refused := RefusedAt(g, n, packet);
    assert NetOf(g) == net && LogsOf(g) == logs && QueuesOf(g) == queues;
    if refused.Some? {
      HopRefused(net, logs, queues, n, packet);
      return Stop(Failed(refused.value)), hops;
    }
    decision, hops := AdmittedHop(g, n, packet);
    assert NetOf(g) == net;
  }

  /** What keeps a packet from entering a node, if anything does. */
  method RefusedAt(g: FlowGraph, n: NodeId, packet: Packet) returns (error: Option<ExecutionError>)
    requires Usable(g)
    ensures error == Refused(NetOf(g), n, packet) && (error.None? ==> n in g.nodes)
  {
    if n !in g.nodes { return Some(InGraph(MissingNode(n))); }
    error := CheckPayloadLimit(g.nodes[n], packet);
  }

  /** A moment of a run: what has been handed out, the queues, and the packet about to enter a node. */
  datatype Moment = Moment(logs: Logs, queues: Queues, node: NodeId, packet: Packet)

  /** One hop leads from `a` to `b`, making the call `hop`. */
  ghost predicate Moves(net: Net, a: Moment, b: Moment, hop: Hop) {
    && net.WellFormed() && QueuesFit(net, a.queues)
    && QueuedHop(net, a.logs, a.queues, a.node, a.packet) ==
       Stride(Continue(b.node, b.packet), b.logs, b.queues, [hop])
  }

  ghost predicate Fits(net: Net, m: Moment) { net.WellFormed() && QueuesFit(net, m.queues) }

  ghost predicate IsTrail(net: Net, moments: seq<Moment>, hops: seq<Hop>) {
    |moments| == |hops| + 1 && forall i :: 0 <= i < |hops| ==> MovesAt(net, moments, hops, i)
  }

  ghost predicate MovesAt(net: Net, moments: seq<Moment>, hops: seq<Hop>, i: nat)
    requires i < |hops| < |moments|
  {
    Moves(net, moments[i], moments[i + 1], hops[i])
  }

  lemma TrailSnoc(net: Net, moments: seq<Moment>, hops: seq<Hop>, next: Moment, more: seq<Hop>)
    requires IsTrail(net, moments, hops) && Fits(net, moments[|hops|])
    requires var b := moments[|hops|];
             QueuedHop(net, b.logs, b.queues, b.node, b.packet) ==
             Stride(Continue(next.node, next.packet), next.logs, next.queues, more)
    ensures IsTrail(net, moments + [next], hops + more) && |more| == 1 && Fits(net, next)
  {
    var ms, hs := moments + [next], hops + more;
    assert more == [more[0]] && Moves(net, moments[|hops|], next, more[0]);
    forall i | 0 <= i < |hs| ensures MovesAt(net, ms, hs, i) {
      if i < |hops| { assert MovesAt(net, moments, hops, i); }
    }
  }

  function RunFrom(net: Net, m: Moment, fuel: nat): (Run, Queues)
    requires Fits(net, m)
  {
    QueuedWalk(net, m.logs, m.queues, m.node, m.packet, fuel)
  }

  lemma MoveUnfolds(net: Net, a: Moment, b: Moment, hop: Hop, fuel: nat)
    requires Moves(net, a, b, hop)
    ensures Fits(net, a) && Fits(net, b)
    ensures RunFrom(net, a, fuel + 1) == (RunFrom(net, b, fuel).0.After([hop]), RunFrom(net, b, fuel).1)
  {
  }

  /** Running from `a` is making the calls `hops` and then running from `b`. */
  ghost predicate Leads(net: Net, a: Moment, fuel: nat, hops: seq<Hop>, b: Moment, left: nat) {
    && fuel == |hops| + left && Fits(net, a) && Fits(net, b)
    && RunFrom(net, a, fuel) == (RunFrom(net, b, left).0.After(hops), RunFrom(net, b, left).1)
  }

  lemma AfterTwice(x: (Run, Queues), y: (Run, Queues), z: (Run, Queues), hops: seq<Hop>, hop: Hop)
    requires x == (y.0.After(hops), y.1) && y == (z.0.After([hop]), z.1)
    ensures x == (z.0.After(hops + [hop]), z.1)
  {
    assert hops + ([hop] + z.0.hops) == (hops + [hop]) + z.0.hops;
  }

  lemma LeadsOn(
    net: Net, a: Moment, fuel: nat, before: seq<Hop>, b: Moment, hop: Hop, hops: seq<Hop>, next: Moment, left: nat)
    requires Leads(net, a, fuel, before, b, left + 1) && Moves(net, b, next, hop) && hops == before + [hop]
    ensures Leads(net, a, fuel, hops, next, left)
  {
    MoveUnfolds(net, b, next, hop, left);
    AfterTwice(RunFrom(net, a, fuel), RunFrom(net, b, left + 1), RunFrom(net, next, left), before, hop);
  }

  lemma LeadsNowhere(net: Net, a: Moment, fuel: nat, hops: seq<Hop>, b: Moment, left: nat)
    requires Fits(net, a) && hops == [] && b == a && fuel == left
    ensures Leads(net, a, fuel, hops, b, left)
  {
    var run := RunFrom(net, a, left).0;
    assert [] + run.hops == run.hops;
  }

  lemma TrailPrefix(net: Net, moments: seq<Moment>, hops: seq<Hop>)
    requires IsTrail(net, moments, hops) && hops != []
    ensures IsTrail(net, moments[..|hops|], hops[..|hops| - 1])
  {
    var last := |hops| - 1;
    var earlier, before := moments[..last + 1], hops[..last];
    forall i | 0 <= i < last ensures MovesAt(net, earlier, before, i) {
      assert MovesAt(net, moments, hops, i);
    }
  }

  lemma TrailOn(net: Net, moments: seq<Moment>, hops: seq<Hop>, left: nat)
    requires IsTrail(net, moments, hops) && hops != []
    requires Leads(net, moments[0], |hops| + left, hops[..|hops| - 1], moments[|hops| - 1], left + 1)
    ensures Leads(net, moments[0], |hops| + left, hops, moments[|hops|], left)
  {
    var last := |hops| - 1;
    assert MovesAt(net, moments, hops, last) && hops == hops[..last] + [hops[last]];
    LeadsOn(net, moments[0], |hops| + left, hops[..last], moments[last], hops[last], hops, moments[|hops|], left);
  }

  /** A run that has come along a trail is that trail's calls followed by the rest of the run. */
  lemma {:induction false} TrailStarts(net: Net, moments: seq<Moment>, hops: seq<Hop>, left: nat)
    requires IsTrail(net, moments, hops) && Fits(net, moments[0])
    ensures Leads(net, moments[0], |hops| + left, hops, moments[|hops|], left)
    decreases |hops|
  {
    if hops == [] {
      LeadsNowhere(net, moments[0], |hops| + left, hops, moments[|hops|], left);
    } else {
      TrailPrefix(net, moments, hops);
      TrailStarts(net, moments[..|hops|], hops[..|hops| - 1], left + 1);
      TrailOn(net, moments, hops, left);
    }
  }

  /** A trail followed by a hop that stops is a whole run. */
  lemma TrailStops(
    net: Net, moments: seq<Moment>, hops: seq<Hop>, fuel: nat,
    ending: Ending, logs': Logs, queues': Queues, more: seq<Hop>)
    requires IsTrail(net, moments, hops) && Fits(net, moments[0]) && Fits(net, moments[|hops|]) && |hops| < fuel
    requires var b := moments[|hops|];
             QueuedHop(net, b.logs, b.queues, b.node, b.packet) == Stride(Stop(ending), logs', queues', more)
    ensures RunFrom(net, moments[0], fuel) == (Run(ending, logs', hops + more), queues')
    ensures var a := moments[0];
            a.node in net.entries ==>
              QueuedExecute(net, a.logs, a.queues, a.node, a.packet, fuel) ==
              (Run(ending, logs', hops + more), queues')
  {
    TrailStarts(net, moments, hops, fuel - |hops|);
  }

  /** A trail that has used up the fuel is a run still going. */
  lemma TrailGoesOn(net: Net, moments: seq<Moment>, hops: seq<Hop>)
    requires IsTrail(net, moments, hops) && Fits(net, moments[0])
    ensures var b := moments[|hops|];
            RunFrom(net, moments[0], |hops|) == (Run(StillRunning(b.node, b.packet), b.logs, hops), b.queues)
  {
    TrailStarts(net, moments, hops, 0);
    assert hops + [] == hops;
  }

  method ExecuteSequential(g: FlowGraph, entry: NodeId, packet: Packet, fuel: nat)
    returns (ending: Ending, ghost hops: seq<Hop>)
    requires Usable(g)
    modifies g.nodes.Values, NodeQueuesOf(g)
    ensures Usable(g) && NetOf(g).WellFormed()
    ensures (Run(ending, LogsOf(g), hops), QueuesOf(g)) ==
            QueuedExecute(NetOf(g), old(LogsOf(g)), old(QueuesOf(g)), entry, packet, fuel)
  {
    hops := [];
    UsableNet(g);
    if entry !in g.entryPoints { return Failed(InGraph(MissingNode(entry))), hops; }
    var current, p, left := entry, packet, fuel;
    ghost var net, start := NetOf(g), Moment(LogsOf(g), QueuesOf(g), entry, packet);
    ghost var now, moments := start, [start];
    while left > 0
      invariant Usable(g) && NetOf(g) == net && |hops| + left == fuel
      invariant now == Moment(LogsOf(g), QueuesOf(g), current, p) && Fits(net, now)
      invariant IsTrail(net, moments, hops) && moments[|hops|] == now && moments[0] == start
      decreases left
    {
      var decision, more := OneHop(g, current, p);
      assert NetOf(g) == net;
      ghost var logs', queues' := LogsOf(g), QueuesOf(g);
      if decision.Stop? {
        TrailStops(net, moments, hops, fuel, decision.ending, logs', queues', more);
        hops := hops + more;
        assert NetOf(g) == net && LogsOf(g) == logs' && QueuesOf(g) == queues';
        return decision.ending, hops;
      }
      now := Moment(logs', queues', decision.to, decision.packet);
      TrailSnoc(net, moments, hops, now, more);
      moments, hops := moments + [now], hops + more;
      current, p, left := decision.to, decision.packet, left - 1;
    }
    TrailGoesOn(net, moments, hops);
    ending := StillRunning(current, p);
  }

  /** From empty queues the engine runs the walk, and leaves the queues empty. */
  lemma ExecutesTheWalk(g: FlowGraph, entry: NodeId, packet: Packet, fuel: nat)
    requires Usable(g) && QueuesEmpty(NetOf(g), QueuesOf(g))
    ensures NetOf(g).WellFormed() && QueuesFit(NetOf(g), QueuesOf(g))
    ensures QueuedExecute(NetOf(g), LogsOf(g), QueuesOf(g), entry, packet, fuel)
            == (Execute(NetOf(g), LogsOf(g), entry, packet, fuel), QueuesOf(g))
  {
    UsableNet(g);
    QueuesAreTransparent(NetOf(g), LogsOf(g), QueuesOf(g), entry, packet, fuel);
  }

  /** On a graph that validates without any feedback edge, every run ends within node-count hops. */
  lemma ValidatedRunsEnd(g: FlowGraph, entry: NodeId, packet: Packet, fuel: nat)
    requires Usable(g) && g.Abstract().Sound() && g.allowedFeedback == {} && fuel > |g.nodes|
    ensures !Execute(NetOf(g), LogsOf(g), entry, packet, fuel).ending.StillRunning?
  {
    UsableNet(g);
    assert g.Abstract().Checked() == g.Abstract().Links();
    assert NetOf(g).modules.Keys == g.nodes.Keys;
    AcyclicRunsEnd(NetOf(g), LogsOf(g), entry, packet, fuel);
  }
}
