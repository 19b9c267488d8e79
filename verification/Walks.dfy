/**
 What running one packet sequentially means. `Walk` is the meaning: a packet goes from node to
 node along the first edge that accepts it. `QueuedWalk` is what the engine does: at every hop the
 packet goes into the node's own queue and whatever that queue puts first comes out. `fuel` bounds
 the number of hops looked at; a run that never ends is one that is still running for every fuel.
 */
module Walks {
  import opened Wrappers
  import opened Packets
  import opened Modules
  import opened Digraphs
  import opened Graphs
  import opened LaneQueues
  import opened NodeQueues

  /** What does not change while packets run: modules, edges, marks and lane capacities. */
  datatype Net = Net(
    modules: map<NodeId, Module>,
    edges: seq<Edge>,
    entries: seq<NodeId>,
    exits: seq<NodeId>,
    capacity: map<NodeId, nat>)
  {
    function Links(): set<(NodeId, NodeId)> { set e | e in edges :: e.Link() }

    ghost predicate WellFormed() {
      && (forall e :: e in edges ==> e.from in modules && e.to in modules)
      && capacity.Keys == modules.Keys && forall n :: n in capacity ==> capacity[n] >= 1
    }
  }

  type Logs = map<NodeId, seq<Packet>>
  type Queues = map<NodeId, Lanes<Packet>>

  /** A `process` call: where, and on which packet. */
  datatype Hop = Hop(node: NodeId, packet: Packet)

  datatype Ending =
    | Exited(packet: Packet)
    | Absorbed
    | Failed(error: ExecutionError)
    | StillRunning(node: NodeId, packet: Packet)

  /** How a run ended, what every module has been handed by then, and the calls made, in order. */
  datatype Run = Run(ending: Ending, handed: Logs, hops: seq<Hop>)
  {
    function After(earlier: seq<Hop>): Run { this.(hops := earlier + hops) }
    function Path(): seq<NodeId> { seq(|hops|, i requires 0 <= i < |hops| => hops[i].node) }
  }

  /** The edges of a node that accept a packet, in order. */
  function Accepting(edges: seq<Edge>, n: NodeId, p: Packet): seq<Edge> {
    if edges == [] then []
    else if edges[0].from == n && edges[0].Accepts(p) then [edges[0]] + Accepting(edges[1..], n, p)
    else Accepting(edges[1..], n, p)
  }

  /** Where a packet goes next, given what processing it produced. */
  datatype Decision = Stop(ending: Ending) | Continue(to: NodeId, packet: Packet)

  function Decide(net: Net, n: NodeId, outcome: Outcome): Decision {
    DecideOn(net.edges, net.exits, n, outcome)
  }

  function DecideOn(edges: seq<Edge>, exits: seq<NodeId>, n: NodeId, outcome: Outcome): Decision {
    match outcome
    case Fail(e) => Stop(Failed(InModule(e)))
    case Absorb => Stop(Absorbed)
    case Forward(p) =>
      if n in exits then Stop(Exited(p))
      else
        var next := Accepting(edges, n, p);
        if next == [] then Stop(Failed(InGraph(BuildFailed(DeadEnd(n)))))
        else Continue(next[0].to, p)
  }

  function Refused(net: Net, n: NodeId, p: Packet): Option<ExecutionError> {
    if n !in net.modules then Some(InGraph(MissingNode(n)))
    else if !net.modules[n].WithinPayload(p)
    then Some(InModule(QuotaExceeded(net.modules[n].name, PayloadSize)))
    else None
  }

  function LogAt(handed: Logs, n: NodeId): seq<Packet> {
    if n in handed then handed[n] else []
  }

  /** Hand `p` to the module at `n`. */
  function Record(net: Net, handed: Logs, n: NodeId, p: Packet): Logs
    requires n in net.modules
  {
    handed[n := net.modules[n].Handed(LogAt(handed, n), p)]
  }

  function Walk(net: Net, handed: Logs, n: NodeId, p: Packet, fuel: nat): Run
    decreases fuel
  {
    if fuel == 0 then Run(StillRunning(n, p), handed, [])
    else
      var refused := Refused(net, n, p);
      if refused.Some? then Run(Failed(refused.value), handed, [])
      else
        var q := p.RecordHop(n);
        var handed' := Record(net, handed, n, q);
        match Decide(net, n, net.modules[n].Process(LogAt(handed, n), q))
        case Stop(ending) => Run(ending, handed', [Hop(n, q)])
        case Continue(to, next) => Walk(net, handed', to, next, fuel - 1).After([Hop(n, q)])
  }

  function Execute(net: Net, handed: Logs, entry: NodeId, p: Packet, fuel: nat): Run {
    if entry in net.entries then Walk(net, handed, entry, p, fuel)
    else Run(Failed(InGraph(MissingNode(entry))), handed, [])
  }

  // ----- The same run through the queues ----------------------------------

  ghost predicate QueuesFit(net: Net, queues: Queues) {
    queues.Keys == net.modules.Keys && forall n :: n in queues ==> |queues[n]| == 3
  }

  ghost predicate QueuesEmpty(net: Net, queues: Queues) {
    queues.Keys == net.modules.Keys && forall n :: n in queues ==> queues[n] == NO_PACKETS
  }

  /** One hop of the engine: where it leads, what it leaves behind, and the call it made, if any. */
  datatype Stride = Stride(decision: Decision, handed: Logs, queues: Queues, hops: seq<Hop>)

  function QueuedHop(net: Net, handed: Logs, queues: Queues, n: NodeId, p: Packet): Stride
    requires net.WellFormed() && QueuesFit(net, queues)
  {
    var refused := Refused(net, n, p);
    if refused.Some? then Stride(Stop(Failed(refused.value)), handed, queues, [])
    else
      var sent := p.RecordHop(n);
      if |queues[n][LaneFor(sent)]| >= net.capacity[n] then
        Stride(Stop(Failed(InGraph(BuildFailed(QueueFull(n))))), handed, queues, [])
      else
        var (front, lanes) := Pop(Push(queues[n], LaneFor(sent), sent));
        var q := if front.Some? then front.value else sent;
        Stride(Decide(net, n, net.modules[n].Process(LogAt(handed, n), q)),
               Record(net, handed, n, q), queues[n := lanes], [Hop(n, q)])
  }

  function QueuedWalk(net: Net, handed: Logs, queues: Queues, n: NodeId, p: Packet, fuel: nat): (Run, Queues)
    requires net.WellFormed() && QueuesFit(net, queues)
    decreases fuel
  {
    if fuel == 0 then (Run(StillRunning(n, p), handed, []), queues)
    else
      var s := QueuedHop(net, handed, queues, n, p);
      match s.decision
      case Stop(ending) => (Run(ending, s.handed, s.hops), s.queues)
      case Continue(to, next) =>
        var (run, last) := QueuedWalk(net, s.handed, s.queues, to, next, fuel - 1);
        (run.After(s.hops), last)
  }

  /** From empty queues a hop hands the module the packet just sent, and empties its queue again. */
  lemma EmptyHop(net: Net, handed: Logs, queues: Queues, n: NodeId, p: Packet)
    requires net.WellFormed() && QueuesEmpty(net, queues) && Refused(net, n, p).None?
    ensures var q := p.RecordHop(n);
            QueuedHop(net, handed, queues, n, p) ==
            Stride(Decide(net, n, net.modules[n].Process(LogAt(handed, n), q)), Record(net, handed, n, q), queues,
                   [Hop(n, q)])
  {
    assert queues[n] == NO_PACKETS;
    SendThenReceive(p.RecordHop(n));
    assert queues[n := NO_PACKETS] == queues;
  }

  /** A more urgent packet that already waits at the node is handed to the module instead of the one just sent. */
  lemma LeftoversOvertake(
    net: Net, handed: Logs, queues: Queues, n: NodeId, p: Packet, l: nat)
    requires net.WellFormed() && QueuesFit(net, queues) && Refused(net, n, p).None?
    requires l < LaneFor(p) && queues[n][l] != [] && forall k :: 0 <= k < l ==> queues[n][k] == []
    requires |queues[n][LaneFor(p)]| < net.capacity[n]
    ensures var s, q := QueuedHop(net, handed, queues, n, p), queues[n][l][0];
            && s.hops == [Hop(n, q)] && s.handed == Record(net, handed, n, q)
            && s.queues[n][l] == queues[n][l][1..]
            && s.queues[n][LaneFor(p)] == queues[n][LaneFor(p)] + [p.RecordHop(n)]
  {
    var pushed := Push(queues[n], LaneFor(p), p.RecordHop(n));
    assert FirstNonEmpty(pushed) == l;
  }

  /**
   Through empty queues every node is handed exactly the packet that reached it, no queue is ever
   found full, and all queues are empty again whichever way the run ends.
   */
  lemma {:induction false} QueuesAreTransparent(
    net: Net, handed: Logs, queues: Queues, n: NodeId, p: Packet, fuel: nat)
    requires net.WellFormed() && QueuesEmpty(net, queues)
    ensures QueuedWalk(net, handed, queues, n, p, fuel) == (Walk(net, handed, n, p, fuel), queues)
    decreases fuel
  {
    if fuel > 0 && Refused(net, n, p).None? {
      var q := p.RecordHop(n);
      EmptyHop(net, handed, queues, n, p);
      match Decide(net, n, net.modules[n].Process(LogAt(handed, n), q))
      case Stop(_) =>
      case Continue(to, next) =>
        QueuesAreTransparent(net, Record(net, handed, n, q), queues, to, next, fuel - 1);
    }
  }

  // ----- What a run does --------------------------------------------------

  /** The packets a run hands to a node, in order. */
  function HandedTo(hops: seq<Hop>, n: NodeId): seq<Packet> {
    if hops == [] then []
    else if hops[0].node == n then [hops[0].packet] + HandedTo(hops[1..], n)
    else HandedTo(hops[1..], n)
  }

  lemma HandedToCons(hop: Hop, hops: seq<Hop>, x: NodeId)
    ensures HandedTo([hop] + hops, x) == if hop.node == x then [hop.packet] + HandedTo(hops, x) else HandedTo(hops, x)
  {
    assert ([hop] + hops)[0] == hop && ([hop] + hops)[1..] == hops;
  }

  /** What a run leaves in the log of a node: its hops there, if the module could be run at all. */
  function Logged(net: Net, hops: seq<Hop>, x: NodeId): seq<Packet> {
    if x in net.modules && net.modules[x].exclusive then HandedTo(hops, x) else []
  }

  lemma RecordLogged(net: Net, handed: Logs, n: NodeId, q: Packet, hops: seq<Hop>, x: NodeId)
    requires n in net.modules
    ensures LogAt(Record(net, handed, n, q), x) + Logged(net, hops, x) ==
            LogAt(handed, x) + Logged(net, [Hop(n, q)] + hops, x)
  {
    HandedToCons(Hop(n, q), hops, x);
    if x == n && net.modules[n].exclusive {
      assert LogAt(handed, x) + [q] + HandedTo(hops, x) == LogAt(handed, x) + ([q] + HandedTo(hops, x));
    }
  }

  /** Modules see the packets of the run's hops, in order, and nothing else. */
  lemma {:induction false} HandsOver(net: Net, handed: Logs, n: NodeId, p: Packet, fuel: nat, x: NodeId)
    ensures var run := Walk(net, handed, n, p, fuel);
            LogAt(run.handed, x) == LogAt(handed, x) + Logged(net, run.hops, x)
    decreases fuel
  {
    if fuel > 0 && Refused(net, n, p).None? {
      var q := p.RecordHop(n);
      var handed' := Record(net, handed, n, q);
      match Decide(net, n, net.modules[n].Process(LogAt(handed, n), q))
      case Stop(_) =>
        RecordLogged(net, handed, n, q, [], x);
        assert [Hop(n, q)] + [] == [Hop(n, q)] && Logged(net, [], x) == [];
      case Continue(to, next) =>
        HandsOver(net, handed', to, next, fuel - 1, x);
        RecordLogged(net, handed, n, q, Walk(net, handed', to, next, fuel - 1).hops, x);
    }
  }

  ghost predicate Admitted(net: Net, hop: Hop) {
    hop.node in net.modules && net.modules[hop.node].WithinPayload(hop.packet)
  }

  ghost predicate AllAdmitted(net: Net, hops: seq<Hop>) {
    forall i :: 0 <= i < |hops| ==> Admitted(net, hops[i])
  }

  /** Every call is at a node of the graph, on a packet within that module's payload limit. */
  lemma {:induction false} WithinLimits(net: Net, handed: Logs, n: NodeId, p: Packet, fuel: nat)
    ensures AllAdmitted(net, Walk(net, handed, n, p, fuel).hops)
    decreases fuel
  {
    if fuel > 0 && Refused(net, n, p).None? {
      var q := p.RecordHop(n);
      assert Admitted(net, Hop(n, q));
      match Decide(net, n, net.modules[n].Process(LogAt(handed, n), q))
      case Stop(_) =>
      case Continue(to, next) => WithinLimits(net, Record(net, handed, n, q), to, next, fuel - 1);
    }
  }

  // ----- Call by call -----------------------------------------------------

  predicate Leaves(e: Edge, n: NodeId, q: Packet) { e.from == n && e.Accepts(q) }

  /** The edge at `k` is the first in the list that leaves `n` and accepts `q`. */
  ghost predicate FirstLeaving(edges: seq<Edge>, n: NodeId, q: Packet, k: nat) {
    k < |edges| && Leaves(edges[k], n, q) && forall j :: 0 <= j < k ==> !Leaves(edges[j], n, q)
  }

  ghost predicate NoneLeaves(edges: seq<Edge>, n: NodeId, q: Packet) {
    forall j :: 0 <= j < |edges| ==> !Leaves(edges[j], n, q)
  }

  lemma {:induction false} AcceptingIn(edges: seq<Edge>, n: NodeId, p: Packet)
    ensures forall e :: e in Accepting(edges, n, p) <==> e in edges && e.from == n && e.Accepts(p)
  {
    if edges != [] { AcceptingIn(edges[1..], n, p); }
  }

  lemma {:induction false} AcceptingFirst(edges: seq<Edge>, n: NodeId, q: Packet) returns (k: nat)
    ensures Accepting(edges, n, q) == [] <==> NoneLeaves(edges, n, q)
    ensures Accepting(edges, n, q) != [] ==>
              FirstLeaving(edges, n, q, k) && Accepting(edges, n, q)[0] == edges[k]
  {
    k := 0;
    if edges != [] && !Leaves(edges[0], n, q) {
      k := AcceptingFirst(edges[1..], n, q);
      k := k + 1;
      if NoneLeaves(edges[1..], n, q) {
        forall j | 0 <= j < |edges| ensures !Leaves(edges[j], n, q) {
          if j > 0 { assert !Leaves(edges[1..][j - 1], n, q); }
        }
      } else {
        forall j | 0 <= j < k ensures !Leaves(edges[j], n, q) {
          if j > 0 { assert !Leaves(edges[1..][j - 1], n, q); }
        }
      }
    }
  }

  /** What the call at hop `i` of a run produced, from the module's history up to then. */
  function OutcomeAt(net: Net, handed: Logs, hops: seq<Hop>, i: nat): Outcome
    requires i < |hops| && hops[i].node in net.modules
  {
    var x := hops[i].node;
    net.modules[x].Process(LogAt(handed, x) + Logged(net, hops[..i], x), hops[i].packet)
  }

  /** What a packet becomes on its way along `path`, if nobody else touches it. */
  function Along(p: Packet, path: seq<NodeId>): Packet {
    if p.traced then Packet.Packet(p.id, p.payload, p.tags, p.priority, true, p.trace + path) else p
  }

  /** The call at hop `i` forwarded `q`, away from an exit, and `q` goes on to `to`. */
  ghost predicate SendsOn(net: Net, handed: Logs, hops: seq<Hop>, i: nat, q: Packet, to: NodeId)
    requires i < |hops|
  {
    var x := hops[i].node;
    && x in net.modules && x !in net.exits && OutcomeAt(net, handed, hops, i) == Forward(q)
    && exists k: nat :: FirstLeaving(net.edges, x, q, k) && net.edges[k].to == to
  }

  ghost predicate Follows(net: Net, handed: Logs, hops: seq<Hop>, i: nat)
    requires i < |hops| - 1
  {
    && hops[i].node in net.modules && OutcomeAt(net, handed, hops, i).Forward?
    && var q := OutcomeAt(net, handed, hops, i).packet;
       SendsOn(net, handed, hops, i, q, hops[i + 1].node) && hops[i + 1].packet == Along(q, [hops[i + 1].node])
  }

  /** How a run that made its last call at hop `i` may end. */
  ghost predicate EndsAfter(net: Net, handed: Logs, hops: seq<Hop>, i: nat, ending: Ending)
    requires i < |hops|
  {
    var x := hops[i].node;
    x in net.modules &&
    var outcome := OutcomeAt(net, handed, hops, i);
    match ending
    case Exited(q) => outcome == Forward(q) && x in net.exits
    case Absorbed => outcome == Absorb
    case StillRunning(to, q) => SendsOn(net, handed, hops, i, q, to)
    case Failed(e) =>
      || (outcome.Fail? && e == InModule(outcome.error))
      || (outcome.Forward? && x !in net.exits && NoneLeaves(net.edges, x, outcome.packet)
          && e == InGraph(BuildFailed(DeadEnd(x))))
      || (outcome.Forward? &&
          exists to :: SendsOn(net, handed, hops, i, outcome.packet, to) && Refused(net, to, outcome.packet) == Some(e))
  }

  /** A module runs on packets within its limit, at nodes that exist. */
  lemma RefusedExactlyWhen(net: Net, n: NodeId, p: Packet)
    ensures Refused(net, n, p).None? <==>
            n in net.modules && (net.modules[n].maxPayload.None? || |p.payload| <= net.modules[n].maxPayload.value)
    ensures n !in net.modules ==> Refused(net, n, p) == Some(InGraph(MissingNode(n)))
    ensures n in net.modules && Refused(net, n, p).Some? ==>
              Refused(net, n, p) == Some(InModule(QuotaExceeded(net.modules[n].name, PayloadSize)))
  {
  }

  lemma OutcomeShifts(net: Net, handed: Logs, n: NodeId, q: Packet, rest: seq<Hop>, i: nat)
    requires n in net.modules && i < |rest| && rest[i].node in net.modules
    ensures OutcomeAt(net, handed, [Hop(n, q)] + rest, i + 1) == OutcomeAt(net, Record(net, handed, n, q), rest, i)
  {
    var hops := [Hop(n, q)] + rest;
    assert hops[..i + 1] == [Hop(n, q)] + rest[..i];
    RecordLogged(net, handed, n, q, rest[..i], rest[i].node);
  }

  lemma SendsOnShifts(net: Net, handed: Logs, n: NodeId, p: Packet, rest: seq<Hop>, i: nat, q: Packet, to: NodeId)
    requires n in net.modules && i < |rest| && SendsOn(net, Record(net, handed, n, p), rest, i, q, to)
    ensures SendsOn(net, handed, [Hop(n, p)] + rest, i + 1, q, to)
  {
    OutcomeShifts(net, handed, n, p, rest, i);
  }

  lemma FollowsShifts(net: Net, handed: Logs, n: NodeId, p: Packet, rest: seq<Hop>, i: nat)
    requires n in net.modules && i < |rest| - 1 && Follows(net, Record(net, handed, n, p), rest, i)
    ensures Follows(net, handed, [Hop(n, p)] + rest, i + 1)
  {
    OutcomeShifts(net, handed, n, p, rest, i);
    var q := OutcomeAt(net, Record(net, handed, n, p), rest, i).packet;
    SendsOnShifts(net, handed, n, p, rest, i, q, rest[i + 1].node);
  }

  lemma EndsShifts(net: Net, handed: Logs, n: NodeId, p: Packet, rest: seq<Hop>, i: nat, ending: Ending)
    requires n in net.modules && i < |rest| && EndsAfter(net, Record(net, handed, n, p), rest, i, ending)
    ensures EndsAfter(net, handed, [Hop(n, p)] + rest, i + 1, ending)
  {
    OutcomeShifts(net, handed, n, p, rest, i);
  }

  /** The first call of a run. */
  lemma FirstOutcome(net: Net, handed: Logs, hops: seq<Hop>)
    requires hops != [] && hops[0].node in net.modules
    ensures OutcomeAt(net, handed, hops, 0) ==
            net.modules[hops[0].node].Process(LogAt(handed, hops[0].node), hops[0].packet)
  {
    var x := hops[0].node;
    assert hops[..0] == [] && LogAt(handed, x) + [] == LogAt(handed, x);
  }

  /** What the first call of a run sends on. */
  lemma FirstSendsOn(net: Net, handed: Logs, hops: seq<Hop>, to: NodeId, next: Packet)
    requires hops != [] && hops[0].node in net.modules
    requires Decide(net, hops[0].node, net.modules[hops[0].node].Process(LogAt(handed, hops[0].node), hops[0].packet))
             == Continue(to, next)
    ensures SendsOn(net, handed, hops, 0, next, to)
  {
    FirstOutcome(net, handed, hops);
    var k := AcceptingFirst(net.edges, hops[0].node, next);
  }

  /**
   Every call of a run from `n` with `p` is on what the call before it forwarded, at the end of the first
   edge in the list that leaves there and accepts that; the run stops where the last call makes it stop.
   */
  ghost predicate GoesRight(net: Net, handed: Logs, n: NodeId, p: Packet, run: Run) {
    && (forall i :: 0 <= i < |run.hops| - 1 ==> Follows(net, handed, run.hops, i))
    && (run.hops != [] ==>
          && run.hops[0] == Hop(n, Along(p, [n]))
          && EndsAfter(net, handed, run.hops, |run.hops| - 1, run.ending))
    && (run.hops == [] ==>
          || run.ending == StillRunning(n, p)
          || (run.ending.Failed? && Refused(net, n, p) == Some(run.ending.error)))
  }

  /** So it is in every run; one that is looked at for at least one hop makes a call or is refused. */
  lemma {:induction false} FollowsFirstEdges(net: Net, handed: Logs, n: NodeId, p: Packet, fuel: nat)
    ensures GoesRight(net, handed, n, p, Walk(net, handed, n, p, fuel))
    ensures Walk(net, handed, n, p, fuel).hops == [] && fuel > 0 ==> Walk(net, handed, n, p, fuel).ending.Failed?
    decreases fuel
  {
    if fuel > 0 && Refused(net, n, p).None? {
      var q := p.RecordHop(n);
      match Decide(net, n, net.modules[n].Process(LogAt(handed, n), q))
      case Stop(ending) => StopsRight(net, handed, n, p, ending);
      case Continue(to, next) =>
        var handed' := Record(net, handed, n, q);
        FollowsFirstEdges(net, handed', to, next, fuel - 1);
        GoesOnRight(net, handed, n, p, Walk(net, handed', to, next, fuel - 1), to, next);
    }
  }

  lemma StopsRight(net: Net, handed: Logs, n: NodeId, p: Packet, ending: Ending)
    requires n in net.modules
    requires Decide(net, n, net.modules[n].Process(LogAt(handed, n), p.RecordHop(n))) == Stop(ending)
    ensures forall after :: GoesRight(net, handed, n, p, Run(ending, after, [Hop(n, p.RecordHop(n))]))
  {
    EndsAtOnce(net, handed, n, p.RecordHop(n), ending);
  }

  lemma GoesOnRight(net: Net, handed: Logs, n: NodeId, p: Packet, rest: Run, to: NodeId, next: Packet)
    requires n in net.modules
    requires Decide(net, n, net.modules[n].Process(LogAt(handed, n), p.RecordHop(n))) == Continue(to, next)
    requires GoesRight(net, Record(net, handed, n, p.RecordHop(n)), to, next, rest)
    ensures GoesRight(net, handed, n, p, rest.After([Hop(n, p.RecordHop(n))]))
  {
    var q := p.RecordHop(n);
    FollowsOn(net, handed, n, q, rest.hops, to, next);
    EndsLater(net, handed, n, q, rest, to, next);
  }

  lemma EndsAtOnce(net: Net, handed: Logs, n: NodeId, q: Packet, ending: Ending)
    requires n in net.modules && Decide(net, n, net.modules[n].Process(LogAt(handed, n), q)) == Stop(ending)
    ensures EndsAfter(net, handed, [Hop(n, q)], 0, ending)
  {
    var outcome := net.modules[n].Process(LogAt(handed, n), q);
    FirstOutcome(net, handed, [Hop(n, q)]);
    if outcome.Forward? { var k := AcceptingFirst(net.edges, n, outcome.packet); }
  }

  lemma FollowsOn(net: Net, handed: Logs, n: NodeId, q: Packet, rest: seq<Hop>, to: NodeId, next: Packet)
    requires n in net.modules
    requires Decide(net, n, net.modules[n].Process(LogAt(handed, n), q)) == Continue(to, next)
    requires rest != [] ==> rest[0] == Hop(to, next.RecordHop(to))
    requires forall i :: 0 <= i < |rest| - 1 ==> Follows(net, Record(net, handed, n, q), rest, i)
    ensures var hops := [Hop(n, q)] + rest;
            forall i :: 0 <= i < |hops| - 1 ==> Follows(net, handed, hops, i)
  {
    var hops := [Hop(n, q)] + rest;
    FirstSendsOn(net, handed, hops, to, next);
    forall i | 0 <= i < |hops| - 1 ensures Follows(net, handed, hops, i) {
      if i > 0 { FollowsShifts(net, handed, n, q, rest, i - 1); }
    }
  }

  lemma EndsLater(net: Net, handed: Logs, n: NodeId, q: Packet, rest: Run, to: NodeId, next: Packet)
    requires n in net.modules
    requires Decide(net, n, net.modules[n].Process(LogAt(handed, n), q)) == Continue(to, next)
    requires rest.hops != [] ==> EndsAfter(net, Record(net, handed, n, q), rest.hops, |rest.hops| - 1, rest.ending)
    requires rest.hops == [] ==>
               || rest.ending == StillRunning(to, next)
               || (rest.ending.Failed? && Refused(net, to, next) == Some(rest.ending.error))
    ensures EndsAfter(net, handed, [Hop(n, q)] + rest.hops, |rest.hops|, rest.ending)
  {
    if rest.hops != [] {
      EndsShifts(net, handed, n, q, rest.hops, |rest.hops| - 1, rest.ending);
    } else {
      FirstOutcome(net, handed, [Hop(n, q)] + rest.hops);
      FirstSendsOn(net, handed, [Hop(n, q)] + rest.hops, to, next);
    }
  }

  /** An execution starts at a marked entry or not at all. */
  lemma StartsAtEntries(net: Net, handed: Logs, entry: NodeId, p: Packet, fuel: nat)
    ensures var run := Execute(net, handed, entry, p, fuel);
            && (run.hops != [] ==> entry in net.entries && run.hops[0] == Hop(entry, Along(p, [entry])))
            && (entry !in net.entries ==>
                  run.ending == Failed(InGraph(MissingNode(entry))) && run.hops == [] && run.handed == handed)
  {
  }

  /** The nodes of a run form a walk of the graph. */
  lemma PathIsWalk(net: Net, handed: Logs, n: NodeId, p: Packet, fuel: nat)
    ensures var run := Walk(net, handed, n, p, fuel);
            run.hops != [] ==> IsWalk(net.Links(), run.Path())
  {
    FollowsFirstEdges(net, handed, n, p, fuel);
    var run := Walk(net, handed, n, p, fuel);
    forall i | 0 <= i < |run.hops| - 1 ensures (run.Path()[i], run.Path()[i + 1]) in net.Links() {
      assert Follows(net, handed, run.hops, i);
      var k: nat :| k < |net.edges| && net.edges[k].Link() == (run.hops[i].node, run.hops[i + 1].node);
      assert net.edges[k] in net.edges;
    }
  }

  lemma {:induction false} CallCount(net: Net, handed: Logs, n: NodeId, p: Packet, fuel: nat)
    ensures var run := Walk(net, handed, n, p, fuel);
            |run.hops| <= fuel && (run.ending.StillRunning? ==> |run.hops| == fuel)
    decreases fuel
  {
    if fuel > 0 && Refused(net, n, p).None? {
      var q := p.RecordHop(n);
      match Decide(net, n, net.modules[n].Process(LogAt(handed, n), q))
      case Stop(_) =>
      case Continue(to, next) => CallCount(net, Record(net, handed, n, q), to, next, fuel - 1);
    }
  }

  /** Modules that leave a packet's trace alone. */
  ghost predicate PreservesTrace(m: Module) {
    forall h, p :: m.respond(h, p).outcome.Forward? ==>
                     var q := m.respond(h, p).outcome.packet;
                     q.traced == p.traced && q.trace == p.trace
  }

  lemma PathCons(run: Run, hop: Hop)
    ensures run.After([hop]).Path() == [hop.node] + run.Path()
  {
  }

  /** What exits carries the trace of `p`, followed by the path. */
  ghost predicate CarriesPath(p: Packet, run: Run) {
    run.ending.Exited? ==> run.ending.packet.trace == p.trace + run.Path()
  }

  lemma CarriesOn(p: Packet, hop: Hop, next: Packet, rest: Run)
    requires next.trace == p.trace + [hop.node] && CarriesPath(next, rest)
    ensures CarriesPath(p, rest.After([hop]))
  {
    PathCons(rest, hop);
    assert p.trace + [hop.node] + rest.Path() == p.trace + ([hop.node] + rest.Path());
  }

  /** A traced packet comes out carrying exactly the nodes it went through. */
  lemma {:induction false} TraceIsPath(net: Net, handed: Logs, n: NodeId, p: Packet, fuel: nat)
    requires p.traced && forall x :: x in net.modules ==> PreservesTrace(net.modules[x])
    ensures CarriesPath(p, Walk(net, handed, n, p, fuel))
    decreases fuel
  {
    if fuel > 0 && Refused(net, n, p).None? {
      var q := p.RecordHop(n);
      assert PreservesTrace(net.modules[n]);
      match Decide(net, n, net.modules[n].Process(LogAt(handed, n), q))
      case Stop(_) =>
        assert Walk(net, handed, n, p, fuel).Path() == [n];
      case Continue(to, next) =>
        var handed' := Record(net, handed, n, q);
        TraceIsPath(net, handed', to, next, fuel - 1);
        CarriesOn(p, Hop(n, q), next, Walk(net, handed', to, next, fuel - 1));
    }
  }

  /** Modules that forward, if they forward, what they were given. */
  ghost predicate ForwardsUnchanged(m: Module) {
    forall h, p :: m.respond(h, p).outcome.Forward? ==> m.respond(h, p).outcome.packet == p
  }

  lemma AlongOn(p: Packet, path: seq<NodeId>, rest: seq<NodeId>)
    ensures Along(Along(p, path), rest) == Along(p, path + rest)
    ensures Along(p, []) == p
  {
    assert p.trace + [] == p.trace && p.trace + path + rest == p.trace + (path + rest);
  }

  /** What exits, and what every call is on, is `p` with the nodes of the path so far added to its trace. */
  ghost predicate TraceGrows(p: Packet, run: Run) {
    && (run.ending.Exited? ==> run.ending.packet == Along(p, run.Path()))
    && forall i :: 0 <= i < |run.hops| ==> run.hops[i].packet == Along(p, run.Path()[..i + 1])
  }

  /** Nothing but its trace changes on a packet's way through modules that leave it alone. */
  lemma {:induction false} OnlyTheTraceGrows(net: Net, handed: Logs, n: NodeId, p: Packet, fuel: nat)
    requires forall x :: x in net.modules ==> ForwardsUnchanged(net.modules[x])
    ensures TraceGrows(p, Walk(net, handed, n, p, fuel))
    decreases fuel
  {
    if fuel > 0 && Refused(net, n, p).None? {
      var q := p.RecordHop(n);
      assert ForwardsUnchanged(net.modules[n]) && q == Along(p, [n]);
      match Decide(net, n, net.modules[n].Process(LogAt(handed, n), q))
      case Stop(ending) =>
        GrowsAtOnce(p, n, Walk(net, handed, n, p, fuel));
      case Continue(to, next) =>
        var handed' := Record(net, handed, n, q);
        OnlyTheTraceGrows(net, handed', to, next, fuel - 1);
        assert next == q;
        GrowsAlong(p, n, Walk(net, handed', to, next, fuel - 1));
    }
  }

  lemma GrowsAtOnce(p: Packet, n: NodeId, run: Run)
    requires run.hops == [Hop(n, Along(p, [n]))] && (run.ending.Exited? ==> run.ending.packet == Along(p, [n]))
    ensures TraceGrows(p, run)
  {
    assert run.Path() == [n] == [n][..1];
  }

  lemma GrowsAlong(p: Packet, n: NodeId, rest: Run)
    requires TraceGrows(Along(p, [n]), rest)
    ensures TraceGrows(p, rest.After([Hop(n, Along(p, [n]))]))
  {
    var run := rest.After([Hop(n, Along(p, [n]))]);
    PathCons(rest, Hop(n, Along(p, [n])));
    AlongOn(p, [n], rest.Path());
    forall i | 0 <= i < |run.hops| ensures run.hops[i].packet == Along(p, run.Path()[..i + 1]) {
      if i == 0 {
        assert run.Path()[..1] == [n];
      } else {
        AlongOn(p, [n], rest.Path()[..i]);
        assert run.Path()[..i + 1] == [n] + rest.Path()[..i];
        assert rest.hops[i - 1].packet == Along(Along(p, [n]), rest.Path()[..i - 1 + 1]);
      }
    }
  }

  // ----- Termination ------------------------------------------------------

  /**
   If cycles are possible only through allow-listed edges, a run crossing `k` of them makes at most
   `(k + 1)` times node-count `process` calls.
   */
  lemma CallsAreBounded(
    net: Net, handed: Logs, n: NodeId, p: Packet, fuel: nat, allowed: set<(NodeId, NodeId)>)
    requires Acyclic(net.Links() - allowed)
    ensures var path := Walk(net, handed, n, p, fuel).Path();
            |path| <= (Crossings(allowed, path) + 1) * |net.modules|
  {
    var run := Walk(net, handed, n, p, fuel);
    PathIsWalk(net, handed, n, p, fuel);
    CallCount(net, handed, n, p, fuel);
    WithinLimits(net, handed, n, p, fuel);
    if run.hops != [] { WalkBound(net.Links(), allowed, run.Path(), net.modules.Keys); }
  }

  /** In an acyclic graph no node is visited twice, and every run ends within node-count hops. */
  lemma AcyclicRunsEnd(net: Net, handed: Logs, n: NodeId, p: Packet, fuel: nat)
    requires Acyclic(net.Links())
    ensures Distinct(Walk(net, handed, n, p, fuel).Path())
    ensures fuel > |net.modules| ==> !Walk(net, handed, n, p, fuel).ending.StillRunning?
  {
    var run := Walk(net, handed, n, p, fuel);
    PathIsWalk(net, handed, n, p, fuel);
    CallCount(net, handed, n, p, fuel);
    WithinLimits(net, handed, n, p, fuel);
    if run.hops != [] {
      AcyclicWalkDistinct(net.Links(), run.Path());
      DistinctBound(run.Path(), net.modules.Keys);
    }
  }

  /** Looking further does not change a run that has ended. */
  lemma {:induction false} MoreFuel(net: Net, handed: Logs, n: NodeId, p: Packet, fuel: nat, more: nat)
    requires !Walk(net, handed, n, p, fuel).ending.StillRunning? && fuel <= more
    ensures Walk(net, handed, n, p, more) == Walk(net, handed, n, p, fuel)
    decreases fuel
  {
    if Refused(net, n, p).None? {
      var q := p.RecordHop(n);
      match Decide(net, n, net.modules[n].Process(LogAt(handed, n), q))
      case Stop(_) =>
      case Continue(to, next) => MoreFuel(net, Record(net, handed, n, q), to, next, fuel - 1, more - 1);
    }
  }
}
