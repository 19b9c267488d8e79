/**
 What a concurrent call can still spend. A tariff prices an action and a fork, the unfolding of the
 graph prices a packet, and every action of every interleaving pays its price out of what the tasks
 and queues still have. Pricing actions bounds the length of all schedules; pricing forks counts
 the branches that ever wait for branches of their own.
 */
module ParallelCosts {
  import opened Wrappers
  import opened Packets
  import opened Modules
  import opened Digraphs
  import opened Listings
  import opened Graphs
  import opened LaneQueues
  import opened NodeQueues
  import opened Walks
  import opened ParallelExecution
  import opened ParallelInvariants
  import opened ParallelOutcome

  datatype Tariff = Tariff(step: nat, fork: nat)

  const PER_ACTION := Tariff(1, 0)
  const PER_FORK := Tariff(0, 1)

  // ----- What a packet costs ----------------------------------------------

  /** A packet arriving at a node: two turns at the lock, a send, and what its processing leads to. */
  ghost function ArrivalCost(net: Net, c: Tariff, n: NodeId, p: Packet): nat
    requires Acyclic(net.Links())
    decreases |Downstream(net.Links(), n)|, 2, 0
  {
    7 * c.step + if Refused(net, n, p).Some? then 0 else ProcessingCost(net, c, n, p.RecordHop(n))
  }

  /** A packet admitted to a node: nothing where it ends, the next node's cost, or a fork's. */
  ghost function ProcessingCost(net: Net, c: Tariff, n: NodeId, q: Packet): nat
    requires Acyclic(net.Links())
    decreases |Downstream(net.Links(), n)|, 1, 0
  {
    if n !in net.modules then 0
    else
      var outcome := net.modules[n].Process([], q);
      RouteFollowsLinks(net, n, outcome);
      match Route(net, n, outcome)
      case Ends(_) => 0
      case Goes(to, p) =>
        DownstreamShrinks(net.Links(), n, to);
        ArrivalCost(net, c, to, p)
      case Forks(targets, p) => c.fork + BranchesCost(net, c, n, targets, p)
  }

  ghost function BranchesCost(net: Net, c: Tariff, from: NodeId, targets: seq<NodeId>, p: Packet): nat
    requires Acyclic(net.Links()) && forall t :: t in targets ==> (from, t) in net.Links()
    decreases |Downstream(net.Links(), from)|, 0, |targets|
  {
    if targets == [] then 0
    else
      var last := |targets| - 1;
      DownstreamShrinks(net.Links(), from, targets[last]);
      BranchesCost(net, c, from, targets[..last], p) + c.step + ArrivalCost(net, c, targets[last], p)
  }

  /** What a call can spend to begin with. */
  ghost function Budget(net: Net, c: Tariff, entry: NodeId, p: Packet): nat
    requires Acyclic(net.Links())
  {
    if entry in net.entries then ArrivalCost(net, c, entry, p) else c.step
  }

  /** A bound on the number of actions of a call. */
  ghost function Workload(net: Net, entry: NodeId, p: Packet): nat
    requires Acyclic(net.Links())
  {
    Budget(net, PER_ACTION, entry, p)
  }

  /** How many times the unfolding of a call fans out. */
  ghost function Forkings(net: Net, entry: NodeId, p: Packet): nat
    requires Acyclic(net.Links())
  {
    Budget(net, PER_FORK, entry, p)
  }

  // ----- What a state can still spend --------------------------------------

  ghost function TaskCost(net: Net, c: Tariff, pc: Pc): nat
    requires Acyclic(net.Links())
  {
    match pc
    case WaitPermit(n, p) => c.step + ArrivalCost(net, c, n, p)
    case Arriving(n, p) => ArrivalCost(net, c, n, p)
    case Checking(n, p) => ArrivalCost(net, c, n, p) - c.step
    case Sending(n, q) => 5 * c.step + ProcessingCost(net, c, n, q)
    case Queued(_) => 4 * c.step
    case Receiving(_) => 3 * c.step
    case Joining(_, _) => c.fork + 2 * c.step
    case Finished(_) => c.step
    case Reaped => 0
    case Aborted(_) => 0
  }

  ghost function TasksCost(net: Net, c: Tariff, tasks: seq<Task>): nat
    requires Acyclic(net.Links())
  {
    if tasks == [] then 0
    else TasksCost(net, c, tasks[..|tasks| - 1]) + TaskCost(net, c, tasks[|tasks| - 1].pc)
  }

  ghost function LineCost(net: Net, c: Tariff, n: NodeId, line: seq<Packet>): nat
    requires Acyclic(net.Links())
  {
    if line == [] then 0 else ProcessingCost(net, c, n, line[0]) + LineCost(net, c, n, line[1..])
  }

  ghost function QueuesCost(net: Net, c: Tariff, order: seq<NodeId>, queues: Queues): nat
    requires Acyclic(net.Links())
  {
    if order == [] then 0
    else
      (if order[0] in queues then LineCost(net, c, order[0], Flatten(queues[order[0]])) else 0) +
      QueuesCost(net, c, order[1..], queues)
  }

  /** The tasks and the queues together; `order` lists the nodes. */
  ghost function StateCost(net: Net, c: Tariff, order: seq<NodeId>, s: State): nat
    requires Acyclic(net.Links())
  {
    TasksCost(net, c, s.tasks) + QueuesCost(net, c, order, s.queues)
  }

  // ----- Sums -------------------------------------------------------------

  lemma {:induction false} TasksCostSet(net: Net, c: Tariff, tasks: seq<Task>, t: nat, pc: Pc)
    requires Acyclic(net.Links()) && t < |tasks|
    ensures TasksCost(net, c, SetPc(tasks, t, pc)) + TaskCost(net, c, tasks[t].pc) ==
            TasksCost(net, c, tasks) + TaskCost(net, c, pc)
  {
    var last := |tasks| - 1;
    var ts := SetPc(tasks, t, pc);
    if t == last {
      assert ts[..last] == tasks[..last];
    } else {
      assert ts[..last] == SetPc(tasks[..last], t, pc);
      TasksCostSet(net, c, tasks[..last], t, pc);
    }
  }

  lemma {:induction false} SpawnedCost(
    net: Net, c: Tariff, tasks: seq<Task>, from: NodeId, parent: nat, targets: seq<NodeId>, p: Packet)
    requires Acyclic(net.Links()) && forall t :: t in targets ==> (from, t) in net.Links()
    ensures TasksCost(net, c, tasks + Spawned(parent, targets, p)) ==
            TasksCost(net, c, tasks) + BranchesCost(net, c, from, targets, p)
    decreases |targets|
  {
    var ts := tasks + Spawned(parent, targets, p);
    if targets == [] {
      assert ts == tasks;
    } else {
      var last := |targets| - 1;
      SpawnedCost(net, c, tasks, from, parent, targets[..last], p);
      assert ts[..|ts| - 1] == tasks + Spawned(parent, targets[..last], p);
      assert ts[|ts| - 1] == Task(parent, WaitPermit(targets[last], p));
    }
  }

  lemma {:induction false} LineCostAppend(net: Net, c: Tariff, n: NodeId, a: seq<Packet>, b: seq<Packet>)
    requires Acyclic(net.Links())
    ensures LineCost(net, c, n, a + b) == LineCost(net, c, n, a) + LineCost(net, c, n, b)
  {
    if a == [] {
      assert a + b == b;
    } else {
      assert (a + b)[0] == a[0] && (a + b)[1..] == a[1..] + b;
      LineCostAppend(net, c, n, a[1..], b);
    }
  }

  lemma LineCostOne(net: Net, c: Tariff, n: NodeId, q: Packet)
    requires Acyclic(net.Links())
    ensures LineCost(net, c, n, [q]) == ProcessingCost(net, c, n, q)
  {
    assert [q][1..] == [];
  }

  lemma PushCost(net: Net, c: Tariff, n: NodeId, lanes: Lanes<Packet>, l: nat, q: Packet)
    requires Acyclic(net.Links()) && l < |lanes|
    ensures LineCost(net, c, n, Flatten(Push(lanes, l, q))) ==
            LineCost(net, c, n, Flatten(lanes)) + ProcessingCost(net, c, n, q)
  {
    var a, b := PushSplits(lanes, l, q);
    LineCostAppend(net, c, n, a, b);
    LineCostAppend(net, c, n, a + [q], b);
    LineCostAppend(net, c, n, a, [q]);
    LineCostOne(net, c, n, q);
  }

  lemma PopCost(net: Net, c: Tariff, n: NodeId, lanes: Lanes<Packet>)
    requires Acyclic(net.Links()) && Pop(lanes).0.Some?
    ensures LineCost(net, c, n, Flatten(lanes)) ==
            ProcessingCost(net, c, n, Pop(lanes).0.value) + LineCost(net, c, n, Flatten(Pop(lanes).1))
  {
    PopIsDrain(lanes);
    LineCostAppend(net, c, n, [Pop(lanes).0.value], Flatten(Pop(lanes).1));
    LineCostOne(net, c, n, Pop(lanes).0.value);
  }

  lemma {:induction false} QueuesCostElsewhere(
    net: Net, c: Tariff, order: seq<NodeId>, queues: Queues, n: NodeId, lanes: Lanes<Packet>)
    requires Acyclic(net.Links()) && n !in order
    ensures QueuesCost(net, c, order, queues[n := lanes]) == QueuesCost(net, c, order, queues)
  {
    if order != [] { QueuesCostElsewhere(net, c, order[1..], queues, n, lanes); }
  }

  lemma {:induction false} QueuesCostSet(
    net: Net, c: Tariff, order: seq<NodeId>, queues: Queues, n: NodeId, lanes: Lanes<Packet>)
    requires Acyclic(net.Links()) && Distinct(order) && n in order && n in queues
    ensures QueuesCost(net, c, order, queues[n := lanes]) + LineCost(net, c, n, Flatten(queues[n])) ==
            QueuesCost(net, c, order, queues) + LineCost(net, c, n, Flatten(lanes))
  {
    if order[0] == n {
      QueuesCostElsewhere(net, c, order[1..], queues, n, lanes);
    } else {
      QueuesCostSet(net, c, order[1..], queues, n, lanes);
    }
  }

  // ----- Every action pays ------------------------------------------------

  /** An action is paid for if the state after it can spend that much less. */
  ghost predicate Pays(net: Net, c: Tariff, order: seq<NodeId>, s: State, s': State)
    requires Acyclic(net.Links())
  {
    s'.queues.Keys == s.queues.Keys && StateCost(net, c, order, s') + c.step <= StateCost(net, c, order, s)
  }

  /** Most actions move one task to a cheaper place and touch no queue. */
  lemma TaskPays(net: Net, c: Tariff, order: seq<NodeId>, s: State, s': State, t: nat, pc: Pc)
    requires Acyclic(net.Links()) && t < |s.tasks| && s'.tasks == SetPc(s.tasks, t, pc) && s'.queues == s.queues
    requires TaskCost(net, c, pc) + c.step <= TaskCost(net, c, s.tasks[t].pc)
    ensures Pays(net, c, order, s, s')
  {
    TasksCostSet(net, c, s.tasks, t, pc);
  }

  /** A branch that is still alive can always afford one more action. */
  lemma AliveCosts(net: Net, c: Tariff, pc: Pc)
    requires Acyclic(net.Links()) && pc.Alive()
    ensures TaskCost(net, c, pc) >= c.step
    ensures pc.Joining? ==> TaskCost(net, c, pc) >= 2 * c.step
  {
  }

  lemma PlainPays(net: Net, c: Tariff, order: seq<NodeId>, s: State, a: Action)
    requires Acyclic(net.Links()) && Enabled(net, s, a) && (a.AcquirePermit? || a.Lock? || a.Check?)
    ensures Pays(net, c, order, s, Apply(net, s, a))
  {
    var s' := Apply(net, s, a);
    TaskPays(net, c, order, s, s', a.t, s'.tasks[a.t].pc);
  }

  lemma LeavingPays(net: Net, c: Tariff, order: seq<NodeId>, s: State, a: Action)
    requires Acyclic(net.Links()) && Enabled(net, s, a) && (a.Conclude? || a.Abort?)
    ensures Pays(net, c, order, s, Apply(net, s, a))
  {
    var s' := Apply(net, s, a);
    AliveCosts(net, c, s.tasks[a.t].pc);
    TaskPays(net, c, order, s, s', a.t, s'.tasks[a.t].pc);
  }

  lemma JoinPays(net: Net, c: Tariff, order: seq<NodeId>, s: State, t: nat, child: nat)
    requires Acyclic(net.Links()) && Enabled(net, s, Join(t, child))
    ensures Pays(net, c, order, s, Apply(net, s, Join(t, child)))
  {
    var pc, s' := s.tasks[t].pc, Apply(net, s, Join(t, child));
    match s.tasks[child].pc.result
    case Ok(packets) =>
      var joined := SetPc(s.tasks, t, Joining(pc.pending - {child}, pc.results + packets));
      TasksCostSet(net, c, s.tasks, t, Joining(pc.pending - {child}, pc.results + packets));
      TasksCostSet(net, c, joined, child, Reaped);
      assert s'.tasks == SetPc(joined, child, Reaped);
    case Err(e) =>
      TaskPays(net, c, order, s, s', t, Finished(Err(e)));
  }

  lemma SendPays(net: Net, c: Tariff, order: seq<NodeId>, s: State, t: nat)
    requires Acyclic(net.Links()) && Lists(order, s.queues.Keys) && Enabled(net, s, Send(t))
    ensures Pays(net, c, order, s, Apply(net, s, Send(t)))
  {
    SendIs(net, s, t);
    var n, q := s.tasks[t].pc.node, s.tasks[t].pc.packet;
    TasksCostSet(net, c, s.tasks, t, Queued(n));
    PushCost(net, c, n, s.queues[n], LaneFor(q), q);
    QueuesCostSet(net, c, order, s.queues, n, Push(s.queues[n], LaneFor(q), q));
  }

  /** A fork is paid for by the packet that causes it. */
  lemma ForkCost(net: Net, c: Tariff, tasks: seq<Task>, t: nat, n: NodeId, targets: seq<NodeId>, p: Packet)
    requires Acyclic(net.Links()) && t < |tasks| && forall x :: x in targets ==> (n, x) in net.Links()
    ensures TasksCost(net, c, SetPc(tasks, t, Joining(Ids(|tasks|, |targets|), [])) + Spawned(t, targets, p)) +
            TaskCost(net, c, tasks[t].pc) ==
            TasksCost(net, c, tasks) + c.fork + 2 * c.step + BranchesCost(net, c, n, targets, p)
  {
    var joining := Joining(Ids(|tasks|, |targets|), []);
    TasksCostSet(net, c, tasks, t, joining);
    SpawnedCost(net, c, SetPc(tasks, t, joining), n, t, targets, p);
  }

  /** What processing a packet adds to the tasks, over what its own task can spend. */
  lemma RoutedCost(net: Net, c: Tariff, s: State, t: nat, n: NodeId, q: Packet, routing: Routing)
    requires Acyclic(net.Links()) && t < |s.tasks| && n in net.modules
    requires routing == Route(net, n, net.modules[n].Process([], q))
    ensures TasksCost(net, c, Routed(s, t, routing).tasks) + TaskCost(net, c, s.tasks[t].pc) ==
            TasksCost(net, c, s.tasks) + ProcessingCost(net, c, n, q) +
            match routing case Ends(_) => c.step case Goes(_, _) => 0 case Forks(_, _) => 2 * c.step
  {
    RouteFollowsLinks(net, n, net.modules[n].Process([], q));
    match routing
    case Ends(result) => TasksCostSet(net, c, s.tasks, t, Finished(result));
    case Goes(to, p) => TasksCostSet(net, c, s.tasks, t, Arriving(to, p));
    case Forks(targets, p) => ForkCost(net, c, s.tasks, t, n, targets, p);
  }

  lemma ReceivePays(net: Net, c: Tariff, order: seq<NodeId>, s: State, t: nat)
    requires Acyclic(net.Links()) && Stateless(net) && Lists(order, s.queues.Keys) && Enabled(net, s, Receive(t))
    ensures Pays(net, c, order, s, Apply(net, s, Receive(t)))
  {
    var n := s.tasks[t].pc.node;
    var mid, q, routing := ReceiveIs(net, s, t);
    RoutedCost(net, c, mid, t, n, q, routing);
    PopCost(net, c, n, s.queues[n]);
    QueuesCostSet(net, c, order, s.queues, n, Pop(s.queues[n]).1);
  }

  /** Every action of every task is paid for. */
  lemma EveryActionPays(net: Net, c: Tariff, order: seq<NodeId>, s: State, a: Action)
    requires Acyclic(net.Links()) && Stateless(net) && Lists(order, s.queues.Keys) && Enabled(net, s, a)
    ensures Pays(net, c, order, s, Apply(net, s, a))
  {
    match a
    case Send(t) => SendPays(net, c, order, s, t);
    case Receive(t) => ReceivePays(net, c, order, s, t);
    case Join(t, child) => JoinPays(net, c, order, s, t, child);
    case Conclude(_) => LeavingPays(net, c, order, s, a);
    case Abort(_) => LeavingPays(net, c, order, s, a);
    case _ => PlainPays(net, c, order, s, a);
  }

  // ----- Whole schedules --------------------------------------------------

  lemma {:induction false} EmptyQueuesCostNothing(net: Net, c: Tariff, order: seq<NodeId>, queues: Queues)
    requires Acyclic(net.Links()) && forall n :: n in queues ==> queues[n] == NO_PACKETS
    ensures QueuesCost(net, c, order, queues) == 0
  {
    FlattenEmpty<Packet>(NO_PACKETS);
    if order != [] { EmptyQueuesCostNothing(net, c, order[1..], queues); }
  }

  lemma StartCost(
    net: Net, c: Tariff, order: seq<NodeId>, entry: NodeId, p: Packet, permits: nat, queues: Queues, handed: Logs)
    requires Acyclic(net.Links()) && QueuesEmpty(net, queues)
    ensures StateCost(net, c, order, Start(net, entry, p, permits, queues, handed)) == Budget(net, c, entry, p)
  {
    EmptyQueuesCostNothing(net, c, order, queues);
    var tasks := Start(net, entry, p, permits, queues, handed).tasks;
    assert TasksCost(net, c, tasks) == TaskCost(net, c, tasks[0].pc) by {
      assert tasks[..|tasks| - 1] == [];
      assert TasksCost(net, c, []) == 0;
    }
  }

  /** `n` actions have been paid for. */
  ghost predicate PaidFor(net: Net, c: Tariff, order: seq<NodeId>, s: State, n: nat, budget: nat)
    requires Acyclic(net.Links())
  {
    Lists(order, s.queues.Keys) && StateCost(net, c, order, s) + c.step * n <= budget
  }

  lemma PaidForNext(net: Net, c: Tariff, order: seq<NodeId>, s: State, n: nat, budget: nat, a: Action)
    requires Acyclic(net.Links()) && Stateless(net) && PaidFor(net, c, order, s, n, budget) && Enabled(net, s, a)
    ensures PaidFor(net, c, order, Apply(net, s, a), n + 1, budget)
  {
    EveryActionPays(net, c, order, s, a);
    assert c.step * (n + 1) == c.step * n + c.step;
  }

  /** What is left after a schedule, together with the price of its actions, was there to begin with. */
  lemma {:induction false} CostRun(
    net: Net, c: Tariff, order: seq<NodeId>, entry: NodeId, p: Packet, permits: nat, queues: Queues, handed: Logs,
    schedule: seq<Action>)
    requires Acyclic(net.Links()) && Stateless(net) && QueuesEmpty(net, queues) && Lists(order, queues.Keys)
    ensures var r := Play(net, Start(net, entry, p, permits, queues, handed), schedule);
            r.Some? ==> PaidFor(net, c, order, r.value, |schedule|, Budget(net, c, entry, p))
    decreases |schedule|
  {
    if schedule == [] {
      StartCost(net, c, order, entry, p, permits, queues, handed);
    } else {
      var last := |schedule| - 1;
      CostRun(net, c, order, entry, p, permits, queues, handed, schedule[..last]);
      var r := Play(net, Start(net, entry, p, permits, queues, handed), schedule[..last]);
      if r.Some? && Enabled(net, r.value, schedule[last]) {
        PaidForNext(net, c, order, r.value, last, Budget(net, c, entry, p), schedule[last]);
      }
    }
  }

  /**
   On an acyclic graph with stateless modules no interleaving of a call from empty queues is longer
   than the workload, which is known before the call.
   */
  lemma EveryScheduleEnds(
    net: Net, entry: NodeId, p: Packet, permits: nat, queues: Queues, handed: Logs, schedule: seq<Action>)
    requires Acyclic(net.Links()) && Stateless(net) && QueuesEmpty(net, queues)
    ensures Play(net, Start(net, entry, p, permits, queues, handed), schedule).Some? ==>
              |schedule| <= Workload(net, entry, p)
  {
    var order := SomeListing(queues.Keys);
    CostRun(net, PER_ACTION, order, entry, p, permits, queues, handed, schedule);
  }
}
