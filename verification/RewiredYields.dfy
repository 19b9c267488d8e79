/**
 What an insertion does to concurrent calls: what a packet yields, over all branches it forks into, is
 what it yielded before, so calls return the same packets.
 */
module RewiredYields {
  import opened Wrappers
  import opened Packets
  import opened Modules
  import opened Digraphs
  import opened Graphs
  import opened NodeQueues
  import opened Walks
  import opened Rewiring
  import opened RewiredRouting
  import opened RewiredRuns
  import opened ParallelExecution
  import opened ParallelProgress
  import opened ParallelOutcome

  /** No module of the network asks for a trace on its own. */
  ghost predicate AllUntraced(net: Net) {
    forall x, p: Packet :: x in net.modules && !p.traced ==> StaysUntraced(net.modules[x], p)
  }

  ghost predicate StaysUntraced(m: Module, p: Packet) {
    m.Process([], p).Forward? ==> !m.Process([], p).packet.traced
  }

  /** `m`, which passes everything on, went into an edge of a graph that has no cycle before or after. */
  ghost predicate InsertedIn(net: Net, net': Net, g: Graph, a: NodeId, n: NodeId, m: Module) {
    && Inserted(net, net', g, a, n, m) && Targets(g.edges, a) != [] && !m.nodeType.Sink? && PassesAll(m)
    && Acyclic(net.Links()) && Acyclic(net'.Links()) && AllUntraced(net)
  }

  lemma AcyclicAlike(net: Net, net': Net, g: Graph, a: NodeId, n: NodeId, m: Module)
    requires Inserted(net, net', g, a, n, m) && Targets(g.edges, a) != []
    ensures Acyclic(net'.Links()) <==> Acyclic(net.Links())
  {
    var t := Targets(g.edges, a)[0];
    InsertLinks(g, a, n, m.nodeType, a, t);
    FreshIsUnlinked(g, n);
    assert net.Links() == g.Links() && net'.Links() == g.InsertAfter(a, n, m.nodeType).0.Links();
    SplicedAcyclic(g.Links(), a, n, t);
  }

  /** Through the new node a packet yields what it yields behind it. */
  lemma ThroughNode(net: Net, net': Net, g: Graph, a: NodeId, n: NodeId, m: Module, q: Packet)
    requires InsertedIn(net, net', g, a, n, m) && !q.traced
    ensures Arrival(net', n, q) == Arrival(net', Targets(g.edges, a)[0], q)
  {
    InsertKeepsRouting(net, net', g, a, n, m.nodeType, n, q);
    ProcessedIs(net', n, q, Route(net', n, Forward(q)));
  }

  /** At a node of the old graph the module is the same, and untraced packets stay so. */
  ghost predicate SameAt(net: Net, net': Net, x: NodeId, p: Packet) {
    && (x in net.modules <==> x in net'.modules)
    && (x in net.modules ==> net'.modules[x] == net.modules[x] && (!p.traced ==> StaysUntraced(net.modules[x], p)))
  }

  /** From there packets go on as before, but from `a` to `n` instead of `t`. */
  ghost predicate RoutesOn(net: Net, net': Net, a: NodeId, n: NodeId, t: NodeId, x: NodeId, o: Outcome) {
    var r, r' := Route(net, x, o), Route(net', x, o);
    match r
    case Ends(_) => r' == r
    case Goes(to, q) =>
      Forward(q) == o && to != n && if x == a then to == t && r' == Goes(n, q) else r' == r
    case Forks(targets, q) =>
      Forward(q) == o && n !in targets && if x == a then targets == [t] && r' == Forks([n], q) else r' == r
  }

  ghost predicate YieldsOn(net': Net, n: NodeId, t: NodeId, q: Packet)
    requires Acyclic(net'.Links())
  {
    Arrival(net', n, q) == Arrival(net', t, q)
  }

  /** All of that, for every node and packet. */
  ghost predicate Detours(net: Net, net': Net, a: NodeId, n: NodeId, t: NodeId) {
    && Acyclic(net.Links()) && Acyclic(net'.Links())
    && (forall x, p :: x != n ==> SameAt(net, net', x, p))
    && (forall x, o :: x != n ==> RoutesOn(net, net', a, n, t, x, o))
    && forall q: Packet :: !q.traced ==> YieldsOn(net', n, t, q)
  }

  lemma InsertionDetours(net: Net, net': Net, g: Graph, a: NodeId, n: NodeId, m: Module)
    requires InsertedIn(net, net', g, a, n, m)
    ensures Detours(net, net', a, n, Targets(g.edges, a)[0])
  {
    var t := Targets(g.edges, a)[0];
    forall x, o | x != n ensures RoutesOn(net, net', a, n, t, x, o) {
      if o.Forward? { InsertKeepsRouting(net, net', g, a, n, m.nodeType, x, o.packet); }
      RouteFollowsLinks(net, x, o);
      FreshIsUnlinked(g, n);
      assert net.Links() == g.Links();
      forall y | (x, y) in net.Links() ensures y != n { assert (x, y).1 == y; }
    }
    forall q: Packet | !q.traced ensures YieldsOn(net', n, t, q) {
      ThroughNode(net, net', g, a, n, m, q);
    }
  }

  lemma {:induction false} SameArrival(net: Net, net': Net, a: NodeId, n: NodeId, t: NodeId, x: NodeId, p: Packet)
    requires Detours(net, net', a, n, t) && x != n && !p.traced
    ensures Arrival(net', x, p) == Arrival(net, x, p)
    decreases |Downstream(net.Links(), x)|, 1, 0
  {
    assert SameAt(net, net', x, p);
    if x in net.modules {
      var o := net.modules[x].Process([], p);
      var r, r' := Route(net, x, o), Route(net', x, o);
      assert RoutesOn(net, net', a, n, t, x, o);
      RouteFollowsLinks(net, x, o);
      RouteFollowsLinks(net', x, o);
      ProcessedIs(net, x, p, r);
      ProcessedIs(net', x, p, r');
      match r
      case Ends(_) =>
      case Goes(to, q) => SameGoing(net, net', a, n, t, x, to, q);
      case Forks(targets, q) =>
        if x == a {
          SameFork(net, net', a, n, t, q);
        } else {
          SameArrivals(net, net', a, n, t, x, targets, q);
        }
    }
  }

  lemma {:induction false} SameGoing(
    net: Net, net': Net, a: NodeId, n: NodeId, t: NodeId, x: NodeId, to: NodeId, q: Packet)
    requires Detours(net, net', a, n, t) && x != n && to != n && !q.traced && (x, to) in net.Links()
    requires x == a ==> to == t
    ensures Arrival(net', if x == a then n else to, q) == Arrival(net, to, q)
    decreases |Downstream(net.Links(), x)|, 0, 0
  {
    DownstreamShrinks(net.Links(), x, to);
    SameArrival(net, net', a, n, t, to, q);
    assert YieldsOn(net', n, t, q);
  }

  lemma {:induction false} SameFork(net: Net, net': Net, a: NodeId, n: NodeId, t: NodeId, q: Packet)
    requires Detours(net, net', a, n, t) && a != n && t != n && !q.traced
    requires (a, t) in net.Links() && (a, n) in net'.Links()
    ensures Arrivals(net', a, [n], q) == Arrivals(net, a, [t], q)
    decreases |Downstream(net.Links(), a)|, 0, 1
  {
    SameGoing(net, net', a, n, t, a, t, q);
    assert [n][1..] == [] && [t][1..] == [];
  }

  lemma {:induction false} SameArrivals(
    net: Net, net': Net, a: NodeId, n: NodeId, t: NodeId, x: NodeId, targets: seq<NodeId>, q: Packet)
    requires Detours(net, net', a, n, t) && x != n && x != a && !q.traced && n !in targets
    requires forall y :: y in targets ==> (x, y) in net.Links() && (x, y) in net'.Links()
    ensures Arrivals(net', x, targets, q) == Arrivals(net, x, targets, q)
    decreases |Downstream(net.Links(), x)|, 0, 1 + |targets|
  {
    if targets != [] {
      SameGoing(net, net', a, n, t, x, targets[0], q);
      SameArrivals(net, net', a, n, t, x, targets[1..], q);
    }
  }

  /**
   Two calls that finish, one before and one after the insertion, under any schedules and any number
   of permits: either both return, and the same packets, or both fail.
   */
  lemma InsertKeepsReturns(
    net: Net, net': Net, g: Graph, a: NodeId, n: NodeId, m: Module, entry: NodeId, p: Packet,
    permits: nat, permits': nat, queues: Queues, queues': Queues, handed: Logs, handed': Logs,
    schedule: seq<Action>, schedule': seq<Action>)
    requires Inserted(net, net', g, a, n, m) && Targets(g.edges, a) != [] && !m.nodeType.Sink? && PassesAll(m)
    requires net.WellFormed() && net'.WellFormed() && Acyclic(net.Links()) && Stateless(net) && m.Stateless()
    requires entry in net.entries && entry != n && AllUntraced(net) && !p.traced
    requires QueuesEmpty(net, queues) && QueuesEmpty(net', queues')
    ensures var r := Play(net, Start(net, entry, p, permits, queues, handed), schedule);
            var r' := Play(net', Start(net', entry, p, permits', queues', handed'), schedule');
            r.Some? && Done(r.value) && r'.Some? && Done(r'.value) ==>
              var before, after := r.value.tasks[0].pc.result, r'.value.tasks[0].pc.result;
              before.Ok? == after.Ok? && (before.Ok? ==> multiset(before.value) == multiset(after.value))
  {
    assert entry in net'.entries;
    assert Stateless(net');
    AcyclicAlike(net, net', g, a, n, m);
    InsertionDetours(net, net', g, a, n, m);
    SameArrival(net, net', a, n, Targets(g.edges, a)[0], entry, p);
    ScheduleIndependence(net, entry, p, permits, queues, handed, schedule);
    ScheduleIndependence(net', entry, p, permits', queues', handed', schedule');
    var r := Play(net, Start(net, entry, p, permits, queues, handed), schedule);
    var r' := Play(net', Start(net', entry, p, permits', queues', handed'), schedule');
    if r.Some? && Done(r.value) && r'.Some? && Done(r'.value) && r.value.tasks[0].pc.result.Ok? {
      SameDeliveries(r.value.tasks[0].pc.result.value, r'.value.tasks[0].pc.result.value);
    }
  }

  lemma SameDeliveries(s: seq<Packet>, t: seq<Packet>)
    requires Deliveries(s) == Deliveries(t)
    ensures multiset(s) == multiset(t)
  {
    forall q ensures multiset(s)[q] == multiset(t)[q] {
      DeliveriesCount(s, q);
      DeliveriesCount(t, q);
    }
  }
}
