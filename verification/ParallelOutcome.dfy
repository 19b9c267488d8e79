/**
 Schedule independence. `Arrival` unfolds the graph from a node: what a packet arriving there
 yields, branch by branch. Every interleaving conserves what its branches and queues still stand to
 yield, although branches that meet at a node may swap packets; so every interleaving that finishes
 returns what the unfolding says.
 */
module ParallelOutcome {
  import opened Wrappers
  import opened Packets
  import opened Modules
  import opened Digraphs
  import opened Listings
  import opened Graphs
  import opened LaneQueues
  import opened NodeQueues
  import opened Walks
  import opened ParallelExecution
  import opened ParallelInvariants
  import opened ParallelProgress

  /** A packet that reached an exit, or a branch that failed, and why. */
  datatype Event = Delivered(packet: Packet) | Lost(error: ExecutionError)

  /** No branch fails. */
  ghost predicate Lossless(events: multiset<Event>) { forall e :: Lost(e) !in events }

  ghost predicate Stateless(net: Net) {
    forall n :: n in net.modules ==> net.modules[n].Stateless()
  }

  lemma {:induction false} TargetsAmong(edges: seq<Edge>)
    ensures forall t :: t in ParallelTargets(edges) ==> exists e :: e in edges && e.to == t
  {
    if edges != [] {
      TargetsAmong(edges[1..]);
      forall t | t in ParallelTargets(edges) ensures exists e :: e in edges && e.to == t {
        if t in ParallelTargets(edges[1..]) {
          var e :| e in edges[1..] && e.to == t;
          assert e in edges;
        } else {
          assert edges[0] in edges;
        }
      }
    }
  }

  /** Routing only follows edges of the graph. */
  lemma RouteFollowsLinks(net: Net, n: NodeId, outcome: Outcome)
    ensures var r := Route(net, n, outcome);
            && (r.Goes? ==> (n, r.to) in net.Links())
            && (r.Forks? ==> forall t :: t in r.targets ==> (n, t) in net.Links())
  {
    if outcome.Forward? {
      var next := Accepting(net.edges, n, outcome.packet);
      AcceptingIn(net.edges, n, outcome.packet);
      TargetsAmong(next);
      forall e | e in next ensures (n, e.to) in net.Links() {
        assert e.Link() == (n, e.to);
      }
      if next != [] { assert next[0] in next; }
    }
  }

  /** What packet `p`, arriving at node `n`, yields. */
  ghost function Arrival(net: Net, n: NodeId, p: Packet): multiset<Event>
    requires Acyclic(net.Links())
    decreases |Downstream(net.Links(), n)|, 2, 0
  {
    if Refused(net, n, p).Some? then multiset{Lost(Refused(net, n, p).value)} else Processed(net, n, p.RecordHop(n))
  }

  /** What packet `q`, admitted to the queue of node `n`, yields. */
  ghost function Processed(net: Net, n: NodeId, q: Packet): multiset<Event>
    requires Acyclic(net.Links())
    decreases |Downstream(net.Links(), n)|, 1, 0
  {
    if n !in net.modules then multiset{Lost(InGraph(MissingNode(n)))}
    else
      var outcome := net.modules[n].Process([], q);
      RouteFollowsLinks(net, n, outcome);
      match Route(net, n, outcome)
      case Ends(Ok(packets)) => Deliveries(packets)
      case Ends(Err(e)) => multiset{Lost(e)}
      case Goes(to, p) =>
        DownstreamShrinks(net.Links(), n, to);
        Arrival(net, to, p)
      case Forks(targets, p) => Arrivals(net, n, targets, p)
  }

  ghost function Arrivals(net: Net, from: NodeId, targets: seq<NodeId>, p: Packet): multiset<Event>
    requires Acyclic(net.Links()) && forall t :: t in targets ==> (from, t) in net.Links()
    decreases |Downstream(net.Links(), from)|, 0, |targets|
  {
    if targets == [] then multiset{}
    else
      DownstreamShrinks(net.Links(), from, targets[0]);
      Arrival(net, targets[0], p) + Arrivals(net, from, targets[1..], p)
  }

  function Deliveries(packets: seq<Packet>): multiset<Event> {
    Total(seq(|packets|, i requires 0 <= i < |packets| => multiset{Delivered(packets[i])}))
  }

  // ----- Sums -------------------------------------------------------------

  function Total(s: seq<multiset<Event>>): multiset<Event> {
    if s == [] then multiset{} else s[0] + Total(s[1..])
  }

  lemma Regroup(x: multiset<Event>, a: multiset<Event>, b: multiset<Event>)
    ensures x + (a + b) == (x + a) + b
  {
  }

  lemma {:induction false} TotalAppend(s: seq<multiset<Event>>, t: seq<multiset<Event>>)
    ensures Total(s + t) == Total(s) + Total(t)
  {
    if s == [] {
      assert s + t == t;
    } else {
      TotalAppend(s[1..], t);
      assert (s + t)[0] == s[0] && (s + t)[1..] == s[1..] + t;
      Regroup(s[0], Total(s[1..]), Total(t));
    }
  }

  /** Replacing one summand by another. */
  lemma TotalSet(s: seq<multiset<Event>>, i: nat, x: multiset<Event>)
    requires i < |s|
    ensures Total(s[i := x]) + s[i] == Total(s) + x
  {
    TotalSplit(s, i);
    TotalSplit(s[i := x], i);
    var before, after := Total(s[..i]), Total(s[i + 1..]);
    assert s[i := x][..i] == s[..i] && s[i := x][i + 1..] == s[i + 1..];
    assert before + x + after + s[i] == before + s[i] + after + x;
  }

  lemma TotalSplit(s: seq<multiset<Event>>, i: nat)
    requires i < |s|
    ensures Total(s) == Total(s[..i]) + s[i] + Total(s[i + 1..])
  {
    assert s == s[..i] + ([s[i]] + s[i + 1..]);
    TotalAppend(s[..i], [s[i]] + s[i + 1..]);
    TotalAppend([s[i]], s[i + 1..]);
    TotalOne(s[i]);
    Regroup(Total(s[..i]), s[i], Total(s[i + 1..]));
  }

  lemma TotalOne(x: multiset<Event>)
    ensures Total([x]) == x
  {
    assert [x][1..] == [];
  }

  lemma {:induction false} TotalMember(s: seq<multiset<Event>>, i: nat)
    requires i < |s|
    ensures s[i] <= Total(s)
  {
    TotalSplit(s, i);
  }

  lemma DeliveriesAppend(a: seq<Packet>, b: seq<Packet>)
    ensures Deliveries(a + b) == Deliveries(a) + Deliveries(b)
  {
    var x := seq(|a|, i requires 0 <= i < |a| => multiset{Delivered(a[i])});
    var y := seq(|b|, i requires 0 <= i < |b| => multiset{Delivered(b[i])});
    var z := seq(|a + b|, i requires 0 <= i < |a + b| => multiset{Delivered((a + b)[i])});
    assert z == x + y;
    TotalAppend(x, y);
  }

  lemma DeliveriesOne(p: Packet)
    ensures Deliveries([p]) == multiset{Delivered(p)}
  {
    TotalOne(multiset{Delivered(p)});
    assert seq(|[p]|, i requires 0 <= i < |[p]| => multiset{Delivered([p][i])}) == [multiset{Delivered(p)}];
  }

  /** `Deliveries` counts packets and nothing else. */
  lemma {:induction false} DeliveriesCount(packets: seq<Packet>, p: Packet)
    ensures Deliveries(packets)[Delivered(p)] == multiset(packets)[p] && Lossless(Deliveries(packets))
  {
    if packets == [] {
    } else {
      DeliveriesCount(packets[1..], p);
      assert packets == [packets[0]] + packets[1..];
      DeliveriesAppend([packets[0]], packets[1..]);
      DeliveriesOne(packets[0]);
    }
  }

  // ----- What a state still stands to yield --------------------------------

  ghost function TaskYield(net: Net, pc: Pc): multiset<Event>
    requires Acyclic(net.Links())
  {
    match pc
    case WaitPermit(n, p) => Arrival(net, n, p)
    case Arriving(n, p) => Arrival(net, n, p)
    case Checking(n, p) => Arrival(net, n, p)
    case Sending(n, q) => Processed(net, n, q)
    case Joining(_, results) => Deliveries(results)
    case Finished(result) => if result.Ok? then Deliveries(result.value) else multiset{}
    case _ => multiset{}
  }

  ghost function TaskYields(net: Net, tasks: seq<Task>): seq<multiset<Event>>
    requires Acyclic(net.Links())
  {
    seq(|tasks|, i requires 0 <= i < |tasks| => TaskYield(net, tasks[i].pc))
  }

  /** What the packets in line at a node stand to yield. */
  ghost function LineYields(net: Net, n: NodeId, line: seq<Packet>): seq<multiset<Event>>
    requires Acyclic(net.Links())
  {
    seq(|line|, i requires 0 <= i < |line| => Processed(net, n, line[i]))
  }

  ghost function QueueYield(net: Net, n: NodeId, lanes: Lanes<Packet>): multiset<Event>
    requires Acyclic(net.Links())
  {
    Total(LineYields(net, n, Flatten(lanes)))
  }

  ghost function QueueYields(net: Net, order: seq<NodeId>, queues: Queues): seq<multiset<Event>>
    requires Acyclic(net.Links()) && Lists(order, queues.Keys)
  {
    seq(|order|, i requires 0 <= i < |order| && order[i] in queues => QueueYield(net, order[i], queues[order[i]]))
  }

  /** The tasks and the queues together; `order` lists the nodes. */
  ghost function Yield(net: Net, order: seq<NodeId>, s: State): multiset<Event>
    requires Acyclic(net.Links()) && Lists(order, s.queues.Keys)
  {
    Total(TaskYields(net, s.tasks)) + Total(QueueYields(net, order, s.queues))
  }

  lemma TaskYieldsSet(net: Net, tasks: seq<Task>, t: nat, pc: Pc)
    requires Acyclic(net.Links()) && t < |tasks|
    ensures Total(TaskYields(net, SetPc(tasks, t, pc))) + TaskYield(net, tasks[t].pc) ==
            Total(TaskYields(net, tasks)) + TaskYield(net, pc)
  {
    var ys := TaskYields(net, tasks);
    assert TaskYields(net, SetPc(tasks, t, pc)) == ys[t := TaskYield(net, pc)];
    TotalSet(ys, t, TaskYield(net, pc));
  }

  lemma TaskYieldsAppend(net: Net, a: seq<Task>, b: seq<Task>)
    requires Acyclic(net.Links())
    ensures Total(TaskYields(net, a + b)) == Total(TaskYields(net, a)) + Total(TaskYields(net, b))
  {
    assert TaskYields(net, a + b) == TaskYields(net, a) + TaskYields(net, b);
    TotalAppend(TaskYields(net, a), TaskYields(net, b));
  }

  /** Spawned branches take over exactly what the fork yields. */
  lemma {:induction false} SpawnedYield(net: Net, from: NodeId, parent: nat, targets: seq<NodeId>, p: Packet)
    requires Acyclic(net.Links()) && forall t :: t in targets ==> (from, t) in net.Links()
    ensures Total(TaskYields(net, Spawned(parent, targets, p))) == Arrivals(net, from, targets, p)
    decreases |targets|
  {
    if targets != [] {
      SpawnedYield(net, from, parent, targets[1..], p);
      var ys := TaskYields(net, Spawned(parent, targets, p));
      assert ys[0] == Arrival(net, targets[0], p);
      assert ys[1..] == TaskYields(net, Spawned(parent, targets[1..], p));
    }
  }

  lemma LineAppend(net: Net, n: NodeId, a: seq<Packet>, b: seq<Packet>)
    requires Acyclic(net.Links())
    ensures Total(LineYields(net, n, a + b)) == Total(LineYields(net, n, a)) + Total(LineYields(net, n, b))
  {
    assert LineYields(net, n, a + b) == LineYields(net, n, a) + LineYields(net, n, b);
    TotalAppend(LineYields(net, n, a), LineYields(net, n, b));
  }

  lemma LineOne(net: Net, n: NodeId, q: Packet)
    requires Acyclic(net.Links())
    ensures Total(LineYields(net, n, [q])) == Processed(net, n, q)
  {
    assert LineYields(net, n, [q]) == [Processed(net, n, q)];
    TotalOne(Processed(net, n, q));
  }

  /** A pushed packet splits the line at the end of its lane. */
  lemma {:induction false} PushSplits(lanes: Lanes<Packet>, l: nat, q: Packet) returns (a: seq<Packet>, b: seq<Packet>)
    requires l < |lanes|
    ensures Flatten(lanes) == a + b && Flatten(Push(lanes, l, q)) == a + [q] + b
  {
    var more := Push(lanes, l, q);
    if l == 0 {
      assert more[1..] == lanes[1..];
      a, b := lanes[0], Flatten(lanes[1..]);
    } else {
      assert more[1..] == Push(lanes[1..], l - 1, q);
      var c, d := PushSplits(lanes[1..], l - 1, q);
      a, b := lanes[0] + c, d;
      assert lanes[0] + (c + d) == a + b && lanes[0] + (c + [q] + d) == a + [q] + b;
    }
  }

  /** Which lane a packet waits in does not matter to what the queue yields. */
  lemma PushYield(net: Net, n: NodeId, lanes: Lanes<Packet>, l: nat, q: Packet)
    requires Acyclic(net.Links()) && l < |lanes|
    ensures QueueYield(net, n, Push(lanes, l, q)) == QueueYield(net, n, lanes) + Processed(net, n, q)
  {
    var a, b := PushSplits(lanes, l, q);
    LineAppend(net, n, a, b);
    LineAppend(net, n, a + [q], b);
    LineAppend(net, n, a, [q]);
    LineOne(net, n, q);
  }

  lemma PopYield(net: Net, n: NodeId, lanes: Lanes<Packet>)
    requires Acyclic(net.Links()) && Pop(lanes).0.Some?
    ensures QueueYield(net, n, lanes) == Processed(net, n, Pop(lanes).0.value) + QueueYield(net, n, Pop(lanes).1)
  {
    PopIsDrain(lanes);
    FlattenEmpty(lanes);
    LineAppend(net, n, [Pop(lanes).0.value], Flatten(Pop(lanes).1));
    LineOne(net, n, Pop(lanes).0.value);
  }

  lemma QueueYieldsSet(net: Net, order: seq<NodeId>, queues: Queues, n: NodeId, lanes: Lanes<Packet>)
    requires Acyclic(net.Links()) && Lists(order, queues.Keys) && n in queues
    ensures Lists(order, queues[n := lanes].Keys)
    ensures Total(QueueYields(net, order, queues[n := lanes])) + QueueYield(net, n, queues[n]) ==
            Total(QueueYields(net, order, queues)) + QueueYield(net, n, lanes)
  {
    var i :| 0 <= i < |order| && order[i] == n;
    var ys := QueueYields(net, order, queues);
    assert QueueYields(net, order, queues[n := lanes]) == ys[i := QueueYield(net, n, lanes)];
    TotalSet(ys, i, QueueYield(net, n, lanes));
  }

  // ----- Conservation -----------------------------------------------------

  /** A step that moves one task between places that yield the same. */
  lemma MovedYield(net: Net, tasks: seq<Task>, t: nat, pc: Pc)
    requires Acyclic(net.Links()) && t < |tasks| && TaskYield(net, pc) == TaskYield(net, tasks[t].pc)
    ensures Total(TaskYields(net, SetPc(tasks, t, pc))) == Total(TaskYields(net, tasks))
  {
    var ys := TaskYields(net, tasks);
    assert TaskYields(net, SetPc(tasks, t, pc)) == ys;
  }

  lemma CheckYield(net: Net, s: State, t: nat)
    requires Acyclic(net.Links()) && Enabled(net, s, Check(t))
    ensures var s' := Apply(net, s, Check(t));
            && s'.queues == s.queues
            && Pays(Total(TaskYields(net, s.tasks)), Total(TaskYields(net, s'.tasks)), s'.tasks[t].pc, None)
  {
    var pc := s.tasks[t].pc;
    var refused := Refused(net, pc.node, pc.packet);
    if refused.Some? {
      TotalMember(TaskYields(net, s.tasks), t);
      TaskTakes(net, s.tasks, t, Finished(Err(refused.value)));
    } else {
      MovedYield(net, s.tasks, t, Sending(pc.node, pc.packet.RecordHop(pc.node)));
    }
  }

  /** A task that gave up `x`, or took it on. */
  lemma TaskTakes(net: Net, tasks: seq<Task>, t: nat, pc: Pc)
    requires Acyclic(net.Links()) && t < |tasks|
    ensures TaskYield(net, tasks[t].pc) == multiset{} ==>
              Total(TaskYields(net, SetPc(tasks, t, pc))) == Total(TaskYields(net, tasks)) + TaskYield(net, pc)
    ensures TaskYield(net, pc) == multiset{} ==>
              Total(TaskYields(net, SetPc(tasks, t, pc))) + TaskYield(net, tasks[t].pc) == Total(TaskYields(net, tasks))
  {
    TaskYieldsSet(net, tasks, t, pc);
    var a, b := Total(TaskYields(net, SetPc(tasks, t, pc))), Total(TaskYields(net, tasks));
    assert a + multiset{} == a && b + multiset{} == b;
  }

  lemma QueueTakes(net: Net, order: seq<NodeId>, queues: Queues, n: NodeId, q: Packet)
    requires Acyclic(net.Links()) && Lists(order, queues.Keys) && n in queues && |queues[n]| == 3
    ensures var queues' := queues[n := Push(queues[n], LaneFor(q), q)];
            && Lists(order, queues'.Keys)
            && Total(QueueYields(net, order, queues')) == Total(QueueYields(net, order, queues)) + Processed(net, n, q)
  {
    var lanes := Push(queues[n], LaneFor(q), q);
    PushYield(net, n, queues[n], LaneFor(q), q);
    QueueYieldsSet(net, order, queues, n, lanes);
    Cancel(Total(QueueYields(net, order, queues[n := lanes])), Total(QueueYields(net, order, queues)),
           QueueYield(net, n, queues[n]), Processed(net, n, q));
  }

  lemma QueueGives(net: Net, order: seq<NodeId>, queues: Queues, n: NodeId)
    requires Acyclic(net.Links()) && Lists(order, queues.Keys) && n in queues && Pop(queues[n]).0.Some?
    ensures var (front, lanes) := Pop(queues[n]);
            && Lists(order, queues[n := lanes].Keys)
            && Total(QueueYields(net, order, queues)) ==
               Total(QueueYields(net, order, queues[n := lanes])) + Processed(net, n, front.value)
  {
    var (front, lanes) := Pop(queues[n]);
    PopYield(net, n, queues[n]);
    QueueYieldsSet(net, order, queues, n, lanes);
    Cancel(Total(QueueYields(net, order, queues)), Total(QueueYields(net, order, queues[n := lanes])),
           QueueYield(net, n, lanes), Processed(net, n, front.value));
  }

  lemma Cancel(b': multiset<Event>, b: multiset<Event>, rest: multiset<Event>, x: multiset<Event>)
    requires b' + rest == b + (rest + x) || b' + rest == b + (x + rest)
    ensures b' == b + x
  {
    forall e ensures b'[e] == (b + x)[e] {
      assert (b' + rest)[e] == (b + (rest + x))[e];
    }
  }

  lemma Shift(a: multiset<Event>, b: multiset<Event>, x: multiset<Event>)
    ensures (a + x) + b == a + (b + x)
  {
  }

  lemma SendIs(net: Net, s: State, t: nat)
    requires Enabled(net, s, Send(t))
    ensures var n, q := s.tasks[t].pc.node, s.tasks[t].pc.packet;
            && n in s.queues && |s.queues[n]| == 3 && s.tasks[t].pc == Sending(n, q)
            && Apply(net, s, Send(t)) ==
               s.(tasks := SetPc(s.tasks, t, Queued(n)), queues := s.queues[n := Push(s.queues[n], LaneFor(q), q)])
  {
  }

  lemma Handover(t: multiset<Event>, t': multiset<Event>, q: multiset<Event>, q': multiset<Event>, x: multiset<Event>)
    requires t' + x == t && q' == q + x
    ensures t' + q' == t + q
  {
  }

  /** A packet that is sent takes what it yields from its task to the queue. */
  lemma SentYield(
    net: Net, order: seq<NodeId>, tasks: seq<Task>, tasks': seq<Task>, queues: Queues, queues': Queues,
    t: nat, n: NodeId, q: Packet)
    requires Acyclic(net.Links()) && Lists(order, queues.Keys) && n in queues && |queues[n]| == 3
    requires t < |tasks| && tasks[t].pc == Sending(n, q) && tasks' == SetPc(tasks, t, Queued(n))
    requires queues' == queues[n := Push(queues[n], LaneFor(q), q)]
    ensures Lists(order, queues'.Keys)
    ensures Total(TaskYields(net, tasks')) + Total(QueueYields(net, order, queues')) ==
            Total(TaskYields(net, tasks)) + Total(QueueYields(net, order, queues))
  {
    TaskTakes(net, tasks, t, Queued(n));
    QueueTakes(net, order, queues, n, q);
    Handover(Total(TaskYields(net, tasks)), Total(TaskYields(net, tasks')),
             Total(QueueYields(net, order, queues)), Total(QueueYields(net, order, queues')), Processed(net, n, q));
  }

  lemma SendYield(net: Net, order: seq<NodeId>, s: State, t: nat)
    requires Acyclic(net.Links()) && Lists(order, s.queues.Keys) && Enabled(net, s, Send(t))
    ensures var s' := Apply(net, s, Send(t));
            && Lists(order, s'.queues.Keys)
            && Pays(Yield(net, order, s), Yield(net, order, s'), s'.tasks[t].pc, None)
  {
    SendIs(net, s, t);
    var s' := Apply(net, s, Send(t));
    SentYield(net, order, s.tasks, s'.tasks, s.queues, s'.queues, t, s.tasks[t].pc.node, s.tasks[t].pc.packet);
  }

  lemma ForkYield(net: Net, tasks: seq<Task>, t: nat, n: NodeId, targets: seq<NodeId>, p: Packet)
    requires Acyclic(net.Links()) && t < |tasks| && TaskYield(net, tasks[t].pc) == multiset{}
    requires forall x :: x in targets ==> (n, x) in net.Links()
    ensures Total(TaskYields(net, SetPc(tasks, t, Joining(Ids(|tasks|, |targets|), [])) + Spawned(t, targets, p))) ==
            Total(TaskYields(net, tasks)) + Arrivals(net, n, targets, p)
  {
    var joining := Joining(Ids(|tasks|, |targets|), []);
    MovedYield(net, tasks, t, joining);
    TaskYieldsAppend(net, SetPc(tasks, t, joining), Spawned(t, targets, p));
    SpawnedYield(net, n, t, targets, p);
  }

  /** What a packet yields, routing by routing. */
  lemma ProcessedIs(net: Net, n: NodeId, q: Packet, routing: Routing)
    requires Acyclic(net.Links()) && n in net.modules && routing == Route(net, n, net.modules[n].Process([], q))
    ensures routing.Ends? ==>
              Processed(net, n, q) ==
              if routing.result.Ok? then Deliveries(routing.result.value) else multiset{Lost(routing.result.error)}
    ensures routing.Goes? ==> Processed(net, n, q) == Arrival(net, routing.to, routing.packet)
    ensures routing.Forks? ==>
              && (forall t :: t in routing.targets ==> (n, t) in net.Links())
              && Processed(net, n, q) == Arrivals(net, n, routing.targets, routing.packet)
  {
    RouteFollowsLinks(net, n, net.modules[n].Process([], q));
  }

  /** What routing makes of the tasks. */
  function TasksAfter(tasks: seq<Task>, t: nat, routing: Routing): seq<Task>
    requires t < |tasks|
  {
    match routing
    case Ends(result) => SetPc(tasks, t, Finished(result))
    case Goes(to, p) => SetPc(tasks, t, Arriving(to, p))
    case Forks(targets, p) => SetPc(tasks, t, Joining(Ids(|tasks|, |targets|), [])) + Spawned(t, targets, p)
  }

  lemma RoutedTasks(s: State, t: nat, routing: Routing)
    requires t < |s.tasks|
    ensures Routed(s, t, routing).tasks == TasksAfter(s.tasks, t, routing)
  {
  }

  /** A received packet's yield moves to its task, and to the branches spawned for it. */
  lemma RoutedYield(net: Net, tasks: seq<Task>, t: nat, n: NodeId, q: Packet, routing: Routing)
    requires Acyclic(net.Links()) && t < |tasks| && TaskYield(net, tasks[t].pc) == multiset{}
    requires n in net.modules && routing == Route(net, n, net.modules[n].Process([], q))
    requires !(routing.Ends? && routing.result.Err?)
    ensures Total(TaskYields(net, TasksAfter(tasks, t, routing))) ==
            Total(TaskYields(net, tasks)) + Processed(net, n, q)
  {
    ProcessedIs(net, n, q, routing);
    match routing
    case Ends(result) => TaskTakes(net, tasks, t, Finished(result));
    case Goes(to, p) => TaskTakes(net, tasks, t, Arriving(to, p));
    case Forks(targets, p) => ForkYield(net, tasks, t, n, targets, p);
  }

  /** What receiving does, for a stateless module. */
  lemma ReceiveIs(net: Net, s: State, t: nat) returns (mid: State, q: Packet, routing: Routing)
    requires Stateless(net) && Enabled(net, s, Receive(t))
    ensures var n := s.tasks[t].pc.node;
            && Pop(s.queues[n]).0 == Some(q)
            && mid == s.(queues := s.queues[n := Pop(s.queues[n]).1], handed := mid.handed, lock := None)
            && routing == Route(net, n, net.modules[n].Process([], q))
            && Apply(net, s, Receive(t)) == Routed(mid, t, routing)
  {
    var n := s.tasks[t].pc.node;
    var (front, lanes) := Pop(s.queues[n]);
    q := front.value;
    assert net.modules[n].Stateless();
    assert net.modules[n].Process(LogAt(s.handed, n), q) == net.modules[n].Process([], q);
    routing := Route(net, n, net.modules[n].Process([], q));
    mid := s.(queues := s.queues[n := lanes], handed := Record(net, s.handed, n, q), lock := None);
  }

  /** Receiving where that fails: the packet was to be lost for the same reason. */
  lemma ReceivedFails(
    net: Net, order: seq<NodeId>, s: State, mid: State, t: nat, n: NodeId, q: Packet, e: ExecutionError)
    requires Acyclic(net.Links()) && Lists(order, s.queues.Keys) && n in s.queues && n in net.modules
    requires Pop(s.queues[n]).0 == Some(q) && mid.queues == s.queues[n := Pop(s.queues[n]).1]
    requires t < |s.tasks| && mid.tasks == s.tasks && TaskYield(net, s.tasks[t].pc) == multiset{}
    requires Ends(Err(e)) == Route(net, n, net.modules[n].Process([], q))
    ensures var s' := Routed(mid, t, Ends(Err(e)));
            && Lists(order, s'.queues.Keys)
            && Lost(e) in Yield(net, order, s) && Yield(net, order, s') <= Yield(net, order, s)
  {
    QueueGives(net, order, s.queues, n);
    ProcessedIs(net, n, q, Ends(Err(e)));
    var s' := Routed(mid, t, Ends(Err(e)));
    MovedYield(net, s.tasks, t, Finished(Err(e)));
    LostFrom(Total(TaskYields(net, s.tasks)), Total(QueueYields(net, order, s.queues)),
             Total(QueueYields(net, order, s'.queues)), e);
  }

  lemma LostFrom(t: multiset<Event>, q: multiset<Event>, q': multiset<Event>, e: ExecutionError)
    requires q == q' + multiset{Lost(e)}
    ensures Lost(e) in t + q && t + q' <= t + q
  {
  }

  /** Receiving where it does not: what the packet yields moves from the queue to the task. */
  lemma ReceivedMoves(
    net: Net, order: seq<NodeId>, s: State, mid: State, t: nat, n: NodeId, q: Packet, routing: Routing)
    requires Acyclic(net.Links()) && Lists(order, s.queues.Keys) && n in s.queues && n in net.modules
    requires Pop(s.queues[n]).0 == Some(q) && mid.queues == s.queues[n := Pop(s.queues[n]).1]
    requires t < |s.tasks| && mid.tasks == s.tasks && TaskYield(net, s.tasks[t].pc) == multiset{}
    requires routing == Route(net, n, net.modules[n].Process([], q)) && !(routing.Ends? && routing.result.Err?)
    ensures var s' := Routed(mid, t, routing);
            Lists(order, s'.queues.Keys) && Yield(net, order, s') == Yield(net, order, s)
  {
    QueueGives(net, order, s.queues, n);
    RoutedTasks(mid, t, routing);
    RoutedYield(net, s.tasks, t, n, q, routing);
    Shift(Total(TaskYields(net, s.tasks)), Total(QueueYields(net, order, mid.queues)), Processed(net, n, q));
  }

  lemma RoutedPc(s: State, t: nat, routing: Routing)
    requires t < |s.tasks|
    ensures t < |Routed(s, t, routing).tasks|
    ensures Routed(s, t, routing).tasks[t].pc ==
            match routing
            case Ends(result) => Finished(result)
            case Goes(to, p) => Arriving(to, p)
            case Forks(targets, _) => Joining(Ids(|s.tasks|, |targets|), [])
  {
  }

  lemma ReceiveYield(net: Net, order: seq<NodeId>, s: State, t: nat)
    requires Acyclic(net.Links()) && Stateless(net) && Lists(order, s.queues.Keys) && Enabled(net, s, Receive(t))
    ensures var s' := Apply(net, s, Receive(t));
            && Lists(order, s'.queues.Keys)
            && Pays(Yield(net, order, s), Yield(net, order, s'), s'.tasks[t].pc, None)
  {
    var mid, q, routing := ReceiveIs(net, s, t);
    var n := s.tasks[t].pc.node;
    RoutedPc(mid, t, routing);
    if routing.Ends? && routing.result.Err? {
      ReceivedFails(net, order, s, mid, t, n, q, routing.result.error);
    } else {
      ReceivedMoves(net, order, s, mid, t, n, q, routing);
    }
  }

  lemma JoinYield(net: Net, s: State, t: nat, c: nat)
    requires Acyclic(net.Links()) && Tree(s.tasks) && Enabled(net, s, Join(t, c))
    ensures var s' := Apply(net, s, Join(t, c));
            && s'.queues == s.queues
            && Pays(Total(TaskYields(net, s.tasks)), Total(TaskYields(net, s'.tasks)), s'.tasks[t].pc,
                    Some(s.tasks[c].pc))
  {
    var child := s.tasks[c].pc;
    assert PendingAreChildren(s.tasks, t);
    match child.result
    case Ok(packets) => JoinedYield(net, s.tasks, t, c, packets);
    case Err(e) => TaskTakes(net, s.tasks, t, Finished(Err(e)));
  }

  /** A dropped branch takes what it stood to yield with it, but for a packet it had sent. */
  lemma AbortYield(net: Net, s: State, t: nat)
    requires Acyclic(net.Links()) && Enabled(net, s, Abort(t))
    ensures var s' := Apply(net, s, Abort(t));
            && s'.queues == s.queues
            && Pays(Total(TaskYields(net, s.tasks)), Total(TaskYields(net, s'.tasks)), s'.tasks[t].pc, None)
  {
    TaskTakes(net, s.tasks, t, Aborted(s.tasks[t].pc.Ticket()));
  }

  /** The parent's results grow by what the child delivered. */
  lemma CollectYield(net: Net, tasks: seq<Task>, t: nat, pending: set<nat>, packets: seq<Packet>)
    requires Acyclic(net.Links()) && t < |tasks| && tasks[t].pc.Joining?
    ensures Total(TaskYields(net, SetPc(tasks, t, Joining(pending, tasks[t].pc.results + packets)))) ==
            Total(TaskYields(net, tasks)) + Deliveries(packets)
  {
    var rs := tasks[t].pc.results;
    var next := Joining(pending, rs + packets);
    DeliveriesAppend(rs, packets);
    TaskYieldsSet(net, tasks, t, next);
    assert TaskYield(net, next) == Deliveries(rs) + Deliveries(packets);
    assert TaskYield(net, tasks[t].pc) == Deliveries(rs);
    Cancel(Total(TaskYields(net, SetPc(tasks, t, next))), Total(TaskYields(net, tasks)),
           Deliveries(rs), Deliveries(packets));
  }

  lemma JoinedYield(net: Net, tasks: seq<Task>, t: nat, c: nat, packets: seq<Packet>)
    requires Acyclic(net.Links()) && t < |tasks| && c < |tasks| && c != t
    requires tasks[t].pc.Joining? && tasks[c].pc == Finished(Ok(packets))
    ensures var pc := tasks[t].pc;
            var joined := SetPc(tasks, t, Joining(pc.pending - {c}, pc.results + packets));
            Total(TaskYields(net, SetPc(joined, c, Reaped))) == Total(TaskYields(net, tasks))
  {
    var pc := tasks[t].pc;
    var joined := SetPc(tasks, t, Joining(pc.pending - {c}, pc.results + packets));
    CollectYield(net, tasks, t, pc.pending - {c}, packets);
    ReapYield(net, joined, c, packets);
    Same(Total(TaskYields(net, SetPc(joined, c, Reaped))), Total(TaskYields(net, tasks)), Deliveries(packets));
  }

  lemma ReapYield(net: Net, tasks: seq<Task>, c: nat, packets: seq<Packet>)
    requires Acyclic(net.Links()) && c < |tasks| && tasks[c].pc == Finished(Ok(packets))
    ensures Total(TaskYields(net, SetPc(tasks, c, Reaped))) + Deliveries(packets) == Total(TaskYields(net, tasks))
  {
    assert TaskYield(net, Reaped) == multiset{} && TaskYield(net, tasks[c].pc) == Deliveries(packets);
    TaskTakes(net, tasks, c, Reaped);
  }

  lemma Same(a: multiset<Event>, b: multiset<Event>, x: multiset<Event>)
    requires a + x == b + x
    ensures a == b
  {
    forall e ensures a[e] == b[e] { assert (a + x)[e] == (b + x)[e]; }
  }

  /**
   A step that leaves its task at `pc` keeps the yield, unless the task failed, for a reason that was to
   come or that its child had failed for, or was dropped.
   */
  ghost predicate Pays(before: multiset<Event>, after: multiset<Event>, pc: Pc, child: Option<Pc>) {
    match pc
    case Finished(Err(e)) => (Lost(e) in before || child == Some(Finished(Err(e)))) && after <= before
    case Aborted(_) => after <= before
    case _ => after == before
  }

  function ChildOf(s: State, a: Action): Option<Pc> {
    if a.Join? && a.child < |s.tasks| then Some(s.tasks[a.child].pc) else None
  }

  lemma YieldByTasks(net: Net, order: seq<NodeId>, s: State, s': State, pc: Pc, child: Option<Pc>)
    requires Acyclic(net.Links()) && Lists(order, s.queues.Keys) && s'.queues == s.queues
    requires Pays(Total(TaskYields(net, s.tasks)), Total(TaskYields(net, s'.tasks)), pc, child)
    ensures Pays(Yield(net, order, s), Yield(net, order, s'), pc, child)
  {
  }

  /**
   A step conserves what is still to come, unless a task fails or is dropped by it. It can only fail
   with an error that was to come, or that a branch it spawned has failed with.
   */
  lemma YieldStep(net: Net, order: seq<NodeId>, s: State, a: Action)
    requires Acyclic(net.Links()) && Stateless(net)
    requires Tree(s.tasks) && Lists(order, s.queues.Keys) && Enabled(net, s, a)
    ensures var s' := Apply(net, s, a);
            && Lists(order, s'.queues.Keys) && a.t < |s'.tasks|
            && Pays(Yield(net, order, s), Yield(net, order, s'), s'.tasks[a.t].pc, ChildOf(s, a))
  {
    match a
    case Send(t) => SendYield(net, order, s, t);
    case Receive(t) => ReceiveYield(net, order, s, t);
    case _ =>
      TasksStep(net, s, a);
      var s' := Apply(net, s, a);
      YieldByTasks(net, order, s, s', s'.tasks[a.t].pc, ChildOf(s, a));
  }

  /** The same for the actions that leave the queues alone. */
  lemma TasksStep(net: Net, s: State, a: Action)
    requires Acyclic(net.Links()) && Tree(s.tasks) && Enabled(net, s, a) && !a.Send? && !a.Receive?
    ensures var s' := Apply(net, s, a);
            && s'.queues == s.queues && a.t < |s'.tasks|
            && Pays(Total(TaskYields(net, s.tasks)), Total(TaskYields(net, s'.tasks)), s'.tasks[a.t].pc, ChildOf(s, a))
  {
    match a
    case Check(t) => CheckYield(net, s, t);
    case Join(t, c) => JoinYield(net, s, t, c);
    case Abort(t) => AbortYield(net, s, t);
    case _ => CalmYield(net, s, a);
  }

  /** Taking a permit, taking the lock and concluding move no packet. */
  lemma CalmYield(net: Net, s: State, a: Action)
    requires Acyclic(net.Links()) && Enabled(net, s, a) && (a.AcquirePermit? || a.Lock? || a.Conclude?)
    ensures var s' := Apply(net, s, a);
            && s'.queues == s.queues
            && Pays(Total(TaskYields(net, s.tasks)), Total(TaskYields(net, s'.tasks)), s'.tasks[a.t].pc, None)
  {
    var s' := Apply(net, s, a);
    assert s'.tasks == SetPc(s.tasks, a.t, s'.tasks[a.t].pc);
    MovedYield(net, s.tasks, a.t, s'.tasks[a.t].pc);
  }

  /** After one step from a clean state, the acting task is the only one that can have gone wrong. */
  lemma CleanOrWrong(net: Net, s: State, a: Action)
    requires Clean(s.tasks) && Enabled(net, s, a)
    ensures var s' := Apply(net, s, a);
            && a.t < |s'.tasks| && !s'.tasks[a.t].pc.Aborted?
            && (Clean(s'.tasks) <==> !GoneWrong(s'.tasks[a.t].pc))
  {
    StepShape(net, s, a);
  }

  // ----- Whole runs -------------------------------------------------------

  /** A failed or dropped task stays that way. */
  lemma WrongStays(net: Net, s: State, a: Action)
    requires !Clean(s.tasks) && Enabled(net, s, a)
    ensures !Clean(Apply(net, s, a).tasks)
  {
    StepShape(net, s, a);
    var t :| 0 <= t < |s.tasks| && GoneWrong(s.tasks[t].pc);
    assert t != a.t;
    assert Apply(net, s, a).tasks[t] == s.tasks[t];
  }

  lemma {:induction false} EmptyQueuesYieldNothing(net: Net, order: seq<NodeId>, queues: Queues)
    requires Acyclic(net.Links()) && Lists(order, queues.Keys) && forall n :: n in queues ==> Depth(queues[n]) == 0
    ensures Total(QueueYields(net, order, queues)) == multiset{}
  {
    var ys := QueueYields(net, order, queues);
    forall i | 0 <= i < |ys| ensures ys[i] == multiset{} {
      assert Flatten(queues[order[i]]) == [];
    }
    TotalOfNothing(ys);
  }

  lemma {:induction false} TotalOfNothing(s: seq<multiset<Event>>)
    requires forall i :: 0 <= i < |s| ==> s[i] == multiset{}
    ensures Total(s) == multiset{}
  {
    if s != [] { TotalOfNothing(s[1..]); }
  }

  lemma EmptyDepths(net: Net, queues: Queues)
    requires QueuesEmpty(net, queues)
    ensures forall n :: n in queues ==> Depth(queues[n]) == 0
  {
    forall n | n in queues ensures Depth(queues[n]) == 0 { FlattenEmpty(queues[n]); }
  }

  ghost predicate FailsFor(pc: Pc, whole: multiset<Event>) {
    pc.Finished? && pc.result.Err? ==> Lost(pc.result.error) in whole
  }

  /**
   All of `whole` is still to come or already collected, unless something went wrong on the way; and
   whatever a task failed with is among it.
   */
  ghost predicate Due(net: Net, order: seq<NodeId>, s: State, whole: multiset<Event>)
    requires Acyclic(net.Links())
  {
    && Lists(order, s.queues.Keys) && Yield(net, order, s) <= whole
    && (if Clean(s.tasks) then Yield(net, order, s) == whole else !Lossless(whole))
    && forall t :: 0 <= t < |s.tasks| ==> FailsFor(s.tasks[t].pc, whole)
  }

  lemma DueAtStart(net: Net, order: seq<NodeId>, entry: NodeId, p: Packet, permits: nat, queues: Queues, handed: Logs)
    requires Acyclic(net.Links()) && entry in net.entries && QueuesEmpty(net, queues) && Lists(order, queues.Keys)
    ensures Due(net, order, Start(net, entry, p, permits, queues, handed), Arrival(net, entry, p))
  {
    var s0 := Start(net, entry, p, permits, queues, handed);
    assert TaskYields(net, s0.tasks) == [Arrival(net, entry, p)];
    TotalOne(Arrival(net, entry, p));
    EmptyDepths(net, queues);
    EmptyQueuesYieldNothing(net, order, queues);
  }

  /** From a state where `whole` is due, it stays due. */
  lemma {:induction false} StaysDue(
    net: Net, order: seq<NodeId>, s: State, schedule: seq<Action>, whole: multiset<Event>)
    requires Acyclic(net.Links()) && Stateless(net) && Tree(s.tasks) && Due(net, order, s, whole)
    ensures var r := Play(net, s, schedule);
            r.Some? ==> Tree(r.value.tasks) && Due(net, order, r.value, whole)
    decreases |schedule|
  {
    if schedule != [] {
      var last := |schedule| - 1;
      StaysDue(net, order, s, schedule[..last], whole);
      var r := Play(net, s, schedule[..last]);
      if r.Some? && Enabled(net, r.value, schedule[last]) {
        TreeStep(net, r.value, schedule[last]);
        DueStep(net, order, r.value, schedule[last], whole);
      }
    }
  }

  /**
   What a call stands to yield after any schedule: all of it if nothing went wrong yet; and every branch
   that has failed did so with an error of the unfolding.
   */
  lemma YieldRun(
    net: Net, order: seq<NodeId>, entry: NodeId, p: Packet, permits: nat, queues: Queues, handed: Logs,
    schedule: seq<Action>)
    requires net.WellFormed() && Acyclic(net.Links()) && Stateless(net) && entry in net.entries
    requires QueuesEmpty(net, queues) && Lists(order, queues.Keys)
    ensures var r := Play(net, Start(net, entry, p, permits, queues, handed), schedule);
            r.Some? ==> Due(net, order, r.value, Arrival(net, entry, p))
  {
    DueAtStart(net, order, entry, p, permits, queues, handed);
    StaysDue(net, order, Start(net, entry, p, permits, queues, handed), schedule, Arrival(net, entry, p));
  }

  lemma DueStep(net: Net, order: seq<NodeId>, s: State, a: Action, whole: multiset<Event>)
    requires Acyclic(net.Links()) && Stateless(net) && Tree(s.tasks) && Enabled(net, s, a)
    requires Due(net, order, s, whole)
    ensures Due(net, order, Apply(net, s, a), whole)
  {
    var s' := Apply(net, s, a);
    YieldStep(net, order, s, a);
    ReasonsKept(net, s, a, whole);
    DueAfter(net, order, s, s', a.t, ChildOf(s, a), whole);
  }

  /** What tells `Due` whether something went wrong. */
  lemma ReasonsKept(net: Net, s: State, a: Action, whole: multiset<Event>)
    requires Enabled(net, s, a) && forall t :: 0 <= t < |s.tasks| ==> FailsFor(s.tasks[t].pc, whole)
    ensures var s' := Apply(net, s, a);
            && a.t < |s'.tasks| && (ChildOf(s, a).Some? ==> FailsFor(ChildOf(s, a).value, whole))
            && (forall c :: 0 <= c < |s'.tasks| && c != a.t ==> FailsFor(s'.tasks[c].pc, whole))
            && (Clean(s.tasks) ==> !s'.tasks[a.t].pc.Aborted?)
            && if Clean(s.tasks) then Clean(s'.tasks) <==> !GoneWrong(s'.tasks[a.t].pc) else !Clean(s'.tasks)
  {
    OthersFailFor(net, s, a, whole);
    if Clean(s.tasks) { CleanOrWrong(net, s, a); } else { WrongStays(net, s, a); }
  }

  lemma DueAfter(
    net: Net, order: seq<NodeId>, s: State, s': State, t: nat, child: Option<Pc>, whole: multiset<Event>)
    requires Acyclic(net.Links()) && Due(net, order, s, whole) && Lists(order, s'.queues.Keys) && t < |s'.tasks|
    requires Pays(Yield(net, order, s), Yield(net, order, s'), s'.tasks[t].pc, child)
    requires child.Some? ==> FailsFor(child.value, whole)
    requires forall c :: 0 <= c < |s'.tasks| && c != t ==> FailsFor(s'.tasks[c].pc, whole)
    requires if Clean(s.tasks) then Clean(s'.tasks) <==> !GoneWrong(s'.tasks[t].pc) else !Clean(s'.tasks)
    requires Clean(s.tasks) ==> !s'.tasks[t].pc.Aborted?
    ensures Due(net, order, s', whole)
  {
    var pc := s'.tasks[t].pc;
    assert FailsFor(pc, whole);
  }

  /** Only the acting task can fail in a step. */
  lemma OthersFailFor(net: Net, s: State, a: Action, whole: multiset<Event>)
    requires Enabled(net, s, a) && forall t :: 0 <= t < |s.tasks| ==> FailsFor(s.tasks[t].pc, whole)
    ensures forall c :: 0 <= c < |Apply(net, s, a).tasks| && c != a.t ==> FailsFor(Apply(net, s, a).tasks[c].pc, whole)
    ensures a.t < |Apply(net, s, a).tasks|
  {
    StepShape(net, s, a);
  }

  /** When the call returns normally every branch has been joined. */
  lemma {:induction false} AllReaped(tasks: seq<Task>, t: nat)
    requires Tree(tasks) && tasks[0].pc.Finished? && tasks[0].pc.result.Ok? && 0 < t < |tasks|
    ensures tasks[t].pc == Reaped
    decreases t
  {
    assert FitsParent(t, tasks[t], tasks[tasks[t].parent]);
    if tasks[t].parent > 0 { AllReaped(tasks, tasks[t].parent); }
  }

  lemma OkReaps(tasks: seq<Task>)
    requires Tree(tasks) && tasks[0].pc.Finished? && tasks[0].pc.result.Ok?
    ensures Held(tasks) == {} && forall n: NodeId :: Tickets(tasks, n) == {}
    ensures forall t :: 0 < t < |tasks| ==> tasks[t].pc == Reaped
  {
    forall t | 0 < t < |tasks| ensures tasks[t].pc == Reaped { AllReaped(tasks, t); }
  }

  /** An error-free end: every branch joined, every permit back, every queue empty. */
  lemma OkEnd(net: Net, total: nat, start: Queues, s: State)
    requires QueuesEmpty(net, start) && Inv(net, total, start, s) && Done(s) && s.tasks[0].pc.result.Ok?
    ensures forall t :: 0 < t < |s.tasks| ==> s.tasks[t].pc == Reaped
    ensures s.free == total && QueuesEmpty(net, s.queues)
  {
    OkReaps(s.tasks);
    EmptyDepths(net, start);
    forall n | n in s.queues ensures s.queues[n] == NO_PACKETS {
      assert Depth(s.queues[n]) == |Tickets(s.tasks, n)|;
      NoDepth(s.queues[n]);
    }
  }

  lemma NoDepth(lanes: Lanes<Packet>)
    requires |lanes| == 3 && Depth(lanes) == 0
    ensures lanes == NO_PACKETS
  {
    FlattenEmpty(lanes);
    assert lanes == [lanes[0], lanes[1], lanes[2]];
  }

  lemma OkYield(net: Net, order: seq<NodeId>, s: State)
    requires Acyclic(net.Links()) && Lists(order, s.queues.Keys) && QueuesEmpty(net, s.queues)
    requires Done(s) && s.tasks[0].pc.result.Ok? && forall t :: 0 < t < |s.tasks| ==> s.tasks[t].pc == Reaped
    ensures Yield(net, order, s) == Deliveries(s.tasks[0].pc.result.value)
  {
    EmptyDepths(net, s.queues);
    EmptyQueuesYieldNothing(net, order, s.queues);
    var ys := TaskYields(net, s.tasks);
    forall i | 0 <= i < |ys[1..]| ensures ys[1..][i] == multiset{} {
      assert s.tasks[i + 1].pc == Reaped;
    }
    TotalOfNothing(ys[1..]);
  }

  /** For any graph and any modules: a call that returns normally leaves all queues empty and all permits back. */
  lemma OkLeavesNothing(
    net: Net, entry: NodeId, p: Packet, permits: nat, queues: Queues, handed: Logs, schedule: seq<Action>)
    requires net.WellFormed() && QueuesEmpty(net, queues)
    ensures var r := Play(net, Start(net, entry, p, permits, queues, handed), schedule);
            r.Some? && Done(r.value) && r.value.tasks[0].pc.result.Ok? ==>
              QueuesEmpty(net, r.value.queues) && r.value.free == Pool(permits)
  {
    var r := Play(net, Start(net, entry, p, permits, queues, handed), schedule);
    InvRun(net, entry, p, permits, queues, handed, schedule);
    if r.Some? && Done(r.value) && r.value.tasks[0].pc.result.Ok? {
      OkEnd(net, Pool(permits), queues, r.value);
    }
  }

  lemma EndYields(net: Net, order: seq<NodeId>, total: nat, start: Queues, s: State, whole: multiset<Event>)
    requires net.WellFormed() && Acyclic(net.Links()) && QueuesEmpty(net, start)
    requires Inv(net, total, start, s) && Done(s) && Due(net, order, s, whole)
    ensures var result := s.tasks[0].pc.result;
            && (result.Ok? <==> Lossless(whole)) && (result.Err? ==> Lost(result.error) in whole)
            && (result.Ok? ==> Deliveries(result.value) == whole && QueuesEmpty(net, s.queues) && s.free == total)
  {
    var result := s.tasks[0].pc.result;
    if result.Ok? {
      OkEnd(net, total, start, s);
      OkYield(net, order, s);
      NothingLost(result.value);
    } else {
      assert FailsFor(s.tasks[0].pc, whole);
    }
  }

  lemma NothingLost(packets: seq<Packet>)
    ensures Lossless(Deliveries(packets))
  {
    if packets != [] { DeliveriesCount(packets, packets[0]); }
  }

  /**
   Schedule independence. On an acyclic graph with stateless modules, a call from empty queues that
   finishes returns normally exactly when no branch of the unfolding is lost; it then returns,
   in some order, the packets of the unfolding, with all queues empty and all permits back. Otherwise
   the error it returns is one that some branch of the unfolding is lost to.
   */
  lemma ScheduleIndependence(
    net: Net, entry: NodeId, p: Packet, permits: nat, queues: Queues, handed: Logs, schedule: seq<Action>)
    requires net.WellFormed() && Acyclic(net.Links()) && Stateless(net) && entry in net.entries
    requires QueuesEmpty(net, queues)
    ensures var r := Play(net, Start(net, entry, p, permits, queues, handed), schedule);
            r.Some? && Done(r.value) ==>
              var result := r.value.tasks[0].pc.result;
              && (result.Ok? <==> Lossless(Arrival(net, entry, p)))
              && (result.Err? ==> Lost(result.error) in Arrival(net, entry, p))
              && (result.Ok? ==>
                    && Deliveries(result.value) == Arrival(net, entry, p)
                    && QueuesEmpty(net, r.value.queues) && r.value.free == Pool(permits))
  {
    var r := Play(net, Start(net, entry, p, permits, queues, handed), schedule);
    if r.Some? && Done(r.value) {
      var order := SomeListing(queues.Keys);
      InvRun(net, entry, p, permits, queues, handed, schedule);
      YieldRun(net, order, entry, p, permits, queues, handed, schedule);
      EndYields(net, order, Pool(permits), queues, r.value, Arrival(net, entry, p));
    }
  }

  /** Two interleavings that both return normally return the same packets. */
  lemma SamePackets(
    net: Net, entry: NodeId, p: Packet, permits: nat, permits': nat, queues: Queues,
    handed: Logs, handed': Logs, schedule: seq<Action>, schedule': seq<Action>)
    requires net.WellFormed() && Acyclic(net.Links()) && Stateless(net) && entry in net.entries
    requires QueuesEmpty(net, queues)
    ensures var r := Play(net, Start(net, entry, p, permits, queues, handed), schedule);
            var r' := Play(net, Start(net, entry, p, permits', queues, handed'), schedule');
            r.Some? && Done(r.value) && r'.Some? && Done(r'.value) ==>
              var a, b := r.value.tasks[0].pc.result, r'.value.tasks[0].pc.result;
              a.Ok? == b.Ok? && (a.Ok? ==> multiset(a.value) == multiset(b.value))
  {
    ScheduleIndependence(net, entry, p, permits, queues, handed, schedule);
    ScheduleIndependence(net, entry, p, permits', queues, handed', schedule');
    var r := Play(net, Start(net, entry, p, permits, queues, handed), schedule);
    var r' := Play(net, Start(net, entry, p, permits', queues, handed'), schedule');
    if r.Some? && Done(r.value) && r'.Some? && Done(r'.value) && r.value.tasks[0].pc.result.Ok? {
      var a, b := r.value.tasks[0].pc.result.value, r'.value.tasks[0].pc.result.value;
      forall q ensures multiset(a)[q] == multiset(b)[q] {
        DeliveriesCount(a, q);
        DeliveriesCount(b, q);
      }
    }
  }
}
