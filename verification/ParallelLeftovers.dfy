/**
 What failed calls leave behind. A branch that is aborted between sending and receiving leaves its packet
 in the node's queue, where no later call takes out more than it puts in; once failures have filled a
 lane, a call that comes there waits for ever.
 */
module ParallelLeftovers {
  import opened Wrappers
  import opened Packets
  import opened Modules
  import opened Digraphs
  import opened Graphs
  import opened LaneQueues
  import opened NodeQueues
  import opened Walks
  import opened ParallelExecution
  import opened ParallelInvariants
  import opened ParallelProgress
  import opened ParallelOutcome
  import opened ParallelCases
  import opened ParallelDeadlock

  function Broken(): Module {
    Module("broken", Transformer, None, None, true, (_, _) => Response(Fail(Crashed("broken")), 0), None, None)
  }

  /** Node 0 fans out to node 1, which always fails, and to node 2, an exit where packets may also enter. */
  function LeakyNet(capacity: nat): Net {
    Net(map[0 := PassThrough(), 1 := Broken(), 2 := PassThrough()],
        [Edge(0, 1, Parallel, None), Edge(0, 2, Parallel, None)], [0, 2], [2],
        map[0 := capacity, 1 := capacity, 2 := capacity])
  }

  /** Empty queues but for `lanes` at node 2. */
  function Holding(lanes: Lanes<Packet>): Queues { map[0 := NO_PACKETS, 1 := NO_PACKETS, 2 := lanes] }

  lemma LeakyNetFits(capacity: nat)
    requires capacity >= 1
    ensures LeakyNet(capacity).WellFormed() && Acyclic(LeakyNet(capacity).Links()) && Stateless(LeakyNet(capacity))
  {
    var net := LeakyNet(capacity);
    var targets: set<NodeId> := {1, 2};
    assert net.Links() <= {(0, 1), (0, 2)};
    forall x: NodeId, y: NodeId | (x, y) in net.Links() ensures !Reaches(net.Links(), y, x) {
      assert Closed(net.Links(), targets);
      if Reaches(net.Links(), y, x) { ReachesStaysInClosed(net.Links(), targets, y, x); }
    }
  }

  lemma LeakyRoutes(capacity: nat, log: seq<Packet>, p: Packet)
    ensures Route(LeakyNet(capacity), 0, PassThrough().Process(log, p)) == Forks([1, 2], p)
    ensures Route(LeakyNet(capacity), 1, Broken().Process(log, p)) == Ends(Err(InModule(Crashed("broken"))))
  {
    var to1, to2 := Edge(0, 1, Parallel, None), Edge(0, 2, Parallel, None);
    var edges := [to1, to2];
    assert edges[1..] == [to2] && [to2][1..] == [];
    assert Accepting([to2], 0, p) == [to2] + Accepting([], 0, p);
    assert Accepting(edges, 0, p) == [to1] + Accepting([to2], 0, p) == edges;
    assert ParallelTargets([to2]) == [2] + ParallelTargets([]);
    assert ParallelTargets(edges) == [1] + ParallelTargets([to2]) == [1, 2];
  }

  /** The packet's lane at node 2 has room. */
  predicate HasRoom(capacity: nat, lanes: Lanes<Packet>, p: Packet) {
    |lanes| == 3 && |lanes[LaneFor(p)]| < capacity
  }

  const BROKEN := Finished(Err(InModule(Crashed("broken"))))

  function Tasks(pc0: Pc, pc1: Pc, pc2: Pc): seq<Task> { [Task(0, pc0), Task(0, pc1), Task(0, pc2)] }

  /** The call has fanned out, and both branches wait for permits. */
  lemma FansOut(capacity: nat, p: Packet, lanes: Lanes<Packet>, handed: Logs) returns (schedule: seq<Action>, s: State)
    requires !p.traced && HasRoom(capacity, lanes, p)
    ensures Play(LeakyNet(capacity), Start(LeakyNet(capacity), 0, p, 2, Holding(lanes), handed), schedule) == Some(s)
    ensures s.tasks == Tasks(Joining({1, 2}, []), WaitPermit(1, p), WaitPermit(2, p))
    ensures s.queues == Holding(lanes) && s.free == 2 && s.lock == None
  {
    var net := LeakyNet(capacity);
    var s0 := Start(net, 0, p, 2, Holding(lanes), handed);
    schedule := Sends(net, s0, [], s0, 0, 0, p);
    schedule := Receives(net, s0, schedule, s0, 0, 0, p, p);
    LeakyRoutes(capacity, LogAt(handed, 0), p);
    s := Routed(s0.(handed := Record(net, handed, 0, p)), 0, Forks([1, 2], p));
    assert Ids(1, 2) == {1, 2};
    assert s.tasks == Tasks(Joining({1, 2}, []), WaitPermit(1, p), WaitPermit(2, p));
  }

  /** The second branch gets as far as having sent its packet. */
  lemma SecondSends(
    capacity: nat, p: Packet, lanes: Lanes<Packet>, s0: State, before: seq<Action>, s: State)
    returns (schedule: seq<Action>, s': State)
    requires !p.traced && HasRoom(capacity, lanes, p) && Play(LeakyNet(capacity), s0, before) == Some(s)
    requires s.tasks == Tasks(Joining({1, 2}, []), WaitPermit(1, p), WaitPermit(2, p))
    requires s.queues == Holding(lanes) && s.free == 2 && s.lock == None
    ensures Play(LeakyNet(capacity), s0, schedule) == Some(s')
    ensures s'.tasks == Tasks(Joining({1, 2}, []), WaitPermit(1, p), Queued(2))
    ensures s'.queues == Holding(Push(lanes, LaneFor(p), p)) && s'.free == 1 && s'.lock == None
  {
    var net := LeakyNet(capacity);
    PlayMore(net, s0, before, AcquirePermit(2));
    var s1 := Apply(net, s, AcquirePermit(2));
    assert s1.tasks == Tasks(Joining({1, 2}, []), WaitPermit(1, p), Arriving(2, p));
    schedule := Sends(net, s0, before + [AcquirePermit(2)], s1, 2, 2, p);
    s' := ParallelCases.Delivered(s1, 2, 2, p);
  }

  /** The first branch fails. */
  lemma FirstFails(
    capacity: nat, p: Packet, lanes: Lanes<Packet>, s0: State, before: seq<Action>, s: State)
    returns (schedule: seq<Action>, s': State)
    requires !p.traced && capacity >= 1 && |lanes| == 3 && Play(LeakyNet(capacity), s0, before) == Some(s)
    requires s.tasks == Tasks(Joining({1, 2}, []), WaitPermit(1, p), Queued(2))
    requires s.queues == Holding(lanes) && s.free == 1 && s.lock == None
    ensures Play(LeakyNet(capacity), s0, schedule) == Some(s')
    ensures s'.tasks == Tasks(Joining({1, 2}, []), BROKEN, Queued(2))
    ensures s'.queues == Holding(lanes) && s'.free == 1 && s'.lock == None
  {
    var net := LeakyNet(capacity);
    PlayMore(net, s0, before, AcquirePermit(1));
    var s1 := Apply(net, s, AcquirePermit(1));
    assert s1.tasks == Tasks(Joining({1, 2}, []), Arriving(1, p), Queued(2));
    schedule := Sends(net, s0, before + [AcquirePermit(1)], s1, 1, 1, p);
    schedule := Receives(net, s0, schedule, s1, 1, 1, p, p);
    LeakyRoutes(capacity, LogAt(s1.handed, 1), p);
    s' := Routed(s1.(handed := Record(net, s1.handed, 1, p)), 1, Ends(BROKEN.result));
  }

  /** The call notices, returns the error, and drops the second branch. */
  lemma CallFails(
    capacity: nat, p: Packet, lanes: Lanes<Packet>, s0: State, before: seq<Action>, s: State)
    returns (schedule: seq<Action>, s': State)
    requires Play(LeakyNet(capacity), s0, before) == Some(s)
    requires s.tasks == Tasks(Joining({1, 2}, []), BROKEN, Queued(2))
    requires s.queues == Holding(lanes) && s.free == 1 && s.lock == None
    ensures Play(LeakyNet(capacity), s0, schedule) == Some(s')
    ensures s'.tasks == Tasks(BROKEN, BROKEN, Aborted(Some(2)))
    ensures s'.queues == Holding(lanes) && s'.free == 2 && s'.lock == None
  {
    var net := LeakyNet(capacity);
    PlayMore(net, s0, before, Join(0, 1));
    var s1 := Apply(net, s, Join(0, 1));
    assert s1.tasks == Tasks(BROKEN, BROKEN, Queued(2));
    PlayMore(net, s0, before + [Join(0, 1)], Abort(2));
    schedule := before + [Join(0, 1)] + [Abort(2)];
    s' := Apply(net, s1, Abort(2));
  }

  /** A call that fails with nothing left to do, and the queues and histories it leaves. */
  ghost predicate FailedCall(
    net: Net, p: Packet, queues: Queues, handed: Logs, schedule: seq<Action>, queues': Queues, handed': Logs)
  {
    var r := Play(net, Start(net, 0, p, 2, queues, handed), schedule);
    && r.Some? && Done(r.value) && r.value.tasks[0].pc.result.Err? && Stuck(net, r.value)
    && r.value.queues == queues' && r.value.handed == handed'
  }

  lemma NothingLeftToDo(net: Net, s: State)
    requires s.tasks == Tasks(BROKEN, BROKEN, Aborted(Some(2)))
    ensures Done(s) && s.tasks[0].pc.result.Err? && Stuck(net, s)
  {
    forall a: Action ensures !Enabled(net, s, a) {
      if a.t < 3 { assert s.tasks[a.t].pc == BROKEN || s.tasks[a.t].pc == Aborted(Some(2)); }
    }
  }

  /** One failing call leaves one packet behind at node 2. */
  lemma FailureLeavesPacket(capacity: nat, p: Packet, lanes: Lanes<Packet>, handed: Logs)
    returns (schedule: seq<Action>, handed': Logs)
    requires !p.traced && HasRoom(capacity, lanes, p)
    ensures FailedCall(LeakyNet(capacity), p, Holding(lanes), handed, schedule,
                       Holding(Push(lanes, LaneFor(p), p)), handed')
  {
    var s0 := Start(LeakyNet(capacity), 0, p, 2, Holding(lanes), handed);
    var s;
    schedule, s := FansOut(capacity, p, lanes, handed);
    schedule, s := SecondSends(capacity, p, lanes, s0, schedule, s);
    schedule, s := FirstFails(capacity, p, Push(lanes, LaneFor(p), p), s0, schedule, s);
    schedule, s := CallFails(capacity, p, Push(lanes, LaneFor(p), p), s0, schedule, s);
    NothingLeftToDo(LeakyNet(capacity), s);
    handed' := s.handed;
  }

  /** What `n` calls in a row can leave behind that all fail, the first of them on empty queues. */
  ghost predicate LeftByFailures(net: Net, p: Packet, n: nat, queues: Queues, handed: Logs)
    decreases n
  {
    if n == 0 then QueuesEmpty(net, queues)
    else exists before: Queues, log: Logs, schedule ::
      LeftByFailures(net, p, n - 1, before, log) && FailedCall(net, p, before, log, schedule, queues, handed)
  }

  function Leftovers(p: Packet, n: nat): (lanes: Lanes<Packet>)
    ensures |lanes| == 3 && |lanes[LaneFor(p)]| == n
  {
    if n == 0 then NO_PACKETS else Push(Leftovers(p, n - 1), LaneFor(p), p)
  }

  lemma {:induction false} FailuresAddUp(capacity: nat, p: Packet, n: nat) returns (handed: Logs)
    requires !p.traced && n <= capacity
    ensures LeftByFailures(LeakyNet(capacity), p, n, Holding(Leftovers(p, n)), handed)
    decreases n
  {
    if n == 0 {
      handed := map[];
    } else {
      var log := FailuresAddUp(capacity, p, n - 1);
      var schedule;
      schedule, handed := FailureLeavesPacket(capacity, p, Leftovers(p, n - 1), log);
    }
  }

  /** A call that comes to a full lane gets no further. */
  lemma WaitsAtFullLane(capacity: nat, p: Packet, lanes: Lanes<Packet>, handed: Logs)
    returns (schedule: seq<Action>)
    requires !p.traced && |lanes| == 3 && |lanes[LaneFor(p)]| >= capacity
    ensures var net := LeakyNet(capacity);
            var r := Play(net, Start(net, 2, p, 2, Holding(lanes), handed), schedule);
            r.Some? && !Done(r.value) && Stuck(net, r.value)
  {
    var net := LeakyNet(capacity);
    var s0 := Start(net, 2, p, 2, Holding(lanes), handed);
    PlayMore(net, s0, [], Lock(0));
    var s1 := Apply(net, s0, Lock(0));
    PlayMore(net, s0, [] + [Lock(0)], Check(0));
    var s2 := Apply(net, s1, Check(0));
    schedule := [] + [Lock(0)] + [Check(0)];
    assert s2.tasks == [Task(0, Sending(2, p))];
    HaltedIsStuck(net, s2);
  }

  /**
   For every lane capacity there is an acyclic graph of stateless modules without nested fan-out where
   as many failing calls as the lane holds packets make the next call, which forks nowhere, wait for ever.
   */
  lemma LeftoversJam(capacity: nat, p: Packet)
    returns (queues: Queues, handed: Logs, schedule: seq<Action>)
    requires capacity >= 1 && !p.traced
    ensures var net := LeakyNet(capacity);
            var r := Play(net, Start(net, 2, p, 2, queues, handed), schedule);
            && net.WellFormed() && Acyclic(net.Links()) && Stateless(net)
            && LeftByFailures(net, p, capacity, queues, handed)
            && r.Some? && !Done(r.value) && Stuck(net, r.value)
  {
    LeakyNetFits(capacity);
    queues := Holding(Leftovers(p, capacity));
    handed := FailuresAddUp(capacity, p, capacity);
    schedule := WaitsAtFullLane(capacity, p, Leftovers(p, capacity), handed);
  }
}
