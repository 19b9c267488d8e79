/**
 Where nothing fans out the concurrent executor is the sequential one. Also the five actions that take
 a task alone at a node through it, from which longer schedules are put together.
 */
module ParallelCases {
  import opened Wrappers
  import opened Packets
  import opened Modules
  import opened Graphs
  import opened LaneQueues
  import opened NodeQueues
  import opened Walks
  import opened ParallelExecution
  import opened ParallelInvariants
  import opened ParallelProgress

  // ----- How a call starts ------------------------------------------------

  /** A call asking for no permits gets one, as if it had asked for one; any other gets what it asks for. */
  lemma AtLeastOnePermit(
    net: Net, entry: NodeId, p: Packet, permits: nat, queues: Queues, handed: Logs, schedule: seq<Action>)
    ensures var s0 := Start(net, entry, p, permits, queues, handed);
            && (permits >= 1 ==> s0.free == permits)
            && Play(net, Start(net, entry, p, 0, queues, handed), schedule) ==
               Play(net, Start(net, entry, p, 1, queues, handed), schedule)
  {
  }

  /** A call at a node that is not an entry has failed before anything happens, and nothing ever does. */
  lemma {:induction false} UnmarkedEntryFails(
    net: Net, entry: NodeId, p: Packet, permits: nat, queues: Queues, handed: Logs, schedule: seq<Action>)
    requires entry !in net.entries
    ensures var s0 := Start(net, entry, p, permits, queues, handed);
            && Done(s0) && s0.tasks[0].pc.result == Err(InGraph(MissingNode(entry)))
            && (Play(net, s0, schedule).Some? ==> schedule == [])
    decreases |schedule|
  {
    var s0 := Start(net, entry, p, permits, queues, handed);
    if schedule != [] {
      var last := |schedule| - 1;
      UnmarkedEntryFails(net, entry, p, permits, queues, handed, schedule[..last]);
      NothingMoves(net, s0, schedule[last]);
      if Play(net, s0, schedule[..last]).Some? { assert Play(net, s0, schedule[..last]) == Some(s0); }
    }
  }

  lemma NothingMoves(net: Net, s: State, a: Action)
    requires |s.tasks| == 1 && s.tasks[0].pc.Finished?
    ensures !Enabled(net, s, a)
  {
  }

  // ----- Without fan-out --------------------------------------------------

  function ResultOf(ending: Ending): BranchResult {
    match ending
    case Exited(p) => Ok([p])
    case Absorbed => Ok([])
    case Failed(e) => Err(e)
    case StillRunning(n, p) => Err(InGraph(MissingNode(n)))
  }

  /** The sequential run from here meets no accepting parallel edge. */
  ghost predicate NeverForks(net: Net, handed: Logs, n: NodeId, p: Packet, fuel: nat)
    decreases fuel
  {
    fuel > 0 && Refused(net, n, p).None? ==>
      var q := p.RecordHop(n);
      match Route(net, n, net.modules[n].Process(LogAt(handed, n), q))
      case Ends(_) => true
      case Goes(to, next) => NeverForks(net, Record(net, handed, n, q), to, next, fuel - 1)
      case Forks(_, _) => false
  }

  /** Without an accepting parallel edge both executors route alike. */
  lemma RoutesAlike(net: Net, n: NodeId, outcome: Outcome)
    requires !Route(net, n, outcome).Forks?
    ensures match Decide(net, n, outcome)
            case Stop(ending) => !ending.StillRunning? && Route(net, n, outcome) == Ends(ResultOf(ending))
            case Continue(to, p) => Route(net, n, outcome) == Goes(to, p)
  {
  }

  /** From here the sequential run ends in `ending`, leaving the logs `last`, and never forks. */
  ghost predicate Leads(net: Net, handed: Logs, n: NodeId, p: Packet, fuel: nat, ending: Ending, last: Logs) {
    && Walk(net, handed, n, p, fuel).ending == ending && Walk(net, handed, n, p, fuel).handed == last
    && !ending.StillRunning? && NeverForks(net, handed, n, p, fuel)
  }

  /** The same, for a packet already admitted to the node's queue. */
  ghost predicate LeadsAdmitted(net: Net, handed: Logs, n: NodeId, q: Packet, fuel: nat, ending: Ending, last: Logs) {
    && n in net.modules && fuel > 0
    && var outcome := net.modules[n].Process(LogAt(handed, n), q);
       match Route(net, n, outcome)
       case Ends(result) => result == ResultOf(ending) && Record(net, handed, n, q) == last
       case Goes(to, p) => Leads(net, Record(net, handed, n, q), to, p, fuel - 1, ending, last)
       case Forks(_, _) => false
  }

  lemma LeadsOn(net: Net, handed: Logs, n: NodeId, p: Packet, fuel: nat, ending: Ending, last: Logs)
    requires Leads(net, handed, n, p, fuel, ending, last)
    ensures Refused(net, n, p).Some? ==> ending == Failed(Refused(net, n, p).value) && last == handed
    ensures Refused(net, n, p).None? ==> LeadsAdmitted(net, handed, n, p.RecordHop(n), fuel, ending, last)
  {
    if Refused(net, n, p).None? {
      RoutesAlike(net, n, net.modules[n].Process(LogAt(handed, n), p.RecordHop(n)));
    }
  }

  /** A call that is one task on its way to the sequential result. */
  ghost predicate OnTrack(net: Net, empty: Queues, s: State, q: Packet, fuel: nat, ending: Ending, last: Logs) {
    && |s.tasks| == 1 && s.tasks[0].parent == 0 && !ending.StillRunning?
    && match s.tasks[0].pc
       case Arriving(n, p) => s.queues == empty && Leads(net, s.handed, n, p, fuel, ending, last)
       case Checking(n, p) => s.queues == empty && Leads(net, s.handed, n, p, fuel, ending, last)
       case Sending(n, p) => p == q && s.queues == empty && LeadsAdmitted(net, s.handed, n, q, fuel, ending, last)
       case Queued(n) =>
         && s.queues == empty[n := Push(NO_PACKETS, LaneFor(q), q)]
         && LeadsAdmitted(net, s.handed, n, q, fuel, ending, last)
       case Receiving(n) =>
         && s.queues == empty[n := Push(NO_PACKETS, LaneFor(q), q)]
         && LeadsAdmitted(net, s.handed, n, q, fuel, ending, last)
       case Finished(result) => result == ResultOf(ending) && s.handed == last && s.queues == empty
       case _ => false
  }

  lemma TrackLock(net: Net, empty: Queues, s: State, q: Packet, fuel: nat, ending: Ending, last: Logs)
    requires OnTrack(net, empty, s, q, fuel, ending, last) && Enabled(net, s, Lock(0))
    ensures OnTrack(net, empty, Apply(net, s, Lock(0)), q, fuel, ending, last)
  {
  }

  lemma TrackCheck(net: Net, empty: Queues, s: State, q: Packet, fuel: nat, ending: Ending, last: Logs)
    requires OnTrack(net, empty, s, q, fuel, ending, last) && Enabled(net, s, Check(0))
    ensures OnTrack(net, empty, Apply(net, s, Check(0)), s.tasks[0].pc.packet.RecordHop(s.tasks[0].pc.node),
                    fuel, ending, last)
  {
    LeadsOn(net, s.handed, s.tasks[0].pc.node, s.tasks[0].pc.packet, fuel, ending, last);
  }

  lemma TrackSend(net: Net, empty: Queues, s: State, q: Packet, fuel: nat, ending: Ending, last: Logs)
    requires net.WellFormed() && QueuesEmpty(net, empty)
    requires OnTrack(net, empty, s, q, fuel, ending, last) && Enabled(net, s, Send(0))
    ensures OnTrack(net, empty, Apply(net, s, Send(0)), q, fuel, ending, last)
  {
    assert empty[s.tasks[0].pc.node] == NO_PACKETS;
  }

  lemma TrackReceive(net: Net, empty: Queues, s: State, q: Packet, fuel: nat, ending: Ending, last: Logs)
    requires net.WellFormed() && QueuesEmpty(net, empty)
    requires OnTrack(net, empty, s, q, fuel, ending, last) && Enabled(net, s, Receive(0))
    ensures fuel > 0 && OnTrack(net, empty, Apply(net, s, Receive(0)), q, fuel - 1, ending, last)
  {
    var n := s.tasks[0].pc.node;
    SendThenReceive(q);
    assert empty[n] == NO_PACKETS;
    assert s.queues[n := NO_PACKETS] == empty;
    var outcome := net.modules[n].Process(LogAt(s.handed, n), q);
    assert Apply(net, s, Receive(0)) ==
           Routed(s.(queues := empty, handed := Record(net, s.handed, n, q), lock := None), 0, Route(net, n, outcome));
  }

  // ----- How long it takes ------------------------------------------------

  /** The actions for a packet that has been sent, from when it has been received. */
  ghost function ActionsAfter(net: Net, handed: Logs, n: NodeId, q: Packet, fuel: nat): nat {
    if n !in net.modules || fuel == 0 then 0
    else
      match Route(net, n, net.modules[n].Process(LogAt(handed, n), q))
      case Goes(to, p) => 5 * |Walk(net, Record(net, handed, n, q), to, p, fuel - 1).hops| + 2
      case _ => 0
  }

  /** Five actions for each hop to come, and two for the check of a packet that is refused. */
  ghost function ActionsLeft(net: Net, s: State, q: Packet, fuel: nat): nat
    requires |s.tasks| > 0
  {
    match s.tasks[0].pc
    case Arriving(n, p) => 5 * |Walk(net, s.handed, n, p, fuel).hops| + 2
    case Checking(n, p) => 5 * |Walk(net, s.handed, n, p, fuel).hops| + 1
    case Sending(n, _) => 3 + ActionsAfter(net, s.handed, n, q, fuel)
    case Queued(n) => 2 + ActionsAfter(net, s.handed, n, q, fuel)
    case Receiving(n) => 1 + ActionsAfter(net, s.handed, n, q, fuel)
    case _ => 0
  }

  /** A hop that is not refused covers its own five actions. */
  lemma HopCovers(net: Net, handed: Logs, n: NodeId, p: Packet, fuel: nat, ending: Ending, last: Logs)
    requires Leads(net, handed, n, p, fuel, ending, last) && Refused(net, n, p).None?
    ensures 5 * |Walk(net, handed, n, p, fuel).hops| >= 3 + ActionsAfter(net, handed, n, p.RecordHop(n), fuel)
  {
    if fuel > 0 {
      RoutesAlike(net, n, net.modules[n].Process(LogAt(handed, n), p.RecordHop(n)));
    }
  }

  lemma PaceChecks(net: Net, empty: Queues, s: State, q: Packet, fuel: nat, ending: Ending, last: Logs)
    requires OnTrack(net, empty, s, q, fuel, ending, last) && Enabled(net, s, Check(0))
    ensures var s', pc := Apply(net, s, Check(0)), s.tasks[0].pc;
            |s'.tasks| > 0 && ActionsLeft(net, s', pc.packet.RecordHop(pc.node), fuel) < ActionsLeft(net, s, q, fuel)
  {
    var pc := s.tasks[0].pc;
    if Refused(net, pc.node, pc.packet).None? {
      HopCovers(net, s.handed, pc.node, pc.packet, fuel, ending, last);
    }
  }

  lemma PaceReceives(net: Net, empty: Queues, s: State, q: Packet, fuel: nat, ending: Ending, last: Logs)
    requires net.WellFormed() && QueuesEmpty(net, empty) && fuel > 0
    requires OnTrack(net, empty, s, q, fuel, ending, last) && Enabled(net, s, Receive(0))
    ensures var s' := Apply(net, s, Receive(0));
            |s'.tasks| > 0 && ActionsLeft(net, s', q, fuel - 1) < ActionsLeft(net, s, q, fuel)
  {
    var n := s.tasks[0].pc.node;
    SendThenReceive(q);
    assert empty[n] == NO_PACKETS;
    assert Pop(s.queues[n]).0 == Some(q);
  }

  /** On its way, with at most so many actions to go. */
  ghost predicate OnSomeTrack(net: Net, empty: Queues, s: State, ending: Ending, last: Logs, left: nat) {
    exists q: Packet, fuel: nat ::
      OnTrack(net, empty, s, q, fuel, ending, last) && ActionsLeft(net, s, q, fuel) <= left
  }

  lemma StaysOnTrack(net: Net, empty: Queues, s: State, ending: Ending, last: Logs, left: nat, a: Action)
    requires net.WellFormed() && QueuesEmpty(net, empty)
    requires OnSomeTrack(net, empty, s, ending, last, left) && Enabled(net, s, a)
    ensures left > 0 && OnSomeTrack(net, empty, Apply(net, s, a), ending, last, left - 1)
  {
    var q: Packet, fuel: nat :|
      OnTrack(net, empty, s, q, fuel, ending, last) && ActionsLeft(net, s, q, fuel) <= left;
    assert a.t == 0;
    if a.Lock? {
      TrackLock(net, empty, s, q, fuel, ending, last);
    } else if a.Check? {
      TrackCheck(net, empty, s, q, fuel, ending, last);
      PaceChecks(net, empty, s, q, fuel, ending, last);
    } else if a.Send? {
      TrackSend(net, empty, s, q, fuel, ending, last);
    } else if a.Receive? {
      TrackReceive(net, empty, s, q, fuel, ending, last);
      PaceReceives(net, empty, s, q, fuel, ending, last);
    } else {
      assert false;
    }
  }

  lemma TrackEnds(net: Net, empty: Queues, s: State, q: Packet, fuel: nat, ending: Ending, last: Logs)
    requires OnTrack(net, empty, s, q, fuel, ending, last) && !Done(s)
    ensures !Blocked(s)
  {
    assert s.tasks[0].pc.Alive();
  }

  /**
   Where the sequential run ends and never meets an accepting parallel edge, every interleaving of
   the concurrent executor is one task, takes at most five actions for each hop of that run and two
   more, cannot stop before it is finished, and finishes with the sequential result, the same packets
   handed to every module, and empty queues.
   */
  lemma {:induction false} AgreesWithSequential(
    net: Net, entry: NodeId, p: Packet, permits: nat, queues: Queues, handed: Logs, schedule: seq<Action>, fuel: nat)
    requires net.WellFormed() && QueuesEmpty(net, queues) && entry in net.entries
    requires !Execute(net, handed, entry, p, fuel).ending.StillRunning? && NeverForks(net, handed, entry, p, fuel)
    ensures var run := Execute(net, handed, entry, p, fuel);
            var r := Play(net, Start(net, entry, p, permits, queues, handed), schedule);
            r.Some? ==>
              && |r.value.tasks| == 1 && |schedule| <= 5 * |run.hops| + 2
              && (Stuck(net, r.value) ==> Done(r.value))
              && (Done(r.value) ==>
                    && r.value.tasks[0].pc.result == ResultOf(run.ending)
                    && r.value.handed == run.handed && r.value.queues == queues)
  {
    var run := Execute(net, handed, entry, p, fuel);
    var r := Play(net, Start(net, entry, p, permits, queues, handed), schedule);
    if r.Some? {
      TrackRun(net, entry, p, permits, queues, handed, schedule, fuel);
      EmptyIsRoomy(net, queues);
      StuckExactlyWhenBlocked(net, entry, p, permits, queues, handed, schedule);
      var q: Packet, rest: nat :| OnTrack(net, queues, r.value, q, rest, run.ending, run.handed);
      if !Done(r.value) { TrackEnds(net, queues, r.value, q, rest, run.ending, run.handed); }
    }
  }

  lemma {:induction false} TrackRun(
    net: Net, entry: NodeId, p: Packet, permits: nat, queues: Queues, handed: Logs, schedule: seq<Action>, fuel: nat)
    requires net.WellFormed() && QueuesEmpty(net, queues) && entry in net.entries
    requires !Execute(net, handed, entry, p, fuel).ending.StillRunning? && NeverForks(net, handed, entry, p, fuel)
    requires Play(net, Start(net, entry, p, permits, queues, handed), schedule).Some?
    ensures var run := Execute(net, handed, entry, p, fuel);
            var s := Play(net, Start(net, entry, p, permits, queues, handed), schedule).value;
            var left := 5 * |run.hops| + 2 - |schedule|;
            left >= 0 && OnSomeTrack(net, queues, s, run.ending, run.handed, left)
    decreases |schedule|
  {
    var run := Execute(net, handed, entry, p, fuel);
    if schedule == [] {
      var s0 := Start(net, entry, p, permits, queues, handed);
      assert OnTrack(net, queues, s0, p, fuel, run.ending, run.handed);
      assert ActionsLeft(net, s0, p, fuel) <= 5 * |run.hops| + 2;
    } else {
      var last := |schedule| - 1;
      var s := Play(net, Start(net, entry, p, permits, queues, handed), schedule[..last]).value;
      TrackRun(net, entry, p, permits, queues, handed, schedule[..last], fuel);
      StaysOnTrack(net, queues, s, run.ending, run.handed, 5 * |run.hops| + 2 - last, schedule[last]);
    }
  }

  // ----- One task through one node ----------------------------------------

  lemma PlayMore(net: Net, s: State, schedule: seq<Action>, a: Action)
    requires Play(net, s, schedule).Some? && Enabled(net, Play(net, s, schedule).value, a)
    ensures Play(net, s, schedule + [a]) == Some(Apply(net, Play(net, s, schedule).value, a))
  {
    assert (schedule + [a])[..|schedule|] == schedule;
  }

  /** Task `t` has just come to node `n`, which has room for its packet and will not refuse it. */
  ghost predicate Comes(net: Net, s: State, t: nat, n: NodeId, p: Packet) {
    && t < |s.tasks| && s.tasks[t].pc == Arriving(n, p) && s.lock.None?
    && AtNode(net, s, n) && |s.queues[n][LaneFor(p)]| < net.capacity[n]
    && Refused(net, n, p).None?
  }

  /** And the node's queue is empty. */
  ghost predicate Calls(net: Net, s: State, t: nat, n: NodeId, p: Packet) {
    Comes(net, s, t, n, p) && s.queues[n] == NO_PACKETS
  }

  /** What has happened once it has sent its packet. */
  function Delivered(s: State, t: nat, n: NodeId, q: Packet): State
    requires t < |s.tasks| && n in s.queues && |s.queues[n]| == 3
  {
    s.(tasks := SetPc(s.tasks, t, Queued(n)), queues := s.queues[n := Push(s.queues[n], LaneFor(q), q)])
  }

  lemma Admits(net: Net, s: State, t: nat, n: NodeId, p: Packet) returns (s1: State, s2: State)
    requires Comes(net, s, t, n, p)
    ensures Enabled(net, s, Lock(t)) && Apply(net, s, Lock(t)) == s1
    ensures Enabled(net, s1, Check(t)) && Apply(net, s1, Check(t)) == s2
    ensures s2 == s.(tasks := SetPc(s.tasks, t, Sending(n, p.RecordHop(n))))
  {
    s1 := s.(tasks := SetPc(s.tasks, t, Checking(n, p)), lock := Some(t));
    s2 := s.(tasks := SetPc(s.tasks, t, Sending(n, p.RecordHop(n))));
    assert Apply(net, s, Lock(t)) == s1;
    assert Apply(net, s1, Check(t)) == s2;
  }

  lemma Sent(net: Net, s: State, t: nat, n: NodeId, p: Packet, s2: State)
    requires Comes(net, s, t, n, p)
    requires s2 == s.(tasks := SetPc(s.tasks, t, Sending(n, p.RecordHop(n))))
    ensures Enabled(net, s2, Send(t)) && Apply(net, s2, Send(t)) == Delivered(s, t, n, p.RecordHop(n))
  {
  }

  lemma Sends(net: Net, s0: State, before: seq<Action>, s: State, t: nat, n: NodeId, p: Packet)
    returns (after: seq<Action>)
    requires Play(net, s0, before) == Some(s) && Comes(net, s, t, n, p)
    ensures Play(net, s0, after) == Some(Delivered(s, t, n, p.RecordHop(n)))
  {
    var s1, s2 := Admits(net, s, t, n, p);
    Sent(net, s, t, n, p, s2);
    PlayMore(net, s0, before, Lock(t));
    PlayMore(net, s0, before + [Lock(t)], Check(t));
    PlayMore(net, s0, before + [Lock(t)] + [Check(t)], Send(t));
    after := before + [Lock(t)] + [Check(t)] + [Send(t)];
  }

  lemma Receives(net: Net, s0: State, before: seq<Action>, s: State, t: nat, n: NodeId, p: Packet, q: Packet)
    returns (after: seq<Action>)
    requires Calls(net, s, t, n, p) && q == p.RecordHop(n)
    requires Play(net, s0, before) == Some(Delivered(s, t, n, q))
    ensures Play(net, s0, after) ==
            Some(Routed(s.(handed := Record(net, s.handed, n, q)), t,
                        Route(net, n, net.modules[n].Process(LogAt(s.handed, n), q))))
  {
    var s3 := Delivered(s, t, n, q);
    PlayMore(net, s0, before, Lock(t));
    var s4 := s3.(tasks := SetPc(s.tasks, t, Receiving(n)), lock := Some(t));
    assert Apply(net, s3, Lock(t)) == s4;
    ReceivesAlone(net, s, t, n, p, q, s4);
    PlayMore(net, s0, before + [Lock(t)], Receive(t));
    after := before + [Lock(t)] + [Receive(t)];
  }

  lemma ReceivesAlone(net: Net, s: State, t: nat, n: NodeId, p: Packet, q: Packet, s4: State)
    requires Calls(net, s, t, n, p) && q == p.RecordHop(n)
    requires s4 == Delivered(s, t, n, q).(tasks := SetPc(s.tasks, t, Receiving(n)), lock := Some(t))
    ensures Enabled(net, s4, Receive(t))
    ensures Apply(net, s4, Receive(t)) ==
            Routed(s.(handed := Record(net, s.handed, n, q)), t,
                   Route(net, n, net.modules[n].Process(LogAt(s.handed, n), q)))
  {
    SendThenReceive(q);
    assert s4.queues[n := NO_PACKETS] == s.queues;
    var s5 := s.(handed := Record(net, s.handed, n, q));
    var routing := Route(net, n, net.modules[n].Process(LogAt(s.handed, n), q));
    assert Apply(net, s4, Receive(t)) == Routed(s5.(tasks := s4.tasks), t, routing);
    SameRouted(s5, s4.tasks, t, routing);
  }

  /** Routing looks at where a task was only to see whether it held a permit. */
  lemma SameRouted(s: State, tasks: seq<Task>, t: nat, routing: Routing)
    requires t < |s.tasks| && s.tasks[t].pc.Arriving?
    requires exists n :: tasks == SetPc(s.tasks, t, Receiving(n))
    ensures Routed(s.(tasks := tasks), t, routing) == Routed(s, t, routing)
  {
    assert forall pc :: SetPc(tasks, t, pc) == SetPc(s.tasks, t, pc);
  }
}
