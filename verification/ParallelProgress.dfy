/**
 Safety over whole schedules, and exactly when a concurrent call is stuck: when everybody left waits for
 a permit, for branches it spawned, or at a lane that earlier calls left full.
 */
module ParallelProgress {
  import opened Wrappers
  import opened Packets
  import opened Modules
  import opened Graphs
  import opened LaneQueues
  import opened NodeQueues
  import opened Walks
  import opened ParallelExecution
  import opened ParallelInvariants

  ghost predicate Inv(net: Net, total: nat, start: Queues, s: State) {
    && Tree(s.tasks) && LockHeld(s) && Bounded(net, s.queues) && Located(net, s.tasks)
    && PermitsKept(s, total) && Ticketed(s, start)
  }

  lemma InvStep(net: Net, total: nat, start: Queues, s: State, a: Action)
    requires Inv(net, total, start, s) && Enabled(net, s, a)
    ensures Inv(net, total, start, Apply(net, s, a))
  {
    TreeStep(net, s, a);
    LockStep(net, s, a);
    BoundedStep(net, s, a);
    LocatedStep(net, s, a);
    PermitStep(net, s, a, total);
    TicketStep(net, s, a, start);
  }

  lemma InvStart(net: Net, entry: NodeId, p: Packet, permits: nat, queues: Queues, handed: Logs)
    requires Bounded(net, queues)
    ensures Inv(net, Pool(permits), queues, Start(net, entry, p, permits, queues, handed))
  {
    var s := Start(net, entry, p, permits, queues, handed);
    assert Held(s.tasks) == {};
    forall n | n in queues ensures Tickets(s.tasks, n) == {} {
    }
  }

  /** The invariants hold in every state of every interleaving, whatever the queues held at the start. */
  lemma {:induction false} InvRun(
    net: Net, entry: NodeId, p: Packet, permits: nat, queues: Queues, handed: Logs, schedule: seq<Action>)
    requires Bounded(net, queues)
    ensures var r := Play(net, Start(net, entry, p, permits, queues, handed), schedule);
            r.Some? ==> Inv(net, Pool(permits), queues, r.value)
    decreases |schedule|
  {
    InvStart(net, entry, p, permits, queues, handed);
    if schedule != [] {
      var last := |schedule| - 1;
      InvRun(net, entry, p, permits, queues, handed, schedule[..last]);
      var r := Play(net, Start(net, entry, p, permits, queues, handed), schedule[..last]);
      if r.Some? && Enabled(net, r.value, schedule[last]) {
        InvStep(net, Pool(permits), queues, r.value, schedule[last]);
      }
    }
  }

  /**
   A branch that has the lock and wants to receive always can: the queue holds at least one packet
   per branch that has sent and not received, even when other branches were dropped in between.
   */
  lemma ReceiveNeverWaits(
    net: Net, entry: NodeId, p: Packet, permits: nat, queues: Queues, handed: Logs, schedule: seq<Action>, t: nat)
    requires Bounded(net, queues)
    ensures var r := Play(net, Start(net, entry, p, permits, queues, handed), schedule);
            r.Some? && t < |r.value.tasks| && r.value.tasks[t].pc.Receiving? ==>
              Enabled(net, r.value, Receive(t))
  {
    InvRun(net, entry, p, permits, queues, handed, schedule);
    var r := Play(net, Start(net, entry, p, permits, queues, handed), schedule);
    if r.Some? && t < |r.value.tasks| && r.value.tasks[t].pc.Receiving? {
      ReceiverServed(net, Pool(permits), queues, r.value, t);
    }
  }

  lemma ReceiverServed(net: Net, total: nat, start: Queues, s: State, t: nat)
    requires Inv(net, total, start, s) && t < |s.tasks| && s.tasks[t].pc.Receiving?
    ensures Enabled(net, s, Receive(t))
  {
    var n := s.tasks[t].pc.node;
    assert t in Tickets(s.tasks, n);
    DepthPop(s.queues[n]);
  }

  /** Queue contents are accounted for exactly, and held plus free permits are the whole pool. */
  lemma TicketsAndPermitsBalance(
    net: Net, entry: NodeId, p: Packet, permits: nat, queues: Queues, handed: Logs, schedule: seq<Action>)
    requires Bounded(net, queues)
    ensures var r := Play(net, Start(net, entry, p, permits, queues, handed), schedule);
            r.Some? ==>
              && r.value.free + |Held(r.value.tasks)| == Pool(permits)
              && r.value.queues.Keys == queues.Keys
              && forall n :: n in queues ==>
                   Depth(r.value.queues[n]) == Depth(queues[n]) + |Tickets(r.value.tasks, n)|
  {
    InvRun(net, entry, p, permits, queues, handed, schedule);
  }

  // ----- Progress ---------------------------------------------------------

  /** Nothing failed or was dropped. */
  ghost predicate Clean(tasks: seq<Task>) {
    forall t :: 0 <= t < |tasks| ==> !GoneWrong(tasks[t].pc)
  }

  ghost predicate NothingToJoin(tasks: seq<Task>) {
    forall t, c :: 0 <= t < |tasks| && 0 <= c < |tasks| && tasks[t].pc.Joining? && c in tasks[t].pc.pending ==>
      !tasks[c].pc.Finished?
  }

  /** A failure not yet noticed by the call is a branch waiting to be joined. */
  lemma {:induction false} FailureShows(tasks: seq<Task>, t: nat)
    requires Tree(tasks) && !tasks[0].pc.Finished? && NothingToJoin(tasks) && t < |tasks|
    ensures !GoneWrong(tasks[t].pc)
    decreases t
  {
    if t > 0 {
      assert FitsParent(t, tasks[t], tasks[tasks[t].parent]);
      FailureShows(tasks, tasks[t].parent);
    }
  }

  /** Whoever is left waits for a permit or for branches of its own. */
  ghost predicate Waits(tasks: seq<Task>) {
    forall t :: 0 <= t < |tasks| && tasks[t].pc.Alive() ==>
      tasks[t].pc.WaitPermit? || (tasks[t].pc.Joining? && tasks[t].pc.pending != {})
  }

  /** Every permit is taken, and every live branch waits for a permit or for branches it spawned. */
  ghost predicate Blocked(s: State) {
    s.free == 0 && s.lock.None? && NothingToJoin(s.tasks) && Waits(s.tasks)
  }

  ghost predicate FullLane(net: Net, queues: Queues, n: NodeId, p: Packet) {
    && n in queues && n in net.capacity && LaneFor(p) < |queues[n]|
    && |queues[n][LaneFor(p)]| >= net.capacity[n]
  }

  /** Every live branch waits: for a permit while there is none, for branches it spawned, or at a full lane. */
  ghost predicate Halted(net: Net, s: State) {
    s.lock.None? && NothingToJoin(s.tasks) &&
    forall t :: 0 <= t < |s.tasks| && s.tasks[t].pc.Alive() ==>
      match s.tasks[t].pc
      case WaitPermit(_, _) => s.free == 0
      case Joining(pending, _) => pending != {}
      case Sending(n, p) => FullLane(net, s.queues, n, p)
      case _ => false
  }

  ghost predicate Stuck(net: Net, s: State) {
    forall a: Action :: !Enabled(net, s, a)
  }

  lemma HaltedIsStuck(net: Net, s: State)
    requires Tree(s.tasks) && !Done(s) && Halted(net, s)
    ensures Stuck(net, s)
  {
    forall t | 0 <= t < |s.tasks| ensures !GoneWrong(s.tasks[t].pc) {
      FailureShows(s.tasks, t);
    }
  }

  lemma BlockedIsHalted(net: Net, s: State)
    requires Blocked(s)
    ensures Halted(net, s)
  {
  }

  lemma GivesUpLock(net: Net, s: State, a: Action)
    requires Enabled(net, s, a) && (a.Check? || a.Receive?)
    ensures Apply(net, s, a).lock.None?
  {
  }

  /** Whoever has the lock can do what it took it for, and gives it up again. */
  lemma HolderCanAct(net: Net, total: nat, start: Queues, s: State) returns (a: Action)
    requires Inv(net, total, start, s) && s.lock.Some?
    ensures Enabled(net, s, a) && Apply(net, s, a).lock.None?
  {
    var h := s.lock.value;
    if s.tasks[h].pc.Checking? {
      a := Check(h);
    } else {
      a := Receive(h);
      ReceiverServed(net, total, start, s, h);
    }
    GivesUpLock(net, s, a);
  }

  lemma NobodyAtTheLock(net: Net, total: nat, start: Queues, s: State, t: nat)
    requires Inv(net, total, start, s) && Stuck(net, s) && t < |s.tasks|
    ensures s.lock.None? && !s.tasks[t].pc.Arriving? && !s.tasks[t].pc.Queued? && !s.tasks[t].pc.HoldsLock()
  {
    if s.lock.Some? {
      var a := HolderCanAct(net, total, start, s);
    } else {
      assert !Enabled(net, s, Lock(t));
    }
  }

  /** Where everybody waits, no packet in any queue belongs to a live branch. */
  lemma NobodyHasATicket(net: Net, total: nat, start: Queues, s: State, n: NodeId)
    requires Inv(net, total, start, s) && Stuck(net, s) && Clean(s.tasks)
    ensures Tickets(s.tasks, n) == {}
  {
    forall t | 0 <= t < |s.tasks| ensures s.tasks[t].pc.Ticket() == None {
      NobodyAtTheLock(net, total, start, s, t);
      assert !GoneWrong(s.tasks[t].pc);
    }
  }

  lemma {:induction false} LaneWithinDepth(lanes: Lanes<Packet>, l: nat)
    requires l < |lanes|
    ensures |lanes[l]| <= Depth(lanes)
  {
    if l > 0 { LaneWithinDepth(lanes[1..], l - 1); }
  }

  lemma LaneFull(net: Net, s: State, t: nat)
    requires Bounded(net, s.queues) && Located(net, s.tasks)
    requires t < |s.tasks| && s.tasks[t].pc.Sending? && !Enabled(net, s, Send(t))
    ensures FullLane(net, s.queues, s.tasks[t].pc.node, s.tasks[t].pc.packet)
  {
    assert AtNode(net, s, s.tasks[t].pc.node);
  }

  /** Whoever is held up at a full lane is held up by what was there before the call. */
  lemma HeldByLeftovers(net: Net, total: nat, start: Queues, s: State, n: NodeId, p: Packet)
    requires Inv(net, total, start, s) && Stuck(net, s) && Clean(s.tasks) && FullLane(net, s.queues, n, p)
    ensures n in start && Depth(start[n]) >= net.capacity[n] && Tickets(s.tasks, n) == {}
  {
    NobodyHasATicket(net, total, start, s, n);
    LaneWithinDepth(s.queues[n], LaneFor(p));
  }

  /** Among the tasks from `t` on, joining ones lead down to one that waits for a permit. */
  lemma {:induction false} SomeoneWaits(tasks: seq<Task>, t: nat) returns (w: nat)
    requires Tree(tasks) && Clean(tasks) && NothingToJoin(tasks) && t < |tasks|
    requires tasks[t].pc.Joining?
    requires Waits(tasks)
    ensures w < |tasks| && tasks[w].pc.WaitPermit?
    decreases |tasks| - t
  {
    var c :| c in tasks[t].pc.pending;
    assert PendingAreChildren(tasks, t);
    if tasks[c].pc.WaitPermit? { w := c; } else { w := SomeoneWaits(tasks, c); }
  }

  lemma NobodyJoinable(net: Net, s: State)
    requires Stuck(net, s)
    ensures NothingToJoin(s.tasks)
  {
    forall t, c | 0 <= t < |s.tasks| && 0 <= c < |s.tasks| && s.tasks[t].pc.Joining? && c in s.tasks[t].pc.pending
      ensures !s.tasks[c].pc.Finished?
    {
      assert !Enabled(net, s, Join(t, c));
    }
  }

  lemma EverybodyWaits(net: Net, total: nat, start: Queues, s: State, t: nat)
    requires Inv(net, total, start, s) && Stuck(net, s) && t < |s.tasks| && s.tasks[t].pc.Alive()
    ensures match s.tasks[t].pc
            case WaitPermit(_, _) => s.free == 0
            case Joining(pending, _) => pending != {}
            case Sending(n, p) => FullLane(net, s.queues, n, p)
            case _ => false
  {
    NobodyAtTheLock(net, total, start, s, t);
    if s.tasks[t].pc.WaitPermit? { assert !Enabled(net, s, AcquirePermit(t)); }
    if s.tasks[t].pc.Joining? { assert !Enabled(net, s, Conclude(t)); }
    if s.tasks[t].pc.Sending? { LaneFull(net, s, t); }
  }

  lemma StuckIsHalted(net: Net, total: nat, start: Queues, s: State)
    requires Inv(net, total, start, s) && !Done(s) && Stuck(net, s)
    ensures Halted(net, s)
  {
    NobodyJoinable(net, s);
    NobodyAtTheLock(net, total, start, s, 0);
    forall t | 0 <= t < |s.tasks| && s.tasks[t].pc.Alive()
      ensures match s.tasks[t].pc
              case WaitPermit(_, _) => s.free == 0
              case Joining(pending, _) => pending != {}
              case Sending(n, p) => FullLane(net, s.queues, n, p)
              case _ => false
    {
      EverybodyWaits(net, total, start, s, t);
    }
  }

  /** No node holds as many packets as one of its lanes can take. */
  ghost predicate Roomy(net: Net, queues: Queues) {
    Bounded(net, queues) && forall n :: n in queues ==> Depth(queues[n]) < net.capacity[n]
  }

  lemma EmptyIsRoomy(net: Net, queues: Queues)
    requires net.WellFormed() && QueuesEmpty(net, queues)
    ensures Roomy(net, queues)
  {
    forall n | n in queues ensures Depth(queues[n]) < net.capacity[n] { FlattenEmpty(queues[n]); }
  }

  lemma RoomyIsBlocked(net: Net, total: nat, start: Queues, s: State)
    requires Inv(net, total, start, s) && Stuck(net, s) && !Done(s) && Halted(net, s) && Roomy(net, start)
    ensures Blocked(s)
  {
    forall t | 0 <= t < |s.tasks| ensures !GoneWrong(s.tasks[t].pc) { FailureShows(s.tasks, t); }
    forall t | 0 <= t < |s.tasks| ensures !s.tasks[t].pc.Sending? {
      if s.tasks[t].pc.Sending? {
        HeldByLeftovers(net, total, start, s, s.tasks[t].pc.node, s.tasks[t].pc.packet);
      }
    }
    assert s.tasks[0].pc.Joining?;
    var w := SomeoneWaits(s.tasks, 0);
  }

  lemma StuckIsBlocked(net: Net, total: nat, start: Queues, s: State)
    requires Inv(net, total, start, s) && !Done(s) && Stuck(net, s) && Roomy(net, start)
    ensures Blocked(s)
  {
    StuckIsHalted(net, total, start, s);
    RoomyIsBlocked(net, total, start, s);
  }

  /**
   Whatever the queues hold before the call, it has no enabled action before it returns exactly when it
   is `Halted`; and a branch waits at a full lane then only if no branch has a packet in its node's queue,
   and the node held at least a lane's worth of packets before the call.
   */
  lemma StuckExactlyWhenHalted(
    net: Net, entry: NodeId, p: Packet, permits: nat, queues: Queues, handed: Logs, schedule: seq<Action>)
    requires Bounded(net, queues)
    ensures var r := Play(net, Start(net, entry, p, permits, queues, handed), schedule);
            r.Some? && !Done(r.value) ==>
              && (Stuck(net, r.value) <==> Halted(net, r.value))
              && (Stuck(net, r.value) ==>
                    forall t :: 0 <= t < |r.value.tasks| && r.value.tasks[t].pc.Sending? ==>
                      var n := r.value.tasks[t].pc.node;
                      && n in queues && n in net.capacity && Depth(queues[n]) >= net.capacity[n]
                      && Tickets(r.value.tasks, n) == {})
  {
    InvRun(net, entry, p, permits, queues, handed, schedule);
    var r := Play(net, Start(net, entry, p, permits, queues, handed), schedule);
    if r.Some? && !Done(r.value) {
      if Halted(net, r.value) { HaltedIsStuck(net, r.value); }
      if Stuck(net, r.value) {
        StuckIsHalted(net, Pool(permits), queues, r.value);
        HaltedByLeftovers(net, Pool(permits), queues, r.value);
      }
    }
  }

  lemma HaltedByLeftovers(net: Net, total: nat, start: Queues, s: State)
    requires Inv(net, total, start, s) && Stuck(net, s) && !Done(s) && Halted(net, s)
    ensures forall t :: 0 <= t < |s.tasks| && s.tasks[t].pc.Sending? ==>
              var n := s.tasks[t].pc.node;
              n in start && n in net.capacity && Depth(start[n]) >= net.capacity[n] && Tickets(s.tasks, n) == {}
  {
    forall t | 0 <= t < |s.tasks| ensures !GoneWrong(s.tasks[t].pc) { FailureShows(s.tasks, t); }
    forall t | 0 <= t < |s.tasks| && s.tasks[t].pc.Sending?
      ensures var n := s.tasks[t].pc.node;
              n in start && n in net.capacity && Depth(start[n]) >= net.capacity[n] && Tickets(s.tasks, n) == {}
    {
      HeldByLeftovers(net, total, start, s, s.tasks[t].pc.node, s.tasks[t].pc.packet);
    }
  }

  /**
   From queues with room for it, empty ones in particular, that is exactly when it is `Blocked`: all
   permits gone, everyone left waiting for a permit or for children.
   */
  lemma StuckExactlyWhenBlocked(
    net: Net, entry: NodeId, p: Packet, permits: nat, queues: Queues, handed: Logs, schedule: seq<Action>)
    requires Roomy(net, queues)
    ensures var r := Play(net, Start(net, entry, p, permits, queues, handed), schedule);
            r.Some? && !Done(r.value) ==> (Stuck(net, r.value) <==> Blocked(r.value))
  {
    InvRun(net, entry, p, permits, queues, handed, schedule);
    var r := Play(net, Start(net, entry, p, permits, queues, handed), schedule);
    if r.Some? && !Done(r.value) {
      if Stuck(net, r.value) { StuckIsBlocked(net, Pool(permits), queues, r.value); }
      if Blocked(r.value) { BlockedIsHalted(net, r.value); HaltedIsStuck(net, r.value); }
    }
  }

  /** The spawned branches that wait for branches of their own. */
  function Forking(tasks: seq<Task>): set<nat> {
    set t: nat | 0 < t < |tasks| && tasks[t].pc.Joining?
  }

  /**
   As long as fewer spawned branches are fanned out than there are permits, an unfinished call can
   go on; in particular when no spawned branch fans out, for every permit count.
   */
  lemma ProgressWithPermits(
    net: Net, entry: NodeId, p: Packet, permits: nat, queues: Queues, handed: Logs, schedule: seq<Action>)
    requires Roomy(net, queues)
    ensures var r := Play(net, Start(net, entry, p, permits, queues, handed), schedule);
            r.Some? && !Done(r.value) && |Forking(r.value.tasks)| < Pool(permits) ==> !Stuck(net, r.value)
    ensures var r := Play(net, Start(net, entry, p, permits, queues, handed), schedule);
            r.Some? && !Done(r.value) && Forking(r.value.tasks) == {} ==> !Stuck(net, r.value)
  {
    StuckExactlyWhenBlocked(net, entry, p, permits, queues, handed, schedule);
    InvRun(net, entry, p, permits, queues, handed, schedule);
    var r := Play(net, Start(net, entry, p, permits, queues, handed), schedule);
    if r.Some? && !Done(r.value) && Blocked(r.value) {
      var held, forking := Held(r.value.tasks), Forking(r.value.tasks);
      assert held <= forking;
      assert forking == held + (forking - held);
      assert |forking| == |held| + |forking - held|;
    }
  }
}
