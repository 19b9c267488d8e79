/**
 What every interleaving of the concurrent executor keeps: the shape of the task tree, who may hold
 the lock, the number of permits, and one packet in a node's queue for every branch that has sent
 there and not received.
 */
module ParallelInvariants {
  import opened Wrappers
  import opened Packets
  import opened Modules
  import opened Graphs
  import opened LaneQueues
  import opened NodeQueues
  import opened Walks
  import opened ParallelExecution

  // ----- The task tree ----------------------------------------------------

  /** How a task may stand to its parent. */
  ghost predicate FitsParent(t: nat, task: Task, parent: Task) {
    && task.parent < t
    && (task.pc == Reaped || (parent.pc.Joining? && t in parent.pc.pending) || GoneWrong(parent.pc))
    && (task.pc.Aborted? ==> GoneWrong(parent.pc))
  }

  ghost predicate PendingAreChildren(tasks: seq<Task>, t: nat)
    requires t < |tasks|
  {
    tasks[t].pc.Joining? ==>
      forall c :: c in tasks[t].pc.pending ==> c < |tasks| && c > t && tasks[c].parent == t && tasks[c].pc != Reaped
  }

  ghost predicate Tree(tasks: seq<Task>) {
    && |tasks| > 0 && tasks[0].parent == 0
    && !tasks[0].pc.WaitPermit? && !tasks[0].pc.Aborted? && !tasks[0].pc.Reaped?
    && (forall t :: 0 < t < |tasks| ==> tasks[t].parent < t)
    && (forall t {:trigger FitsParent(t, tasks[t], tasks[tasks[t].parent])} :: 0 < t < |tasks| ==>
          FitsParent(t, tasks[t], tasks[tasks[t].parent]))
    && (forall t :: 0 <= t < |tasks| ==> PendingAreChildren(tasks, t))
  }

  /** A step that leaves joins, failures and reaped tasks alone keeps the tree. */
  lemma TreeMoved(tasks: seq<Task>, t: nat, pc: Pc)
    requires Tree(tasks) && t < |tasks|
    requires tasks[t].pc.Alive() && !tasks[t].pc.Joining?
    requires !pc.Reaped? && !pc.Joining? && (t == 0 ==> !pc.WaitPermit? && !pc.Aborted?)
    requires pc.Aborted? ==> GoneWrong(tasks[tasks[t].parent].pc)
    ensures Tree(SetPc(tasks, t, pc))
  {
    var ts := SetPc(tasks, t, pc);
    forall c | 0 < c < |ts| ensures ts[c].parent < c && FitsParent(c, ts[c], ts[ts[c].parent]) {
      assert FitsParent(c, tasks[c], tasks[tasks[c].parent]);
    }
    forall c | 0 <= c < |ts| ensures PendingAreChildren(ts, c) {
      assert PendingAreChildren(tasks, c);
    }
  }

  /** A joining task that ends: its children are all reaped, or it takes them down. */
  lemma TreeEnds(tasks: seq<Task>, t: nat, pc: Pc)
    requires Tree(tasks) && t < |tasks| && tasks[t].pc.Joining?
    requires GoneWrong(pc) || (pc.Finished? && tasks[t].pc.pending == {})
    requires pc.Aborted? ==> t > 0 && GoneWrong(tasks[tasks[t].parent].pc)
    ensures Tree(SetPc(tasks, t, pc))
  {
    var ts := SetPc(tasks, t, pc);
    forall c | 0 < c < |ts| ensures ts[c].parent < c && FitsParent(c, ts[c], ts[ts[c].parent]) {
      assert FitsParent(c, tasks[c], tasks[tasks[c].parent]);
    }
    forall c | 0 <= c < |ts| ensures PendingAreChildren(ts, c) {
      assert PendingAreChildren(tasks, c);
    }
  }

  lemma TreeReaps(tasks: seq<Task>, t: nat, c: nat, results: seq<Packet>)
    requires Tree(tasks) && t < |tasks| && tasks[t].pc.Joining? && c in tasks[t].pc.pending
    requires c < |tasks| && tasks[c].pc.Finished? && tasks[c].pc.result.Ok?
    ensures Tree(SetPc(SetPc(tasks, t, Joining(tasks[t].pc.pending - {c}, results)), c, Reaped))
  {
    assert PendingAreChildren(tasks, t);
    var ts := SetPc(SetPc(tasks, t, Joining(tasks[t].pc.pending - {c}, results)), c, Reaped);
    forall d | 0 < d < |ts| ensures ts[d].parent < d && FitsParent(d, ts[d], ts[ts[d].parent]) {
      assert FitsParent(d, tasks[d], tasks[tasks[d].parent]);
    }
    forall d | 0 <= d < |ts| ensures PendingAreChildren(ts, d) {
      assert PendingAreChildren(tasks, d);
    }
  }

  lemma TreeSpawns(tasks: seq<Task>, t: nat, targets: seq<NodeId>, p: Packet)
    requires Tree(tasks) && t < |tasks| && tasks[t].pc.Alive() && !tasks[t].pc.Joining?
    ensures Tree(SetPc(tasks, t, Joining(Ids(|tasks|, |targets|), [])) + Spawned(t, targets, p))
  {
    var ts := SetPc(tasks, t, Joining(Ids(|tasks|, |targets|), [])) + Spawned(t, targets, p);
    forall c | 0 < c < |ts| ensures ts[c].parent < c && FitsParent(c, ts[c], ts[ts[c].parent]) {
      if c < |tasks| {
        assert FitsParent(c, tasks[c], tasks[tasks[c].parent]);
      } else {
        assert ts[c] == Task(t, WaitPermit(targets[c - |tasks|], p));
      }
    }
    forall c | 0 <= c < |ts| ensures PendingAreChildren(ts, c) {
      if c < |tasks| && c != t {
        assert PendingAreChildren(tasks, c);
      }
    }
  }

  lemma TreeRouted(s: State, t: nat, routing: Routing)
    requires Tree(s.tasks) && t < |s.tasks| && s.tasks[t].pc.Alive() && !s.tasks[t].pc.Joining?
    ensures Tree(Routed(s, t, routing).tasks)
  {
    match routing
    case Ends(result) => TreeMoved(s.tasks, t, Finished(result));
    case Goes(to, p) => TreeMoved(s.tasks, t, Arriving(to, p));
    case Forks(targets, p) => TreeSpawns(s.tasks, t, targets, p);
  }

  lemma TreeJoin(net: Net, s: State, t: nat, c: nat)
    requires Tree(s.tasks) && Enabled(net, s, Join(t, c))
    ensures Tree(Apply(net, s, Join(t, c)).tasks)
  {
    var pc := s.tasks[t].pc;
    match s.tasks[c].pc.result
    case Ok(packets) => TreeReaps(s.tasks, t, c, pc.results + packets);
    case Err(e) => TreeEnds(s.tasks, t, Finished(Err(e)));
  }

  lemma TreeAbort(net: Net, s: State, t: nat)
    requires Tree(s.tasks) && Enabled(net, s, Abort(t))
    ensures Tree(Apply(net, s, Abort(t)).tasks)
  {
    var pc := s.tasks[t].pc;
    if pc.Joining? { TreeEnds(s.tasks, t, Aborted(None)); } else { TreeMoved(s.tasks, t, Aborted(pc.Ticket())); }
  }

  /** Every action keeps the task tree in shape. */
  lemma TreeStep(net: Net, s: State, a: Action)
    requires Tree(s.tasks) && Enabled(net, s, a)
    ensures Tree(Apply(net, s, a).tasks)
  {
    match a
    case Receive(t) =>
      var pc := s.tasks[t].pc;
      var (front, lanes) := Pop(s.queues[pc.node]);
      var outcome := net.modules[pc.node].Process(LogAt(s.handed, pc.node), front.value);
      TreeRouted(s.(queues := s.queues[pc.node := lanes],
                    handed := Record(net, s.handed, pc.node, front.value), lock := None),
                 t, Route(net, pc.node, outcome));
    case Join(t, c) => TreeJoin(net, s, t, c);
    case Conclude(t) => TreeEnds(s.tasks, t, Finished(Ok(s.tasks[t].pc.results)));
    case Abort(t) => TreeAbort(net, s, t);
    case _ =>
      var s' := Apply(net, s, a);
      TreeMoved(s.tasks, a.t, s'.tasks[a.t].pc);
      assert s'.tasks == SetPc(s.tasks, a.t, s'.tasks[a.t].pc);
  }

  // ----- The lock and the queues ------------------------------------------

  /** The task that has the lock is the one in a locked section. */
  ghost predicate LockHeld(s: State) {
    && (s.lock.Some? ==> s.lock.value < |s.tasks| && s.tasks[s.lock.value].pc.HoldsLock())
    && forall t :: 0 <= t < |s.tasks| && s.tasks[t].pc.HoldsLock() ==> s.lock == Some(t)
  }

  lemma LockStep(net: Net, s: State, a: Action)
    requires LockHeld(s) && Enabled(net, s, a)
    ensures LockHeld(Apply(net, s, a))
  {
    var s' := Apply(net, s, a);
    if a.Join? { assert !s.tasks[a.child].pc.HoldsLock(); }
    assert forall t :: |s.tasks| <= t < |s'.tasks| ==> s'.tasks[t].pc.WaitPermit?;
    assert forall t :: 0 <= t < |s.tasks| && t != a.t && s'.tasks[t].pc.HoldsLock() ==> s.tasks[t].pc.HoldsLock();
  }

  /** Queues exist exactly for the nodes, with three lanes, none over capacity. */
  ghost predicate Bounded(net: Net, queues: Queues) {
    && QueuesFit(net, queues) && net.capacity.Keys == net.modules.Keys
    && forall n, l :: n in queues && 0 <= l < 3 ==> |queues[n][l]| <= net.capacity[n]
  }

  /** A task sends to, or receives from, a node of the graph. */
  ghost predicate Located(net: Net, tasks: seq<Task>) {
    forall t :: 0 <= t < |tasks| ==>
      match tasks[t].pc
      case Sending(n, p) => n in net.modules
      case Queued(n) => n in net.modules
      case Receiving(n) => n in net.modules
      case _ => true
  }

  /** What a step may do to the task list. */
  lemma StepShape(net: Net, s: State, a: Action)
    requires Enabled(net, s, a)
    ensures var s' := Apply(net, s, a);
            && |s.tasks| <= |s'.tasks|
            && (forall c :: 0 <= c < |s.tasks| && c != a.t && !(a.Join? && c == a.child) ==>
                  s'.tasks[c] == s.tasks[c])
            && (forall c :: |s.tasks| <= c < |s'.tasks| ==> s'.tasks[c].pc.WaitPermit?)
            && (a.Join? && a.child != a.t ==>
                  s'.tasks[a.child].pc == s.tasks[a.child].pc || s'.tasks[a.child].pc == Reaped)
  {
  }

  lemma BoundedStep(net: Net, s: State, a: Action)
    requires Bounded(net, s.queues) && Enabled(net, s, a)
    ensures Bounded(net, Apply(net, s, a).queues)
  {
  }

  lemma LocatedStep(net: Net, s: State, a: Action)
    requires Located(net, s.tasks) && Enabled(net, s, a)
    ensures Located(net, Apply(net, s, a).tasks)
  {
    StepShape(net, s, a);
  }

  // ----- Permits ----------------------------------------------------------

  function Held(tasks: seq<Task>): set<nat> {
    set t: nat | t < |tasks| && Holds(t, tasks[t].pc)
  }

  ghost predicate PermitsKept(s: State, total: nat) {
    s.free + |Held(s.tasks)| == total
  }

  lemma PermitSets(net: Net, s: State, a: Action)
    requires Enabled(net, s, a)
    ensures var s' := Apply(net, s, a);
            var rest := Held(s.tasks) - {a.t};
            && Held(s.tasks) == (if Holds(a.t, s.tasks[a.t].pc) then rest + {a.t} else rest)
            && Held(s'.tasks) == (if Holds(a.t, s'.tasks[a.t].pc) then rest + {a.t} else rest)
  {
    StepShape(net, s, a);
  }

  lemma PermitFree(net: Net, s: State, a: Action)
    requires Tree(s.tasks) && Enabled(net, s, a)
    ensures var s' := Apply(net, s, a);
            s'.free == s.free + (if Holds(a.t, s.tasks[a.t].pc) then 1 else 0)
                              - (if Holds(a.t, s'.tasks[a.t].pc) then 1 else 0)
  {
    assert s.tasks[a.t].pc.WaitPermit? ==> a.t > 0;
  }

  /** Permits are neither made nor lost: held and free ones always add up to the pool. */
  lemma PermitStep(net: Net, s: State, a: Action, total: nat)
    requires Tree(s.tasks) && PermitsKept(s, total) && Enabled(net, s, a)
    ensures PermitsKept(Apply(net, s, a), total)
  {
    PermitSets(net, s, a);
    PermitFree(net, s, a);
    var rest := Held(s.tasks) - {a.t};
    assert |rest + {a.t}| == |rest| + 1;
  }

  // ----- Tickets ----------------------------------------------------------

  /** The branches that have sent to a node and not received there. */
  function Tickets(tasks: seq<Task>, n: NodeId): set<nat> {
    set t: nat | t < |tasks| && tasks[t].pc.Ticket() == Some(n)
  }

  /** Beyond what a queue held at the start, it holds one packet per ticket. */
  ghost predicate Ticketed(s: State, start: Queues) {
    s.queues.Keys == start.Keys
    && forall n :: n in start ==> Depth(s.queues[n]) == Depth(start[n]) + |Tickets(s.tasks, n)|
  }

  lemma TicketSets(net: Net, s: State, a: Action, n: NodeId)
    requires Enabled(net, s, a)
    ensures var s' := Apply(net, s, a);
            var rest := Tickets(s.tasks, n) - {a.t};
            && Tickets(s.tasks, n) == (if s.tasks[a.t].pc.Ticket() == Some(n) then rest + {a.t} else rest)
            && Tickets(s'.tasks, n) == (if s'.tasks[a.t].pc.Ticket() == Some(n) then rest + {a.t} else rest)
  {
    StepShape(net, s, a);
  }

  lemma QueueChange(net: Net, s: State, a: Action)
    requires Enabled(net, s, a)
    ensures var s', pc := Apply(net, s, a), s.tasks[a.t].pc;
            var pc' := s'.tasks[a.t].pc;
            match a
            case Send(_) =>
              pc.Ticket() == None && pc'.Ticket() == Some(pc.node) && pc.node in s.queues && |s.queues[pc.node]| == 3
              && s'.queues == s.queues[pc.node := Push(s.queues[pc.node], LaneFor(pc.packet), pc.packet)]
            case Receive(_) =>
              pc.Ticket() == Some(pc.node) && pc'.Ticket() == None && pc.node in s.queues
              && Pop(s.queues[pc.node]).0.Some? && s'.queues == s.queues[pc.node := Pop(s.queues[pc.node]).1]
            case _ => pc'.Ticket() == pc.Ticket() && s'.queues == s.queues
  {
  }

  /** A send leaves a packet and a ticket; a receive takes one of each; nothing else touches either. */
  lemma TicketAt(net: Net, s: State, a: Action, n: NodeId)
    requires Enabled(net, s, a) && n in s.queues
    ensures var s' := Apply(net, s, a);
            n in s'.queues &&
            Depth(s'.queues[n]) - |Tickets(s'.tasks, n)| == Depth(s.queues[n]) - |Tickets(s.tasks, n)|
  {
    QueueChange(net, s, a);
    TicketSets(net, s, a, n);
    var pc, rest := s.tasks[a.t].pc, Tickets(s.tasks, n) - {a.t};
    assert |rest + {a.t}| == |rest| + 1;
    if a.Send? {
      if n == pc.node { DepthPush(s.queues[n], LaneFor(pc.packet), pc.packet); }
    } else if a.Receive? {
      if n == pc.node { DepthPop(s.queues[n]); }
    }
  }

  lemma TicketStep(net: Net, s: State, a: Action, start: Queues)
    requires Ticketed(s, start) && Enabled(net, s, a)
    ensures Ticketed(Apply(net, s, a), start)
  {
    var s' := Apply(net, s, a);
    QueueKeys(net, s, a);
    forall n | n in start ensures Depth(s'.queues[n]) == Depth(start[n]) + |Tickets(s'.tasks, n)| {
      TicketAt(net, s, a, n);
    }
  }

  lemma QueueKeys(net: Net, s: State, a: Action)
    requires Enabled(net, s, a)
    ensures Apply(net, s, a).queues.Keys == s.queues.Keys
  {
    QueueChange(net, s, a);
  }
}
