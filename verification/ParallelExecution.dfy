/**
 The concurrent executor as a state machine. Branches are tasks; each hop takes the graph lock to
 check the packet, gives it up to send into the node's queue, and takes it again to receive
 whatever priority puts first and process it. Spawned branches hold a permit from a pool. A
 schedule is any sequence of enabled actions, so a property of every schedule is a property of
 every interleaving. What happens between two points where a task can be interrupted is one action.
 */
module ParallelExecution {
  import opened Wrappers
  import opened Packets
  import opened Modules
  import opened Graphs
  import opened LaneQueues
  import opened NodeQueues
  import opened Walks

  type BranchResult = Result<seq<Packet>, ExecutionError>

  /** Where a branch is. */
  datatype Pc =
    | WaitPermit(node: NodeId, packet: Packet)
    | Arriving(node: NodeId, packet: Packet)    // wants the lock, to check the packet
    | Checking(node: NodeId, packet: Packet)    // holds the lock
    | Sending(node: NodeId, packet: Packet)     // waits for space in the packet's lane
    | Queued(node: NodeId)                      // wants the lock, to receive
    | Receiving(node: NodeId)                   // holds the lock
    | Joining(pending: set<nat>, results: seq<Packet>)
    | Finished(result: BranchResult)
    | Reaped                                    // finished well, and joined by its parent
    | Aborted(left: Option<NodeId>)             // dropped; `left` is where it had sent but not received
  {
    predicate Alive() { !Finished? && !Reaped? && !Aborted? }

    predicate HoldsLock() { Checking? || Receiving? }

    /** The queue this branch has put a packet into without taking one out. */
    function Ticket(): Option<NodeId> {
      match this
      case Queued(n) => Some(n)
      case Receiving(n) => Some(n)
      case Aborted(at) => at
      case _ => None
    }
  }

  /** Task 0 is the call itself, and its own parent; every other task was spawned by an earlier one. */
  datatype Task = Task(parent: nat, pc: Pc)

  predicate Holds(t: nat, pc: Pc) { t > 0 && pc.Alive() && !pc.WaitPermit? }

  datatype State = State(tasks: seq<Task>, queues: Queues, handed: Logs, free: nat, lock: Option<nat>)

  datatype Action =
    | AcquirePermit(t: nat)
    | Lock(t: nat)
    | Check(t: nat)
    | Send(t: nat)
    | Receive(t: nat)
    | Join(t: nat, child: nat)
    | Conclude(t: nat)
    | Abort(t: nat)

  // ----- Routing ----------------------------------------------------------

  datatype Routing =
    | Ends(result: BranchResult)
    | Goes(to: NodeId, packet: Packet)
    | Forks(targets: seq<NodeId>, packet: Packet)

  /** The targets of the parallel edges in a list. */
  function ParallelTargets(edges: seq<Edge>): seq<NodeId> {
    if edges == [] then []
    else if edges[0].edgeType.Parallel? then [edges[0].to] + ParallelTargets(edges[1..])
    else ParallelTargets(edges[1..])
  }

  /** If any accepting edge is parallel, fan out along all of those and ignore the others. */
  function Route(net: Net, n: NodeId, outcome: Outcome): Routing {
    match outcome
    case Fail(e) => Ends(Err(InModule(e)))
    case Absorb => Ends(Ok([]))
    case Forward(p) =>
      if n in net.exits then Ends(Ok([p]))
      else
        var next := Accepting(net.edges, n, p);
        var targets := ParallelTargets(next);
        if targets != [] then Forks(targets, p)
        else if next == [] then Ends(Err(InGraph(BuildFailed(DeadEnd(n)))))
        else Goes(next[0].to, p)
  }

  // ----- Steps ------------------------------------------------------------

  function Pool(permits: nat): nat { if permits == 0 then 1 else permits }

  /** A call on a graph whose queues and modules are in a given condition. */
  function Start(net: Net, entry: NodeId, p: Packet, permits: nat, queues: Queues, handed: Logs): State {
    var pc := if entry in net.entries then Arriving(entry, p) else Finished(Err(InGraph(MissingNode(entry))));
    State([Task(0, pc)], queues, handed, Pool(permits), None)
  }

  predicate AtNode(net: Net, s: State, n: NodeId) {
    n in net.modules && n in net.capacity && n in s.queues && |s.queues[n]| == 3
  }

  predicate Enabled(net: Net, s: State, a: Action) {
    a.t < |s.tasks| &&
    var pc := s.tasks[a.t].pc;
    match a
    case AcquirePermit(t) => pc.WaitPermit? && s.free > 0
    case Lock(t) => (pc.Arriving? || pc.Queued?) && s.lock.None?
    case Check(t) => pc.Checking? && s.lock == Some(t)
    case Send(t) =>
      pc.Sending? && AtNode(net, s, pc.node) && |s.queues[pc.node][LaneFor(pc.packet)]| < net.capacity[pc.node]
    case Receive(t) =>
      pc.Receiving? && s.lock == Some(t) && AtNode(net, s, pc.node) && Pop(s.queues[pc.node]).0.Some?
    case Join(t, c) => pc.Joining? && c in pc.pending && c < |s.tasks| && s.tasks[c].pc.Finished?
    case Conclude(t) => pc.Joining? && pc.pending == {}
    case Abort(t) =>
      t > 0 && pc.Alive() && s.tasks[t].parent < |s.tasks| && GoneWrong(s.tasks[s.tasks[t].parent].pc)
  }

  /** A branch that returned early, or was dropped, takes the branches it spawned down with it. */
  predicate GoneWrong(pc: Pc) {
    pc.Aborted? || (pc.Finished? && pc.result.Err?)
  }

  function SetPc(tasks: seq<Task>, t: nat, pc: Pc): seq<Task>
    requires t < |tasks|
  {
    tasks[t := Task(tasks[t].parent, pc)]
  }

  /** Move a task on; a permit it holds is given back if the new place does not hold one. */
  function Moved(s: State, t: nat, pc: Pc): State
    requires t < |s.tasks|
  {
    s.(tasks := SetPc(s.tasks, t, pc),
       free := if Holds(t, s.tasks[t].pc) && !Holds(t, pc) then s.free + 1 else s.free)
  }

  function Spawned(parent: nat, targets: seq<NodeId>, p: Packet): seq<Task> {
    seq(|targets|, i requires 0 <= i < |targets| => Task(parent, WaitPermit(targets[i], p)))
  }

  /** The `n` task numbers from `first` on. */
  function Ids(first: nat, n: nat): (ids: set<nat>)
    ensures forall c :: c in ids <==> first <= c < first + n
  {
    if n == 0 then {} else {first + n - 1} + Ids(first, n - 1)
  }

  /** What a received packet makes of its task. */
  function Routed(s: State, t: nat, routing: Routing): State
    requires t < |s.tasks|
  {
    match routing
    case Ends(result) => Moved(s, t, Finished(result))
    case Goes(to, p) => Moved(s, t, Arriving(to, p))
    case Forks(targets, p) =>
      var s' := Moved(s, t, Joining(Ids(|s.tasks|, |targets|), []));
      s'.(tasks := s'.tasks + Spawned(t, targets, p))
  }

  function Apply(net: Net, s: State, a: Action): State
    requires Enabled(net, s, a)
  {
    var pc := s.tasks[a.t].pc;
    match a
    case AcquirePermit(t) => Moved(s, t, Arriving(pc.node, pc.packet)).(free := s.free - 1)
    case Lock(t) =>
      Moved(s, t, if pc.Arriving? then Checking(pc.node, pc.packet) else Receiving(pc.node)).(lock := Some(t))
    case Check(t) =>
      var refused := Refused(net, pc.node, pc.packet);
      Moved(s, t, if refused.Some? then Finished(Err(refused.value))
                  else Sending(pc.node, pc.packet.RecordHop(pc.node))).(lock := None)
    case Send(t) =>
      Moved(s, t, Queued(pc.node)).(
        queues := s.queues[pc.node := Push(s.queues[pc.node], LaneFor(pc.packet), pc.packet)])
    case Receive(t) =>
      var (front, lanes) := Pop(s.queues[pc.node]);
      var q := front.value;
      var outcome := net.modules[pc.node].Process(LogAt(s.handed, pc.node), q);
      Routed(s.(queues := s.queues[pc.node := lanes],
                handed := Record(net, s.handed, pc.node, q),
                lock := None), t, Route(net, pc.node, outcome))
    case Join(t, c) =>
      (match s.tasks[c].pc.result
       case Ok(packets) =>
         var s' := Moved(s, t, Joining(pc.pending - {c}, pc.results + packets));
         s'.(tasks := SetPc(s'.tasks, c, Reaped))
       case Err(e) => Moved(s, t, Finished(Err(e))))
    case Conclude(t) => Moved(s, t, Finished(Ok(pc.results)))
    case Abort(t) =>
      Moved(s, t, Aborted(pc.Ticket())).(lock := if s.lock == Some(t) then None else s.lock)
  }

  /** The state a schedule leads to, if each of its actions is enabled when its turn comes. */
  function Play(net: Net, s: State, schedule: seq<Action>): Option<State>
    decreases |schedule|
  {
    if schedule == [] then Some(s)
    else
      var last := |schedule| - 1;
      var r := Play(net, s, schedule[..last]);
      if r.Some? && Enabled(net, r.value, schedule[last])
      then Some(Apply(net, r.value, schedule[last])) else None
  }

  predicate Done(s: State) { |s.tasks| > 0 && s.tasks[0].pc.Finished? }
}
