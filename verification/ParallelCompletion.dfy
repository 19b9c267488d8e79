/**
 Whether a concurrent call can get stuck, decided before the call: on an acyclic graph of stateless
 modules and from empty queues, some interleaving stops short of the end exactly when the unfolding
 of the graph fans out more often than there are permits. Otherwise every interleaving can be
 finished, and only stops when it is.
 */
module ParallelCompletion {
  import opened Wrappers
  import opened Packets
  import opened Modules
  import opened Digraphs
  import opened Listings
  import opened Graphs
  import opened Walks
  import opened ParallelExecution
  import opened ParallelInvariants
  import opened ParallelProgress
  import opened ParallelOutcome
  import opened ParallelCases
  import opened ParallelCosts

  // ----- Counting the branches that wait for branches ----------------------

  function Joiners(tasks: seq<Task>): set<nat> {
    set t: nat | t < |tasks| && tasks[t].pc.Joining?
  }

  /** No task outside a join can still fork. */
  ghost predicate OnlyJoins(net: Net, tasks: seq<Task>)
    requires Acyclic(net.Links())
  {
    forall t :: 0 <= t < |tasks| ==> tasks[t].pc.Joining? || TaskCost(net, PER_FORK, tasks[t].pc) == 0
  }

  lemma JoinersOfMore(tasks: seq<Task>)
    requires tasks != []
    ensures |Joiners(tasks)| ==
            |Joiners(tasks[..|tasks| - 1])| + if tasks[|tasks| - 1].pc.Joining? then 1 else 0
  {
    var last := |tasks| - 1;
    var before := Joiners(tasks[..last]);
    assert Joiners(tasks) == before + if tasks[last].pc.Joining? then {last} else {};
    assert last !in before;
  }

  /** Every join was a fork: the tasks are worth one fork per joining task, and all forks to come. */
  lemma {:induction false} JoinersCost(net: Net, tasks: seq<Task>)
    requires Acyclic(net.Links())
    ensures |Joiners(tasks)| <= TasksCost(net, PER_FORK, tasks)
    ensures OnlyJoins(net, tasks) ==> |Joiners(tasks)| == TasksCost(net, PER_FORK, tasks)
  {
    if tasks == [] {
      assert Joiners(tasks) == {};
    } else {
      var last := |tasks| - 1;
      JoinersOfMore(tasks);
      JoinersCost(net, tasks[..last]);
      assert OnlyJoins(net, tasks) ==> OnlyJoins(net, tasks[..last]);
    }
  }

  /** When everyone waits, the permits are with the spawned branches that join; the call joins without one. */
  lemma WaitingJoiners(tasks: seq<Task>)
    requires Tree(tasks) && Waits(tasks) && !tasks[0].pc.Finished?
    ensures |Joiners(tasks)| == |Held(tasks)| + 1
  {
    assert tasks[0].pc.Joining?;
    assert Joiners(tasks) == Held(tasks) + {0};
    assert 0 !in Held(tasks);
  }

  /** This schedule ends where nothing is enabled, and the call has not returned. */
  ghost predicate GetsStuck(
    net: Net, entry: NodeId, p: Packet, permits: nat, queues: Queues, handed: Logs, schedule: seq<Action>)
  {
    var r := Play(net, Start(net, entry, p, permits, queues, handed), schedule);
    r.Some? && !Done(r.value) && Stuck(net, r.value)
  }

  lemma StuckTakesForks(
    net: Net, entry: NodeId, p: Packet, permits: nat, queues: Queues, handed: Logs, schedule: seq<Action>)
    requires net.WellFormed() && Acyclic(net.Links()) && Stateless(net) && QueuesEmpty(net, queues)
    requires GetsStuck(net, entry, p, permits, queues, handed, schedule)
    ensures Forkings(net, entry, p) > Pool(permits)
  {
    var s := Play(net, Start(net, entry, p, permits, queues, handed), schedule).value;
    InvRun(net, entry, p, permits, queues, handed, schedule);
    EmptyIsRoomy(net, queues);
    StuckIsBlocked(net, Pool(permits), queues, s);
    WaitingJoiners(s.tasks);
    JoinersCost(net, s.tasks);
    var order := SomeListing(queues.Keys);
    CostRun(net, PER_FORK, order, entry, p, permits, queues, handed, schedule);
  }

  // ----- Getting stuck ----------------------------------------------------

  /** Everybody but perhaps `t` waits, nobody has the lock, and the queues are as before the call. */
  ghost predicate RestsBut(queues: Queues, s: State, t: nat) {
    && s.lock.None? && s.queues == queues
    && forall u :: 0 <= u < |s.tasks| && u != t ==>
         s.tasks[u].pc.WaitPermit? || (s.tasks[u].pc.Joining? && s.tasks[u].pc.pending != {})
  }

  ghost predicate Rests(queues: Queues, s: State) { RestsBut(queues, s, |s.tasks|) }

  /** Forks done and forks to come are all there still, and nothing else of note has changed. */
  ghost predicate SameForks(net: Net, s: State, s': State)
    requires Acyclic(net.Links())
  {
    s'.free == s.free && TasksCost(net, PER_FORK, s'.tasks) == TasksCost(net, PER_FORK, s.tasks)
  }

  /** Task `t` arrives at `n` with a packet that has a fork ahead. */
  ghost predicate HeadsForFork(net: Net, queues: Queues, s: State, t: nat, n: NodeId, p: Packet)
    requires Acyclic(net.Links())
  {
    && RestsBut(queues, s, t) && t < |s.tasks| && s.tasks[t].pc == Arriving(n, p)
    && ArrivalCost(net, PER_FORK, n, p) > 0
  }

  lemma HeadedCalls(net: Net, queues: Queues, s: State, t: nat, n: NodeId, p: Packet)
    requires net.WellFormed() && Acyclic(net.Links()) && QueuesEmpty(net, queues)
    requires HeadsForFork(net, queues, s, t, n, p)
    ensures Calls(net, s, t, n, p)
    ensures ArrivalCost(net, PER_FORK, n, p) == ProcessingCost(net, PER_FORK, n, p.RecordHop(n))
  {
  }

  /** One node further, or at the fork. */
  lemma AfterProcessing(
    net: Net, queues: Queues, s: State, t: nat, n: NodeId, q: Packet, routing: Routing)
    requires Acyclic(net.Links()) && n in net.modules && RestsBut(queues, s, t) && t < |s.tasks|
    requires s.tasks[t].pc.Arriving? && TaskCost(net, PER_FORK, s.tasks[t].pc) == ProcessingCost(net, PER_FORK, n, q)
    requires routing == Route(net, n, net.modules[n].Process([], q)) && ProcessingCost(net, PER_FORK, n, q) > 0
    ensures var s' := Routed(s, t, routing);
            && SameForks(net, s, s')
            && match routing
               case Ends(_) => false
               case Goes(to, p) => HeadsForFork(net, queues, s', t, to, p) && (n, to) in net.Links()
               case Forks(_, _) => Rests(queues, s')
  {
    RouteFollowsLinks(net, n, net.modules[n].Process([], q));
    RoutedCost(net, PER_FORK, s, t, n, q, routing);
    if routing.Forks? {
      assert |s.tasks| in Ids(|s.tasks|, |routing.targets|);
    }
  }

  /** A task with a fork ahead can be taken to it while everybody else waits. */
  lemma {:induction false} RunsToFork(
    net: Net, queues: Queues, s0: State, before: seq<Action>, s: State, t: nat, n: NodeId, p: Packet)
    returns (after: seq<Action>, s': State)
    requires net.WellFormed() && Acyclic(net.Links()) && Stateless(net) && QueuesEmpty(net, queues)
    requires Play(net, s0, before) == Some(s) && HeadsForFork(net, queues, s, t, n, p)
    ensures Play(net, s0, after) == Some(s') && Rests(queues, s') && SameForks(net, s, s')
    decreases |Downstream(net.Links(), n)|
  {
    var q := p.RecordHop(n);
    HeadedCalls(net, queues, s, t, n, p);
    after := Sends(net, s0, before, s, t, n, p);
    after := Receives(net, s0, after, s, t, n, p, q);
    assert net.modules[n].Stateless();
    var routing := Route(net, n, net.modules[n].Process([], q));
    assert net.modules[n].Process(LogAt(s.handed, n), q) == net.modules[n].Process([], q);
    var s1 := s.(handed := Record(net, s.handed, n, q));
    AfterProcessing(net, queues, s1, t, n, q, routing);
    s' := Routed(s1, t, routing);
    if routing.Goes? {
      DownstreamShrinks(net.Links(), n, routing.to);
      after, s' := RunsToFork(net, queues, s0, after, s', t, routing.to, routing.packet);
    }
  }

  /** While fewer branches join than there are forks in all, one that waits for a permit has a fork ahead. */
  lemma SomeForkWaits(net: Net, queues: Queues, s: State) returns (w: nat)
    requires Acyclic(net.Links()) && Rests(queues, s) && |Joiners(s.tasks)| < TasksCost(net, PER_FORK, s.tasks)
    ensures w < |s.tasks| && s.tasks[w].pc.WaitPermit?
    ensures ArrivalCost(net, PER_FORK, s.tasks[w].pc.node, s.tasks[w].pc.packet) > 0
  {
    JoinersCost(net, s.tasks);
    w :| 0 <= w < |s.tasks| && !s.tasks[w].pc.Joining? && TaskCost(net, PER_FORK, s.tasks[w].pc) != 0;
  }

  lemma RestingJoiners(total: nat, net: Net, queues: Queues, s: State)
    requires Inv(net, total, queues, s) && Rests(queues, s)
    ensures |Joiners(s.tasks)| == total - s.free + 1
  {
    WaitingJoiners(s.tasks);
  }

  lemma LetsIn(net: Net, queues: Queues, s: State, w: nat)
    requires Acyclic(net.Links()) && Rests(queues, s) && s.free > 0 && w < |s.tasks| && s.tasks[w].pc.WaitPermit?
    requires ArrivalCost(net, PER_FORK, s.tasks[w].pc.node, s.tasks[w].pc.packet) > 0
    ensures Enabled(net, s, AcquirePermit(w))
    ensures var s' := Apply(net, s, AcquirePermit(w));
            && HeadsForFork(net, queues, s', w, s.tasks[w].pc.node, s.tasks[w].pc.packet) && s'.free == s.free - 1
            && TasksCost(net, PER_FORK, s'.tasks) == TasksCost(net, PER_FORK, s.tasks)
  {
    TasksCostSet(net, PER_FORK, s.tasks, w, Arriving(s.tasks[w].pc.node, s.tasks[w].pc.packet));
  }

  /** With more forks than permits, every permit can be given to a branch that forks and waits. */
  lemma {:induction false} UsesUpPermits(
    net: Net, entry: NodeId, p: Packet, permits: nat, queues: Queues, handed: Logs, before: seq<Action>, s: State)
    returns (after: seq<Action>, s': State)
    requires net.WellFormed() && Acyclic(net.Links()) && Stateless(net) && QueuesEmpty(net, queues)
    requires Play(net, Start(net, entry, p, permits, queues, handed), before) == Some(s)
    requires Rests(queues, s) && TasksCost(net, PER_FORK, s.tasks) > Pool(permits)
    ensures Play(net, Start(net, entry, p, permits, queues, handed), after) == Some(s')
    ensures Rests(queues, s') && s'.free == 0
    decreases s.free
  {
    var s0 := Start(net, entry, p, permits, queues, handed);
    if s.free == 0 {
      after, s' := before, s;
    } else {
      InvRun(net, entry, p, permits, queues, handed, before);
      RestingJoiners(Pool(permits), net, queues, s);
      var w := SomeForkWaits(net, queues, s);
      LetsIn(net, queues, s, w);
      PlayMore(net, s0, before, AcquirePermit(w));
      var s1 := Apply(net, s, AcquirePermit(w));
      var s2;
      after, s2 := RunsToFork(net, queues, s0, before + [AcquirePermit(w)], s1, w,
                              s.tasks[w].pc.node, s.tasks[w].pc.packet);
      after, s' := UsesUpPermits(net, entry, p, permits, queues, handed, after, s2);
    }
  }

  lemma RestingIsBlocked(total: nat, net: Net, queues: Queues, s: State)
    requires Inv(net, total, queues, s) && Rests(queues, s) && s.free == 0
    ensures !Done(s) && Stuck(net, s)
  {
    BlockedIsHalted(net, s);
    HaltedIsStuck(net, s);
  }

  lemma ForksGetStuck(net: Net, entry: NodeId, p: Packet, permits: nat, queues: Queues, handed: Logs)
    returns (schedule: seq<Action>)
    requires net.WellFormed() && Acyclic(net.Links()) && Stateless(net) && QueuesEmpty(net, queues)
    requires Forkings(net, entry, p) > Pool(permits)
    ensures GetsStuck(net, entry, p, permits, queues, handed, schedule)
  {
    var s0 := Start(net, entry, p, permits, queues, handed);
    var order := SomeListing(queues.Keys);
    StartCost(net, PER_FORK, order, entry, p, permits, queues, handed);
    EmptyQueuesCostNothing(net, PER_FORK, order, queues);
    var s;
    schedule, s := RunsToFork(net, queues, s0, [], s0, 0, entry, p);
    schedule, s := UsesUpPermits(net, entry, p, permits, queues, handed, schedule, s);
    InvRun(net, entry, p, permits, queues, handed, schedule);
    RestingIsBlocked(Pool(permits), net, queues, s);
  }

  /**
   On an acyclic graph with stateless modules and from empty queues, some interleaving of the call
   gets stuck before it returns exactly when the unfolding forks more often than there are permits.
   */
  lemma StuckExactlyWhenForksExceedPermits(
    net: Net, entry: NodeId, p: Packet, permits: nat, queues: Queues, handed: Logs)
    requires net.WellFormed() && Acyclic(net.Links()) && Stateless(net) && QueuesEmpty(net, queues)
    ensures (exists schedule :: GetsStuck(net, entry, p, permits, queues, handed, schedule)) <==>
            Forkings(net, entry, p) > Pool(permits)
  {
    if schedule :| GetsStuck(net, entry, p, permits, queues, handed, schedule) {
      StuckTakesForks(net, entry, p, permits, queues, handed, schedule);
    }
    if Forkings(net, entry, p) > Pool(permits) {
      var schedule := ForksGetStuck(net, entry, p, permits, queues, handed);
    }
  }

  // ----- Finishing --------------------------------------------------------

  /**
   With a permit for every fork, an interleaving that cannot be continued has returned, and what
   it returned is what the unfolding says.
   */
  lemma EndsOnlyWhenDone(
    net: Net, entry: NodeId, p: Packet, permits: nat, queues: Queues, handed: Logs, schedule: seq<Action>)
    requires net.WellFormed() && Acyclic(net.Links()) && Stateless(net) && QueuesEmpty(net, queues)
    requires entry in net.entries && Forkings(net, entry, p) <= Pool(permits)
    ensures var r := Play(net, Start(net, entry, p, permits, queues, handed), schedule);
            r.Some? && Stuck(net, r.value) ==>
              && Done(r.value)
              && var result := r.value.tasks[0].pc.result;
                 && (result.Ok? <==> Lossless(Arrival(net, entry, p)))
                 && (result.Err? ==> Lost(result.error) in Arrival(net, entry, p))
                 && (result.Ok? ==> Deliveries(result.value) == Arrival(net, entry, p))
  {
    StuckExactlyWhenForksExceedPermits(net, entry, p, permits, queues, handed);
    assert !GetsStuck(net, entry, p, permits, queues, handed, schedule);
    ScheduleIndependence(net, entry, p, permits, queues, handed, schedule);
  }

  /** With a permit for every fork, every interleaving can be continued to the end. */
  lemma {:induction false} CanAlwaysFinish(
    net: Net, entry: NodeId, p: Packet, permits: nat, queues: Queues, handed: Logs, schedule: seq<Action>)
    returns (whole: seq<Action>)
    requires net.WellFormed() && Acyclic(net.Links()) && Stateless(net) && QueuesEmpty(net, queues)
    requires entry in net.entries && Forkings(net, entry, p) <= Pool(permits)
    requires Play(net, Start(net, entry, p, permits, queues, handed), schedule).Some?
    ensures schedule <= whole
    ensures var r := Play(net, Start(net, entry, p, permits, queues, handed), whole);
            r.Some? && Done(r.value) && Stuck(net, r.value)
    decreases Workload(net, entry, p) - |schedule|
  {
    var s0 := Start(net, entry, p, permits, queues, handed);
    var s := Play(net, s0, schedule).value;
    if Stuck(net, s) {
      whole := schedule;
      EndsOnlyWhenDone(net, entry, p, permits, queues, handed, schedule);
    } else {
      var a: Action :| Enabled(net, s, a);
      PlayMore(net, s0, schedule, a);
      EveryScheduleEnds(net, entry, p, permits, queues, handed, schedule + [a]);
      whole := CanAlwaysFinish(net, entry, p, permits, queues, handed, schedule + [a]);
    }
  }
}
