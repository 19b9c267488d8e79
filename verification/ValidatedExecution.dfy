/**
 What validation buys both executors. The validator reads the adjacency index and the executors read
 the edge list; the representation invariant carries its verdict over.
 */
module ValidatedExecution {
  import opened Wrappers
  import opened Packets
  import opened Modules
  import opened Digraphs
  import opened Graphs
  import opened FlowGraphs
  import opened Walks
  import opened SequentialExecution
  import opened ParallelExecution
  import ParallelInvariants
  import opened ParallelProgress
  import opened ParallelOutcome
  import opened ParallelCosts
  import opened ParallelCompletion

  /** A stored graph that validation would accept, with no feedback edges and nothing queued. */
  ghost predicate Validated(g: FlowGraph)
    reads g, NodeQueuesOf(g)
  {
    Usable(g) && g.Abstract().Sound() && g.allowedFeedback == {} && QueuesEmpty(NetOf(g), QueuesOf(g))
  }

  lemma ValidatedNet(g: FlowGraph)
    requires Validated(g)
    ensures NetOf(g).WellFormed() && Acyclic(NetOf(g).Links())
  {
    UsableNet(g);
    assert g.Abstract().Checked() == g.Abstract().Links();
  }

  /**
   Every interleaving of a concurrent call on a validated graph of stateless modules that finishes
   returns the packets of the graph's unfolding, or fails exactly when the unfolding loses a branch; no
   receive ever waits on the way.
   */
  lemma ValidatedCallsAgree(g: FlowGraph, entry: NodeId, p: Packet, permits: nat, schedule: seq<Action>)
    requires Validated(g) && Stateless(NetOf(g)) && entry in g.entryPoints
    ensures NetOf(g).WellFormed() && Acyclic(NetOf(g).Links())
    ensures var r := Play(NetOf(g), Start(NetOf(g), entry, p, permits, QueuesOf(g), LogsOf(g)), schedule);
            r.Some? && Done(r.value) ==>
              var result := r.value.tasks[0].pc.result;
              && (result.Ok? <==> Lossless(Arrival(NetOf(g), entry, p)))
              && (result.Err? ==> Lost(result.error) in Arrival(NetOf(g), entry, p))
              && (result.Ok? ==>
                    Deliveries(result.value) == Arrival(NetOf(g), entry, p) && QueuesEmpty(NetOf(g), r.value.queues))
    ensures var r := Play(NetOf(g), Start(NetOf(g), entry, p, permits, QueuesOf(g), LogsOf(g)), schedule);
            r.Some? ==> forall t :: 0 <= t < |r.value.tasks| && r.value.tasks[t].pc.Receiving? ==>
                          Enabled(NetOf(g), r.value, Receive(t))
  {
    ValidatedNet(g);
    ScheduleIndependence(NetOf(g), entry, p, permits, QueuesOf(g), LogsOf(g), schedule);
    var r := Play(NetOf(g), Start(NetOf(g), entry, p, permits, QueuesOf(g), LogsOf(g)), schedule);
    if r.Some? {
      forall t | 0 <= t < |r.value.tasks| && r.value.tasks[t].pc.Receiving?
        ensures Enabled(NetOf(g), r.value, Receive(t))
      {
        EmptyBounded(NetOf(g), QueuesOf(g));
        ReceiveNeverWaits(NetOf(g), entry, p, permits, QueuesOf(g), LogsOf(g), schedule, t);
      }
    }
  }

  /** On such a graph some interleaving never returns exactly when there are more forks than permits. */
  lemma ValidatedCallsFinish(g: FlowGraph, entry: NodeId, p: Packet, permits: nat)
    requires Validated(g) && Stateless(NetOf(g))
    ensures NetOf(g).WellFormed() && Acyclic(NetOf(g).Links())
    ensures (exists schedule :: GetsStuck(NetOf(g), entry, p, permits, QueuesOf(g), LogsOf(g), schedule)) <==>
            Forkings(NetOf(g), entry, p) > Pool(permits)
  {
    ValidatedNet(g);
    StuckExactlyWhenForksExceedPermits(NetOf(g), entry, p, permits, QueuesOf(g), LogsOf(g));
  }

  lemma EmptyBounded(net: Net, queues: Queues)
    requires net.WellFormed() && QueuesEmpty(net, queues)
    ensures ParallelInvariants.Bounded(net, queues)
  {
  }
}
