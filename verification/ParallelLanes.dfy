/**
 Which packet a concurrent branch takes from a queue it shares: every packet waits in the lane of its own
 priority, and a branch takes the first of the most urgent ones, whoever put it there.
 */
module ParallelLanes {
  import opened Wrappers
  import opened Packets
  import opened Modules
  import opened Graphs
  import opened LaneQueues
  import opened NodeQueues
  import opened Walks
  import opened ParallelExecution
  import opened ParallelInvariants
  import opened ParallelProgress

  ghost predicate InOwnLane(lanes: Lanes<Packet>) {
    forall l, i :: 0 <= l < |lanes| && 0 <= i < |lanes[l]| ==> LaneFor(lanes[l][i]) == l
  }

  ghost predicate AllInOwnLanes(queues: Queues) { forall n :: n in queues ==> InOwnLane(queues[n]) }

  lemma PopKeepsLanes(lanes: Lanes<Packet>)
    requires InOwnLane(lanes)
    ensures InOwnLane(Pop(lanes).1)
  {
    var l := FirstNonEmpty(lanes);
    if l < |lanes| {
      var rest := lanes[l][1..];
      forall i | 0 <= i < |rest| ensures LaneFor(rest[i]) == l { assert rest[i] == lanes[l][i + 1]; }
    }
  }

  lemma LanesStep(net: Net, s: State, a: Action)
    requires AllInOwnLanes(s.queues) && Enabled(net, s, a)
    ensures AllInOwnLanes(Apply(net, s, a).queues)
  {
    if a.Receive? { PopKeepsLanes(s.queues[s.tasks[a.t].pc.node]); }
  }

  /** In every state of every interleaving packets wait in their own lanes, which never hold more than they can. */
  lemma {:induction false} LanesKeepApart(
    net: Net, entry: NodeId, p: Packet, permits: nat, queues: Queues, handed: Logs, schedule: seq<Action>)
    requires Bounded(net, queues) && AllInOwnLanes(queues)
    ensures var r := Play(net, Start(net, entry, p, permits, queues, handed), schedule);
            r.Some? ==>
              && AllInOwnLanes(r.value.queues)
              && forall n, l :: n in r.value.queues && n in net.capacity && 0 <= l < |r.value.queues[n]| ==>
                   |r.value.queues[n][l]| <= net.capacity[n]
    decreases |schedule|
  {
    InvRun(net, entry, p, permits, queues, handed, schedule);
    if schedule != [] {
      var last := |schedule| - 1;
      LanesKeepApart(net, entry, p, permits, queues, handed, schedule[..last]);
      var r := Play(net, Start(net, entry, p, permits, queues, handed), schedule[..last]);
      if r.Some? && Enabled(net, r.value, schedule[last]) { LanesStep(net, r.value, schedule[last]); }
    }
  }

  /**
   A branch that receives takes the packet that has waited longest among the most urgent ones at its
   node, and its module is handed that one.
   */
  lemma ReceivesMostUrgent(
    net: Net, entry: NodeId, p: Packet, permits: nat, queues: Queues, handed: Logs, schedule: seq<Action>, t: nat)
    returns (q: Packet)
    requires Bounded(net, queues) && AllInOwnLanes(queues)
    requires Play(net, Start(net, entry, p, permits, queues, handed), schedule).Some?
    requires Enabled(net, Play(net, Start(net, entry, p, permits, queues, handed), schedule).value, Receive(t))
    ensures var s := Play(net, Start(net, entry, p, permits, queues, handed), schedule).value;
            var n := s.tasks[t].pc.node;
            var lanes, after := s.queues[n], Apply(net, s, Receive(t));
            && LaneFor(q) < |lanes| && lanes[LaneFor(q)] != [] && lanes[LaneFor(q)][0] == q
            && (forall l, i :: 0 <= l < |lanes| && 0 <= i < |lanes[l]| ==> LaneFor(q) <= LaneFor(lanes[l][i]))
            && after.queues[n] == lanes[LaneFor(q) := lanes[LaneFor(q)][1..]]
            && after.handed == Record(net, s.handed, n, q)
  {
    LanesKeepApart(net, entry, p, permits, queues, handed, schedule);
    var s := Play(net, Start(net, entry, p, permits, queues, handed), schedule).value;
    var n := s.tasks[t].pc.node;
    assert InOwnLane(s.queues[n]);
    var l := FirstNonEmpty(s.queues[n]);
    q := s.queues[n][l][0];
  }
}
