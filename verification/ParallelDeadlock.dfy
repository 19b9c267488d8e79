/**
 No number of permits is enough for every graph: on a chain of parallel edges one node longer than
 the pool, each spawned branch keeps its permit while it waits for the branch it spawned in turn.
 */
module ParallelDeadlock {
  import opened Wrappers
  import opened Packets
  import opened Modules
  import opened Digraphs
  import opened Graphs
  import opened LaneQueues
  import opened NodeQueues
  import opened Walks
  import opened ParallelExecution
  import opened ParallelProgress
  import opened ParallelCases

  function PassThrough(): Module {
    Module("pass", Transformer, None, None, true, (_, p) => Response(Forward(p), 0), None, None)
  }

  /** The parallel edges from `first` to `first + 1`, and so on, `n` of them. */
  function ForkChain(first: NodeId, n: nat): seq<Edge>
    decreases n
  {
    if n == 0 then [] else [Edge(first, first + 1, Parallel, None)] + ForkChain(first + 1, n - 1)
  }

  function Everywhere<V>(n: nat, v: V): (m: map<NodeId, V>)
    ensures forall k: NodeId :: k in m <==> k < n
    ensures forall k: NodeId :: k < n ==> m[k] == v
  {
    if n == 0 then map[] else Everywhere(n - 1, v)[n - 1 := v]
  }

  /** Nodes 0 to `k + 1` in a row, every edge parallel, lanes of the given capacity. */
  function DeepNet(k: nat, capacity: nat): Net {
    Net(Everywhere(k + 2, PassThrough()), ForkChain(0, k + 1), [0], [k + 1], Everywhere(k + 2, capacity))
  }

  function Idle(k: nat): Queues { Everywhere(k + 2, NO_PACKETS) }

  lemma {:induction false} ForkChainAccepting(first: NodeId, n: nat, x: NodeId, p: Packet)
    ensures Accepting(ForkChain(first, n), x, p) ==
            if first <= x < first + n then [Edge(x, x + 1, Parallel, None)] else []
    decreases n
  {
    if n > 0 { ForkChainAccepting(first + 1, n - 1, x, p); }
  }

  lemma {:induction false} ForkChainEnds(first: NodeId, n: nat)
    ensures forall e :: e in ForkChain(first, n) ==> first <= e.from < first + n && e.to == e.from + 1
    decreases n
  {
    if n > 0 { ForkChainEnds(first + 1, n - 1); }
  }

  lemma DeepNetForks(k: nat, capacity: nat, m: NodeId, log: seq<Packet>, q: Packet)
    requires m <= k
    ensures Route(DeepNet(k, capacity), m, PassThrough().Process(log, q)) == Forks([m + 1], q)
  {
    ForkChainAccepting(0, k + 1, m, q);
    assert ParallelTargets([Edge(m, m + 1, Parallel, None)]) == [m + 1];
  }

  lemma DeepNetAcyclic(k: nat, capacity: nat)
    ensures Acyclic(DeepNet(k, capacity).Links())
    ensures forall e :: e in DeepNet(k, capacity).edges ==> e.from <= k && e.to == e.from + 1
  {
    var net := DeepNet(k, capacity);
    ForkChainEnds(0, k + 1);
    forall x: NodeId, y: NodeId | (x, y) in net.Links() ensures !Reaches(net.Links(), y, x) {
      var above: set<NodeId> := set n | n in net.modules && n > x;
      assert Closed(net.Links(), above);
      if Reaches(net.Links(), y, x) { ReachesStaysInClosed(net.Links(), above, y, x); }
    }
  }

  /** `m` branches deep: each waits for the next, and the last waits for a permit. */
  ghost predicate Deep(k: nat, m: nat, s: State, q: Packet) {
    && 1 <= m <= k + 1 && |s.tasks| == m + 1 && s.free == k - (m - 1) && s.lock.None? && s.queues == Idle(k)
    && s.tasks[m].pc == WaitPermit(m, q) && (forall i :: 0 <= i < m ==> s.tasks[i].pc == Joining({i + 1}, []))
  }

  /** The same, just after the last got a permit. */
  ghost predicate Arrived(k: nat, m: nat, s: State, q: Packet) {
    && m <= k && |s.tasks| == m + 1 && s.free == k - m && s.lock.None? && s.queues == Idle(k)
    && s.tasks[m].pc == Arriving(m, q) && (forall i :: 0 <= i < m ==> s.tasks[i].pc == Joining({i + 1}, []))
  }

  /** Processing at node `m` spawns one more branch. */
  lemma Deeper(k: nat, m: nat, s: State, q: Packet)
    requires Arrived(k, m, s, q)
    ensures Deep(k, m + 1, Routed(s, m, Forks([m + 1], q.RecordHop(m))), q.RecordHop(m))
  {
    assert Ids(m + 1, 1) == {m + 1};
  }

  lemma Admitted(k: nat, capacity: nat, m: nat, s: State, q: Packet)
    requires Deep(k, m, s, q) && m <= k
    ensures Enabled(DeepNet(k, capacity), s, AcquirePermit(m))
    ensures Arrived(k, m, Apply(DeepNet(k, capacity), s, AcquirePermit(m)), q)
  {
  }

  lemma {:induction false} GoesDeep(k: nat, capacity: nat, p: Packet, handed: Logs, m: nat)
    returns (schedule: seq<Action>, s: State, q: Packet)
    requires k >= 1 && capacity >= 1 && 1 <= m <= k + 1
    ensures Play(DeepNet(k, capacity), Start(DeepNet(k, capacity), 0, p, k, Idle(k), handed), schedule) == Some(s)
    ensures Deep(k, m, s, q)
  {
    var net := DeepNet(k, capacity);
    var s0 := Start(net, 0, p, k, Idle(k), handed);
    if m == 1 {
      schedule, s, q := [], s0, p;
    } else {
      schedule, s, q := GoesDeep(k, capacity, p, handed, m - 1);
      Admitted(k, capacity, m - 1, s, q);
      PlayMore(net, s0, schedule, AcquirePermit(m - 1));
      schedule, s := schedule + [AcquirePermit(m - 1)], Apply(net, s, AcquirePermit(m - 1));
    }
    schedule, s, q := Descends(k, capacity, s0, schedule, s, m - 1, q);
  }

  lemma Descends(k: nat, capacity: nat, s0: State, before: seq<Action>, s: State, m: nat, p: Packet)
    returns (after: seq<Action>, s': State, q: Packet)
    requires capacity >= 1 && Play(DeepNet(k, capacity), s0, before) == Some(s)
    requires Arrived(k, m, s, p)
    ensures Play(DeepNet(k, capacity), s0, after) == Some(s') && Deep(k, m + 1, s', q)
  {
    var net := DeepNet(k, capacity);
    q := p.RecordHop(m);
    after := Sends(net, s0, before, s, m, m, p);
    after := Receives(net, s0, after, s, m, m, p, q);
    DeepNetForks(k, capacity, m, LogAt(s.handed, m), q);
    var s1 := s.(handed := Record(net, s.handed, m, q));
    Deeper(k, m, s1, p);
    s' := Routed(s1, m, Forks([m + 1], q));
  }

  lemma DeepNetFits(k: nat, capacity: nat)
    requires capacity >= 1
    ensures DeepNet(k, capacity).WellFormed() && QueuesEmpty(DeepNet(k, capacity), Idle(k))
  {
    DeepNetAcyclic(k, capacity);
  }

  lemma DeepIsBlocked(k: nat, s: State, q: Packet)
    requires Deep(k, k + 1, s, q)
    ensures Blocked(s) && !Done(s)
  {
  }

  lemma DeepIsStuck(
    k: nat, capacity: nat, p: Packet, handed: Logs, schedule: seq<Action>, s: State, q: Packet)
    requires k >= 1 && capacity >= 1 && Deep(k, k + 1, s, q)
    requires Play(DeepNet(k, capacity), Start(DeepNet(k, capacity), 0, p, k, Idle(k), handed), schedule) == Some(s)
    ensures Blocked(s) && !Done(s) && Stuck(DeepNet(k, capacity), s)
  {
    DeepNetFits(k, capacity);
    EmptyIsRoomy(DeepNet(k, capacity), Idle(k));
    DeepIsBlocked(k, s, q);
    StuckExactlyWhenBlocked(DeepNet(k, capacity), 0, p, k, Idle(k), handed, schedule);
  }

  lemma GetsStuckDeep(k: nat, capacity: nat, p: Packet, handed: Logs) returns (schedule: seq<Action>, s: State)
    requires k >= 1 && capacity >= 1
    ensures Play(DeepNet(k, capacity), Start(DeepNet(k, capacity), 0, p, k, Idle(k), handed), schedule) == Some(s)
    ensures Blocked(s) && !Done(s) && Stuck(DeepNet(k, capacity), s)
  {
    var q;
    schedule, s, q := GoesDeep(k, capacity, p, handed, k + 1);
    DeepIsStuck(k, capacity, p, handed, schedule, s, q);
  }

  /**
   For every permit count and lane capacity there is an acyclic graph of modules that pass packets
   on, where a call with empty queues can reach a state that never moves again.
   */
  lemma NoPermitCountSuffices(k: nat, capacity: nat, p: Packet, handed: Logs) returns (schedule: seq<Action>)
    requires k >= 1 && capacity >= 1
    ensures var net := DeepNet(k, capacity);
            var r := Play(net, Start(net, 0, p, k, Idle(k), handed), schedule);
            && net.WellFormed() && Acyclic(net.Links()) && QueuesEmpty(net, Idle(k))
            && r.Some? && !Done(r.value) && Blocked(r.value) && Stuck(net, r.value)
  {
    DeepNetFits(k, capacity);
    DeepNetAcyclic(k, capacity);
    var s;
    schedule, s := GetsStuckDeep(k, capacity, p, handed);
  }
}
