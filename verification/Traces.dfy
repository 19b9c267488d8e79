/** Comparing packets, modules and runs up to what traces say. */
module Traces {
  import opened Wrappers
  import opened Packets
  import opened Modules
  import opened Graphs
  import opened Walks

  /** The packet without the nodes it has recorded. */
  function Strip(p: Packet): Packet { p.(trace := []) }

  function StripAll(s: seq<Packet>): seq<Packet> {
    seq(|s|, i requires 0 <= i < |s| => Strip(s[i]))
  }

  function StripOutcome(o: Outcome): Outcome {
    if o.Forward? then Forward(Strip(o.packet)) else o
  }

  function StripEnding(e: Ending): Ending {
    match e
    case Exited(p) => Exited(Strip(p))
    case StillRunning(n, p) => StillRunning(n, Strip(p))
    case _ => e
  }

  /** The module does not look at traces: what it makes of packets depends on the rest of them only. */
  ghost predicate TraceBlind(m: Module) { forall h, p :: BlindOn(m, h, p) }

  ghost predicate BlindOn(m: Module, h: seq<Packet>, p: Packet) {
    && m.respond(h, p).elapsed == m.respond(StripAll(h), Strip(p)).elapsed
    && StripOutcome(m.respond(h, p).outcome) == StripOutcome(m.respond(StripAll(h), Strip(p)).outcome)
  }

  lemma HopsAreTrace(p: Packet, n: NodeId)
    ensures Strip(p.RecordHop(n)) == Strip(p)
  {
  }

  /** What a blind module makes of packets that differ in their traces only. */
  lemma BlindProcesses(m: Module, h: seq<Packet>, h': seq<Packet>, p: Packet, p': Packet)
    requires TraceBlind(m) && StripAll(h) == StripAll(h') && Strip(p) == Strip(p')
    ensures StripOutcome(m.Process(h, p)) == StripOutcome(m.Process(h', p'))
    ensures m.WithinPayload(p) == m.WithinPayload(p')
    ensures StripAll(m.Handed(h, p)) == StripAll(m.Handed(h', p'))
  {
    assert BlindOn(m, h, p) && BlindOn(m, h', p');
    var r, r', r0 := m.respond(h, p), m.respond(h', p'), m.respond(StripAll(h), Strip(p));
    assert r.elapsed == r0.elapsed && StripOutcome(r.outcome) == StripOutcome(r0.outcome);
    assert r'.elapsed == r0.elapsed && StripOutcome(r'.outcome) == StripOutcome(r0.outcome);
    assert p.payload == Strip(p).payload == Strip(p').payload == p'.payload;
    StripSnoc(h, p);
    StripSnoc(h', p');
  }

  lemma StripSnoc(s: seq<Packet>, p: Packet)
    ensures StripAll(s + [p]) == StripAll(s) + [Strip(p)]
  {
  }

  /** Edges do not look at traces. */
  lemma LeavesBlind(e: Edge, n: NodeId, p: Packet, p': Packet)
    requires Strip(p) == Strip(p')
    ensures Leaves(e, n, p) == Leaves(e, n, p')
  {
    assert p.tags == Strip(p).tags == Strip(p').tags == p'.tags;
    assert p.priority == Strip(p).priority == Strip(p').priority == p'.priority;
    if e.condition.Some? { OnlyTagsAndPriorityCount(e.condition.value, p, p'); }
  }

  lemma {:induction false} AcceptingBlind(edges: seq<Edge>, n: NodeId, p: Packet, p': Packet)
    requires Strip(p) == Strip(p')
    ensures Accepting(edges, n, p) == Accepting(edges, n, p')
  {
    if edges != [] {
      LeavesBlind(edges[0], n, p, p');
      AcceptingBlind(edges[1..], n, p, p');
    }
  }

  function StripDecision(d: Decision): Decision {
    match d
    case Stop(ending) => Stop(StripEnding(ending))
    case Continue(to, p) => Continue(to, Strip(p))
  }

  lemma DecidesBlind(net: Net, n: NodeId, o: Outcome, o': Outcome)
    requires StripOutcome(o) == StripOutcome(o')
    ensures StripDecision(Decide(net, n, o)) == StripDecision(Decide(net, n, o'))
  {
    if o.Forward? { AcceptingBlind(net.edges, n, o.packet, o'.packet); }
  }
}
