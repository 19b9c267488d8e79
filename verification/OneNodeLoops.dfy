/** The smallest loop there is, on a graph of one node, from which failing runs are put together. */
module OneNodeLoops {
  import opened Wrappers
  import opened Packets
  import opened Modules
  import opened Listings
  import opened Walks
  import opened Lifecycles
  import opened ExecutionLoops

  /** A module that passes on packets without payload, and absorbs the others. */
  function Picky(): Module {
    Module("picky", Transformer, None, None, true,
           (_: seq<Packet>, p: Packet) => Response(if p.payload == [] then Forward(p) else Absorb, 0), None, None)
  }

  function OneNode(room: Capacity): Setting {
    Setting(Net(map[0 := Picky()], [], [0], [0], map[0 := 1]), 0, map[], room)
  }

  function Blank(payload: seq<Byte>): Packet { Packets.Packet(0, payload, {}, 0, false, []) }

  lemma OneNodeRuns(room: Capacity, handed: Logs, p: Packet)
    requires !p.traced
    ensures Settles(OneNode(room), handed, p)
    ensures RunOf(OneNode(room), handed, p).ending == if p.payload == [] then Exited(p) else Absorbed
  {
    var c := OneNode(room);
    var run := Execute(c.net, handed, 0, p, 1);
    assert Refused(c.net, 0, p).None?;
    assert run.ending == if p.payload == [] then Exited(p) else Absorbed;
    RunIsUnique(c, handed, p, 1);
  }

  /** At the top of the loop, with nothing waiting and nobody interfering. */
  predicate Fresher(s: Loop, buffered: nat) {
    s.phase.AtTop? && s.source == [] && s.flags == INITIALLY && s.buffered == buffered
  }

  lemma StartsUp(room: Capacity) returns (s: Loop)
    ensures Play(OneNode(room), Fresh(OneNode(room)), [Begin([0])]) == Some(s)
    ensures Fresher(s, 0) && s.past.served == []
  {
    var c := OneNode(room);
    assert Lists([0], c.net.modules.Keys);
    s := Apply(c, Fresh(c), Begin([0]));
    assert InitError(Picky()).None?;
    PlayCons(c, Fresh(c), Begin([0]), []);
  }

  /** The steps from the top of the loop to holding the packet offered. */
  function TakeIn(p: Packet): seq<Step> { [Outside(Offer(p))] + ([Go] + ([Go] + ([Go] + ([Go] + [])))) }

  lemma TakesIn(room: Capacity, s: Loop, p: Packet) returns (s': Loop)
    requires Fresher(s, s.buffered)
    ensures Play(OneNode(room), s, TakeIn(p)) == Some(s')
    ensures s'.phase == Holding(p, false) && s'.source == [] && s'.flags == INITIALLY && s'.buffered == s.buffered
    ensures s'.past.served == s.past.served
  {
    var c := OneNode(room);
    var s1 := Apply(c, s, Outside(Offer(p)));
    assert s1.source == [p];
    var s2 := Apply(c, s1, Go);
    var s3 := Apply(c, s2, Go);
    var s4 := Apply(c, s3, Go);
    s' := Apply(c, s4, Go);
    PlayCons(c, s4, Go, []);
    PlayCons(c, s3, Go, [Go] + []);
    PlayCons(c, s2, Go, [Go] + ([Go] + []));
    PlayCons(c, s1, Go, [Go] + ([Go] + ([Go] + [])));
    PlayCons(c, s, Outside(Offer(p)), [Go] + ([Go] + ([Go] + ([Go] + []))));
  }

  /** The steps through the graph. */
  function PassThrough(): seq<Step> { [Go] + ([RunPacket] + []) }

  lemma PassesThrough(room: Capacity, s: Loop) returns (s': Loop)
    requires s.phase.Holding? && !s.phase.packet.traced && !s.flags.locked
    ensures Play(OneNode(room), s, PassThrough()) == Some(s')
    ensures var p := s.phase.packet;
            s'.phase == if p.payload == [] then Emitting(p, s.phase.draining) else Back(s.phase.draining)
    ensures s'.source == s.source && s'.flags == s.flags && s'.buffered == s.buffered
    ensures s'.past.served == s.past.served + [s.phase.packet]
  {
    var c := OneNode(room);
    var s1 := Apply(c, s, Go);
    OneNodeRuns(room, s1.past.handed, s.phase.packet);
    s' := Apply(c, s1, RunPacket);
    PlayCons(c, s1, RunPacket, []);
    PlayCons(c, s, Go, [RunPacket] + []);
  }

  /** From the top of the loop to a packet waiting for room in the sink. */
  lemma ComesOut(room: Capacity, s: Loop) returns (schedule: seq<Step>, s': Loop)
    requires Fresher(s, s.buffered)
    ensures Play(OneNode(room), s, schedule) == Some(s')
    ensures s'.phase == Emitting(Blank([]), false) && s'.source == [] && s'.flags == INITIALLY
    ensures s'.buffered == s.buffered
  {
    var c := OneNode(room);
    var s1 := TakesIn(room, s, Blank([]));
    s' := PassesThrough(room, s1);
    schedule := TakeIn(Blank([])) + PassThrough();
    PlayJoin(c, s, TakeIn(Blank([])), PassThrough());
  }
}
