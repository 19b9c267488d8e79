/** A node's input queue: three bounded lanes chosen by a packet's tags. */
module NodeQueues {
  import opened Wrappers
  import opened Packets
  import opened LaneQueues

  const CONTROL: nat := 0
  const INTERACTIVE: nat := 1
  const BULK: nat := 2

  function LaneFor(p: Packet): (lane: nat)
    ensures lane < 3
  {
    if Tag.Control in p.tags then CONTROL
    else if Tag.Interactive in p.tags then INTERACTIVE
    else BULK
  }

  /** Control packets go first whatever else they are, then interactive ones, then all others. */
  lemma LaneForExactly(p: Packet)
    ensures LaneFor(p) == 0 <==> Tag.Control in p.tags
    ensures LaneFor(p) == 1 <==> Tag.Control !in p.tags && Tag.Interactive in p.tags
    ensures LaneFor(p) == 2 <==> p.tags * {Tag.Control, Tag.Interactive} == {}
  {
    assert Tag.Control in p.tags * {Tag.Control, Tag.Interactive} <==> Tag.Control in p.tags;
    assert Tag.Interactive in p.tags * {Tag.Control, Tag.Interactive} <==> Tag.Interactive in p.tags;
  }

  const NO_PACKETS: Lanes<Packet> := [[], [], []]

  class NodeQueue {
    var control: seq<Packet>
    var interactive: seq<Packet>
    var bulk: seq<Packet>
    const capacity: nat

    ghost function Contents(): Lanes<Packet>
      reads this
    {
      [control, interactive, bulk]
    }

    ghost predicate Valid()
      reads this
    {
      1 <= capacity && |control| <= capacity && |interactive| <= capacity && |bulk| <= capacity
    }

    constructor (capacity: nat)
      requires capacity >= 1
      ensures Valid() && this.capacity == capacity && Contents() == NO_PACKETS
    {
      this.capacity := capacity;
      control, interactive, bulk := [], [], [];
    }

    /** Refuses exactly when the packet's own lane is full. */
    method TrySend(p: Packet) returns (ok: bool)
      requires Valid()
      modifies this
      ensures Valid()
      ensures ok == (|old(Contents())[LaneFor(p)]| < capacity)
      ensures Contents() == if ok then Push(old(Contents()), LaneFor(p), p) else old(Contents())
    {
      if Tag.Control in p.tags {
        ok := |control| < capacity;
        if ok { control := control + [p]; }
      } else if Tag.Interactive in p.tags {
        ok := |interactive| < capacity;
        if ok { interactive := interactive + [p]; }
      } else {
        ok := |bulk| < capacity;
        if ok { bulk := bulk + [p]; }
      }
    }

    method TryRecvPrioritized() returns (r: Option<Packet>)
      requires Valid()
      modifies this
      ensures Valid()
      ensures (r, Contents()) == Pop(old(Contents()))
    {
      PopThree(control, interactive, bulk);
      if control != [] {
        r, control := Some(control[0]), control[1..];
      } else if interactive != [] {
        r, interactive := Some(interactive[0]), interactive[1..];
      } else if bulk != [] {
        r, bulk := Some(bulk[0]), bulk[1..];
      } else {
        r := None;
      }
    }

    /**
     One poll of the awaiting receive. With a live sender it waits while everything is empty and
     otherwise takes what `TryRecvPrioritized` takes. Once every sender is gone, an empty control
     lane answers for the whole queue: the poll is ready with nothing even when lower lanes hold
     packets.
     */
    method PollRecv(live: bool) returns (r: Poll<Option<Packet>>)
      requires Valid()
      modifies this
      ensures Valid()
      ensures (r, Contents()) == Polled(old(Contents()), live)
    {
      PopThree(control, interactive, bulk);
      if control != [] {
        r, control := Ready(Some(control[0])), control[1..];
      } else if !live {
        r := Ready(None);
      } else if interactive != [] {
        r, interactive := Ready(Some(interactive[0])), interactive[1..];
      } else if bulk != [] {
        r, bulk := Ready(Some(bulk[0])), bulk[1..];
      } else {
        r := Pending;
      }
    }

    method Len() returns (n: nat)
      requires Valid()
      ensures n == Depth(Contents())
    {
      n := |control| + |interactive| + |bulk|;
      FlattenThree(Contents());
    }

    method Drain() returns (drained: seq<Packet>)
      requires Valid()
      modifies this
      ensures Valid()
      ensures drained == Flatten(old(Contents()))
      ensures Contents() == NO_PACKETS
    {
      drained := [];
      while control != []
        invariant drained + control == old(control)
        invariant Valid() && interactive == old(interactive) && bulk == old(bulk)
        decreases |control|
      {
        drained, control := drained + [control[0]], control[1..];
      }
      while interactive != []
        invariant control == [] && drained + interactive == old(control) + old(interactive)
        invariant Valid() && bulk == old(bulk)
        decreases |interactive|
      {
        drained, interactive := drained + [interactive[0]], interactive[1..];
      }
      while bulk != []
        invariant control == interactive == []
        invariant Valid() && drained + bulk == old(control) + old(interactive) + old(bulk)
        decreases |bulk|
      {
        drained, bulk := drained + [bulk[0]], bulk[1..];
      }
      FlattenThree(old(Contents()));
    }
  }

  lemma FlattenThree(lanes: Lanes<Packet>)
    requires |lanes| == 3
    ensures Flatten(lanes) == lanes[0] + lanes[1] + lanes[2]
  {
    var r1, r2 := lanes[1..], lanes[2..];
    assert r1[0] == lanes[1] && r1[1..] == r2 && r2[0] == lanes[2] && r2[1..] == [];
    assert Flatten(r2) == lanes[2] + Flatten(r2[1..]) == lanes[2];
  }

  lemma PopThree(a: seq<Packet>, b: seq<Packet>, c: seq<Packet>)
    ensures Pop([a, b, c]) ==
            if a != [] then (Some(a[0]), [a[1..], b, c])
            else if b != [] then (Some(b[0]), [a, b[1..], c])
            else if c != [] then (Some(c[0]), [a, b, c[1..]])
            else (None, [a, b, c])
    ensures AllEmpty([a, b, c]) <==> a == b == c == []
  {
    var s := [a, b, c];
    assert s[1..] == [b, c] && s[1..][1..] == [c];
    var l := FirstNonEmpty(s);
    if c == [] { assert s[2] == []; }
    assert s[0] == a && s[1] == b && s[2] == c;
    if l < 3 {
      var t := s[l := s[l][1..]];
      assert t == [t[0], t[1], t[2]];
    }
  }

  /** A packet sent to an empty queue is the one received next, and the queue is empty again. */
  lemma SendThenReceive(p: Packet)
    ensures Pop(Push(NO_PACKETS, LaneFor(p), p)) == (Some(p), NO_PACKETS)
  {
    var lanes := Push(NO_PACKETS, LaneFor(p), p);
    assert [] + [p] == [p] && [p][1..] == [];
    assert lanes == [lanes[0], lanes[1], lanes[2]];
    PopThree(lanes[0], lanes[1], lanes[2]);
  }

  /**
   Every packet but a control packet can be hidden: alone in a closed queue, it is waiting, and the
   receiver is told that there is nothing left.
   */
  lemma ClosedQueueHides(p: Packet)
    requires LaneFor(p) != CONTROL
    ensures var lanes := Push(NO_PACKETS, LaneFor(p), p);
            && Flatten(lanes) == [p] && Polled(lanes, false) == (Ready(None), lanes)
            && ReceiveToEnd(lanes) == ([], lanes)
  {
    var lanes := Push(NO_PACKETS, LaneFor(p), p);
    FlattenThree(lanes);
    ClosedDeliversFirstLane(lanes);
  }
}
