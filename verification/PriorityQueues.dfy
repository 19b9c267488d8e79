/** Task priorities and the five-lane queue that hands work out in their order. */
module PriorityQueues {
  import opened Wrappers
  import opened Packets
  import opened LaneQueues
  import NodeQueues

  datatype TaskPriority = Realtime | High | Normal | Low | Background
  {
    /** The discriminant: position in declaration order, smaller runs first. */
    function Rank(): (r: nat)
      ensures r < 5
    {
      match this
      case Realtime => 0
      case High => 1
      case Normal => 2
      case Low => 3
      case Background => 4
    }
  }

  function FromTags(tags: set<Tag>): TaskPriority {
    if tags * {Tag.Control, Tag.Handshake, Tag.Rekey} != {} then Realtime
    else if Tag.Interactive in tags then High
    else Normal
  }

  /** Control, handshake and rekey traffic is real-time; of the rest interactive is high and all else normal. */
  lemma FromTagsExactly(tags: set<Tag>)
    ensures FromTags(tags) == Realtime <==> Tag.Control in tags || Tag.Handshake in tags || Tag.Rekey in tags
    ensures FromTags(tags) == High <==>
            Tag.Interactive in tags && Tag.Control !in tags && Tag.Handshake !in tags && Tag.Rekey !in tags
    ensures FromTags(tags) in {Realtime, High, Normal}
  {
    var urgent := tags * {Tag.Control, Tag.Handshake, Tag.Rekey};
    assert Tag.Control in urgent <==> Tag.Control in tags;
    assert Tag.Handshake in urgent <==> Tag.Handshake in tags;
    assert Tag.Rekey in urgent <==> Tag.Rekey in tags;
  }

  /** The lanes of the five priorities, from the first served to the last. */
  lemma RanksInOrder()
    ensures Realtime.Rank() < High.Rank() < Normal.Rank() < Low.Rank() < Background.Rank()
  {
  }

  /**
   A packet's queue lane and its task priority agree exactly when it is not a handshake or rekey
   packet lacking the control tag.
   */
  lemma LaneAgreesWithPriority(p: Packet)
    ensures NodeQueues.LaneFor(p) == FromTags(p.tags).Rank()
            <==> (Tag.Control in p.tags || (Tag.Handshake !in p.tags && Tag.Rekey !in p.tags))
  {
    var urgent := p.tags * {Tag.Control, Tag.Handshake, Tag.Rekey};
    assert urgent == {} <==> Tag.Control !in p.tags && Tag.Handshake !in p.tags && Tag.Rekey !in p.tags by {
      assert Tag.Control in urgent <==> Tag.Control in p.tags;
      assert Tag.Handshake in urgent <==> Tag.Handshake in p.tags;
      assert Tag.Rekey in urgent <==> Tag.Rekey in p.tags;
    }
  }

  class PriorityQueue<T> {
    var lanes: Lanes<T>
    const capacity: nat

    ghost predicate Valid()
      reads this
    {
      capacity >= 1 && |lanes| == 5 && forall l :: 0 <= l < 5 ==> |lanes[l]| <= capacity
    }

    constructor (capacity: nat)
      requires capacity >= 1
      ensures Valid() && this.capacity == capacity && AllEmpty(lanes)
    {
      this.capacity := capacity;
      lanes := [[], [], [], [], []];
    }

    method TrySend(priority: TaskPriority, item: T) returns (ok: bool)
      requires Valid()
      modifies this
      ensures Valid()
      ensures ok == (|old(lanes)[priority.Rank()]| < capacity)
      ensures lanes == if ok then Push(old(lanes), priority.Rank(), item) else old(lanes)
    {
      var l := priority.Rank();
      ok := |lanes[l]| < capacity;
      if ok { lanes := lanes[l := lanes[l] + [item]]; }
    }

    /**
     One poll of the awaiting receive; as for a node's queue, once every sender is gone an empty
     top lane answers for all five.
     */
    method PollRecv(live: bool) returns (r: Poll<Option<T>>)
      requires Valid()
      modifies this
      ensures Valid()
      ensures (r, lanes) == Polled(old(lanes), live)
    {
      var l := FirstNonEmpty(lanes);
      if !live && l > 0 {
        r := Ready(None);
      } else if l < 5 {
        r := Ready(Some(lanes[l][0]));
        lanes := lanes[l := lanes[l][1..]];
      } else {
        r := Pending;
      }
    }

    method Drain() returns (drained: seq<T>)
      requires Valid()
      modifies this
      ensures Valid()
      ensures drained == Flatten(old(lanes))
      ensures AllEmpty(lanes)
    {
      drained := [];
      var l := 0;
      while l < 5
        invariant l <= 5 && Valid()
        invariant forall k :: 0 <= k < l ==> lanes[k] == []
        invariant lanes[l..] == old(lanes)[l..]
        invariant Flatten(old(lanes)) == drained + Flatten(old(lanes)[l..])
      {
        ghost var before := drained;
        while lanes[l] != []
          invariant Valid()
          invariant forall k :: 0 <= k < l ==> lanes[k] == []
          invariant lanes[l + 1..] == old(lanes)[l + 1..]
          invariant drained + lanes[l] == before + old(lanes)[l]
          decreases |lanes[l]|
        {
          drained := drained + [lanes[l][0]];
          lanes := lanes[l := lanes[l][1..]];
        }
        assert old(lanes)[l..][1..] == old(lanes)[l + 1..];
        assert drained == before + old(lanes)[l] == drained + lanes[l];
        l := l + 1;
      }
    }
  }
}
