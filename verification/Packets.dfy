/** Packets, their tags, and the conditions edges test them with. */
module Packets {
  type NodeId = nat

  newtype Byte = x: int | 0 <= x < 0x100

  datatype Tag =
    | Interactive | Bulk | Control | Diagnostic
    | Handshake | Heartbeat | Rekey | Shutdown
    | Roaming | Fallback | Retransmit | Fragment | LastFragment
    | HighPriority | LowPriority
    | FlowStart | FlowEnd | LocalOnly

  datatype Packet = Packet(
    id: nat,
    payload: seq<Byte>,
    tags: set<Tag>,
    priority: Byte,
    traced: bool,
    trace: seq<NodeId>)
  {
    /** Append a hop to the trace of a packet that opted into tracing. */
    function RecordHop(node: NodeId): Packet {
      if traced then this.(trace := trace + [node]) else this
    }
  }

  datatype Condition =
    | HasTag(tag: Tag)
    | TagsIntersect(mask: set<Tag>)
    | PriorityAtLeast(min: Byte)
    | Not(inner: Condition)
    | All(conditions: seq<Condition>)
    | Any(conditions: seq<Condition>)
  {
    predicate Evaluate(p: Packet) {
      match this
      case HasTag(tag) => tag in p.tags
      case TagsIntersect(mask) => p.tags * mask != {}
      case PriorityAtLeast(min) => p.priority >= min
      case Not(inner) => !inner.Evaluate(p)
      case All(conditions) => forall c | c in conditions :: c.Evaluate(p)
      case Any(conditions) => exists c | c in conditions :: c.Evaluate(p)
    }
  }

  // ----- What conditions mean ----------------------------------------------

  /** A test of one tag is a test of the mask of that tag, and masks accept what any of their parts does. */
  lemma TagsAreMasks(tag: Tag, a: set<Tag>, b: set<Tag>, p: Packet)
    ensures HasTag(tag).Evaluate(p) <==> TagsIntersect({tag}).Evaluate(p)
    ensures HasTag(tag).Evaluate(p) <==> tag in p.tags
    ensures TagsIntersect(a + b).Evaluate(p) <==> TagsIntersect(a).Evaluate(p) || TagsIntersect(b).Evaluate(p)
    ensures !TagsIntersect({}).Evaluate(p)
  {
    assert (p.tags * {tag} != {}) <==> tag in p.tags * {tag};
    assert p.tags * (a + b) == p.tags * a + p.tags * b;
  }

  /** The least priority accepted is the one named, and everything above it is. */
  lemma PriorityIsLeast(min: Byte, p: Packet, q: Packet)
    ensures p.priority == min ==> PriorityAtLeast(min).Evaluate(p)
    ensures p.priority < min ==> !PriorityAtLeast(min).Evaluate(p)
    ensures p.priority <= q.priority && PriorityAtLeast(min).Evaluate(p) ==> PriorityAtLeast(min).Evaluate(q)
  {
  }

  function Negated(conditions: seq<Condition>): seq<Condition> {
    seq(|conditions|, i requires 0 <= i < |conditions| => Not(conditions[i]))
  }

  lemma NegatedMembers(conditions: seq<Condition>, p: Packet)
    ensures All(conditions).Evaluate(p) <==> !Any(Negated(conditions)).Evaluate(p)
  {
    var negated := Negated(conditions);
    if d :| d in conditions && !d.Evaluate(p) {
      var i :| 0 <= i < |conditions| && conditions[i] == d;
      assert negated[i] == Not(d) && Not(d) in negated && Not(d).Evaluate(p);
    }
    if d :| d in negated && d.Evaluate(p) {
      var i :| 0 <= i < |negated| && negated[i] == d;
      assert conditions[i] in conditions;
    }
  }

  lemma OneMoreMember(c: Condition, conditions: seq<Condition>, p: Packet)
    ensures All(conditions + [c]).Evaluate(p) <==> All(conditions).Evaluate(p) && c.Evaluate(p)
    ensures Any(conditions + [c]).Evaluate(p) <==> Any(conditions).Evaluate(p) || c.Evaluate(p)
  {
    var more := conditions + [c];
    forall x ensures x in more <==> x in conditions || x == c {
      if x == c { assert more[|conditions|] == c; }
    }
  }

  /** The connectives are the Boolean ones: empty, one more member, and exchanged by negation. */
  lemma ConnectivesAreBoolean(c: Condition, conditions: seq<Condition>, p: Packet)
    ensures Not(c).Evaluate(p) <==> !c.Evaluate(p)
    ensures All([]).Evaluate(p) && !Any([]).Evaluate(p)
    ensures All(conditions + [c]).Evaluate(p) <==> All(conditions).Evaluate(p) && c.Evaluate(p)
    ensures Any(conditions + [c]).Evaluate(p) <==> Any(conditions).Evaluate(p) || c.Evaluate(p)
    ensures All(conditions).Evaluate(p) <==> !Any(Negated(conditions)).Evaluate(p)
  {
    OneMoreMember(c, conditions, p);
    NegatedMembers(conditions, p);
  }

  /** Only tags and priority count. */
  lemma {:induction false} OnlyTagsAndPriorityCount(c: Condition, p: Packet, q: Packet)
    requires p.tags == q.tags && p.priority == q.priority
    ensures c.Evaluate(p) == c.Evaluate(q)
    decreases c
  {
    match c
    case Not(inner) => OnlyTagsAndPriorityCount(inner, p, q);
    case All(conditions) =>
      forall d | d in conditions ensures d.Evaluate(p) == d.Evaluate(q) { OnlyTagsAndPriorityCount(d, p, q); }
    case Any(conditions) =>
      forall d | d in conditions ensures d.Evaluate(p) == d.Evaluate(q) { OnlyTagsAndPriorityCount(d, p, q); }
    case _ =>
  }
}
