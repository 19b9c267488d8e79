/** Depth-first cycle detection over an adjacency index, skipping allow-listed edges. */
module CycleSearch {
  import opened Wrappers
  import opened Packets
  import opened Digraphs
  import opened Listings

  type Adjacency = map<NodeId, seq<NodeId>>

  /** The edge relation of an adjacency index. */
  function IndexLinks(adjacency: Adjacency): set<(NodeId, NodeId)> {
    set n, t | n in adjacency && t in adjacency[n] :: (n, t)
  }

  /** Every listed target has a list of its own. */
  ghost predicate TargetsIndexed(adjacency: Adjacency) {
    forall n, t :: n in adjacency && t in adjacency[n] ==> t in adjacency
  }

  datatype DfsMark = Visiting | Visited

  class Search {
    const adjacency: Adjacency
    const allowed: set<(NodeId, NodeId)>
    var marks: map<NodeId, DfsMark>
    var stack: seq<NodeId>
    /** The visited nodes in the order their visits ended. */
    ghost var finished: seq<NodeId>

    ghost function Checked(): set<(NodeId, NodeId)> {
      IndexLinks(adjacency) - allowed
    }

    ghost predicate Valid()
      reads this
    {
      && TargetsIndexed(adjacency)
      && marks.Keys <= adjacency.Keys
      && (forall n :: n in stack <==> n in marks && marks[n] == Visiting)
      && (forall n :: n in finished <==> n in marks && marks[n] == Visited)
      && (stack != [] ==> IsWalk(Checked(), stack))
      && Distinct(finished)
      && SuccessorsFirst(Checked(), finished)
    }

    constructor (adjacency: Adjacency, allowed: set<(NodeId, NodeId)>)
      requires TargetsIndexed(adjacency)
      ensures Valid() && marks == map[] && stack == []
      ensures this.adjacency == adjacency && this.allowed == allowed
    {
      this.adjacency, this.allowed := adjacency, allowed;
      marks, stack, finished := map[], [], [];
    }

    /** What a visit that found no cycle leaves behind. */
    twostate predicate Extended()
      reads this
    {
      Valid() && stack == old(stack) && old(marks).Keys <= marks.Keys
      && forall n :: n in old(finished) ==> n in finished
    }

    /** Visit `node` and everything below it that has not been visited. */
    method Visit(node: NodeId) returns (cycle: Option<seq<NodeId>>)
      requires Valid() && node in adjacency && node !in marks
      requires stack != [] ==> (stack[|stack| - 1], node) in Checked()
      modifies this
      ensures cycle.Some? ==> IsCycle(Checked(), cycle.value)
      ensures cycle.None? ==> Extended() && node in finished
      decreases adjacency.Keys - marks.Keys, 0
    {
      ghost var above := stack;
      Enter(node);
      var neighbors := adjacency[node];
      var i := 0;
      while i < |neighbors|
        invariant i <= |neighbors|
        invariant Valid() && stack == above + [node]
        invariant old(marks).Keys + {node} <= marks.Keys
        invariant forall n :: n in old(finished) ==> n in finished
        invariant forall j :: 0 <= j < i ==> (node, neighbors[j]) in allowed || neighbors[j] in finished
      {
        var next := neighbors[i];
        if (node, next) !in allowed {
          assert (node, next) in Checked();
          cycle := Follow(next);
          if cycle.Some? { return; }
        }
        i := i + 1;
      }
      Finish(node, above);
      cycle := None;
    }

    method Enter(node: NodeId)
      requires Valid() && node in adjacency && node !in marks
      requires stack != [] ==> (stack[|stack| - 1], node) in Checked()
      modifies this
      ensures Valid() && stack == old(stack) + [node] && node !in old(stack)
      ensures marks == old(marks)[node := Visiting] && finished == old(finished)
    {
      assert node !in stack && node !in finished;
      if stack != [] { WalkJoin(Checked(), stack, [stack[|stack| - 1], node]); }
      assert stack != [] ==> stack + [stack[|stack| - 1], node][1..] == stack + [node];
      marks := marks[node := Visiting];
      stack := stack + [node];
    }

    /** Follow one edge out of the node on top of the stack. */
    method Follow(next: NodeId) returns (cycle: Option<seq<NodeId>>)
      requires Valid() && stack != [] && (stack[|stack| - 1], next) in Checked()
      modifies this
      ensures cycle.Some? ==> IsCycle(Checked(), cycle.value)
      ensures cycle.None? ==> Extended() && next in finished
      decreases adjacency.Keys - marks.Keys, 1
    {
      if next !in marks {
        cycle := Visit(next);
      } else if marks[next] == Visiting {
        cycle := Some(CloseCycle(next));
      } else {
        cycle := None;
      }
    }

    /** The part of the stack from `next` on, closed by `next` itself. */
    function CloseCycle(next: NodeId): (cycle: seq<NodeId>)
      requires Valid() && next in stack
      requires (stack[|stack| - 1], next) in Checked()
      reads this
      ensures IsCycle(Checked(), cycle)
    {
      var p := IndexOf(stack, next);
      WalkSlice(Checked(), stack, p, |stack|);
      WalkJoin(Checked(), stack[p..], [stack[|stack| - 1], next]);
      assert stack[p..] + [next] == stack[p..] + [stack[|stack| - 1], next][1..];
      stack[p..] + [next]
    }

    method Finish(node: NodeId, ghost above: seq<NodeId>)
      requires Valid() && stack == above + [node] && node !in above && node in adjacency
      requires forall t :: t in adjacency[node] ==> (node, t) in allowed || t in finished
      modifies this
      ensures Valid() && stack == above && marks == old(marks)[node := Visited]
      ensures finished == old(finished) + [node]
    {
      if |above| > 0 { WalkSlice(Checked(), stack, 0, |above|); }
      stack := stack[..|stack| - 1];
      marks := marks[node := Visited];
      assert node !in finished;
      SuccessorsFirstSnoc(Checked(), finished, node);
      finished := finished + [node];
    }

    /**
     Search from every node in turn. The outcome is a real cycle of edges outside the allow-list,
     or the certainty that there is none.
     */
    method Run() returns (cycle: Option<seq<NodeId>>)
      requires Valid() && marks == map[] && stack == []
      modifies this
      ensures cycle.Some? ==> IsCycle(Checked(), cycle.value)
      ensures cycle.None? <==> Acyclic(Checked())
    {
      var rest := adjacency.Keys;
      while rest != {}
        invariant Valid() && stack == []
        invariant rest <= adjacency.Keys
        invariant forall n :: n in adjacency && n !in rest ==> n in finished
        decreases rest
      {
        var start :| start in rest;
        rest := rest - {start};
        if start !in marks {
          cycle := Visit(start);
          if cycle.Some? {
            CycleFree(Checked());
            return;
          }
        } else {
          assert marks[start] == Visited by { assert start !in stack; }
        }
      }
      OrderedAcyclic(Checked(), finished);
      cycle := None;
    }
  }
}
