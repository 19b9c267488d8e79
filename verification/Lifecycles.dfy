/** Bringing every node of a graph up before the first packet, and down after the last. */
module Lifecycles {
  import opened Wrappers
  import opened Packets
  import opened Modules
  import opened Digraphs
  import opened Listings
  import opened LaneQueues
  import opened NodeQueues
  import opened FlowGraphs
  import opened Walks
  import opened SequentialExecution

  function InitError(m: Module): Option<ModuleError> {
    if m.exclusive then m.initResult else Some(NotExclusivelyOwned(m.name))
  }

  function ShutdownError(m: Module): Option<ModuleError> {
    if m.exclusive then m.shutdownResult else Some(NotExclusivelyOwned(m.name))
  }

  /** The modules of `order`, up to and including the first that fails. */
  function Attempted(modules: map<NodeId, Module>, order: seq<NodeId>): seq<NodeId>
    requires forall n :: n in order ==> n in modules
  {
    if order == [] then []
    else if InitError(modules[order[0]]).Some? then [order[0]]
    else [order[0]] + Attempted(modules, order[1..])
  }

  function FirstInitError(modules: map<NodeId, Module>, order: seq<NodeId>): Option<ModuleError>
    requires forall n :: n in order ==> n in modules
  {
    if order == [] then None
    else if InitError(modules[order[0]]).Some? then InitError(modules[order[0]])
    else FirstInitError(modules, order[1..])
  }

  function FirstShutdownError(modules: map<NodeId, Module>, order: seq<NodeId>): Option<ModuleError>
    requires forall n :: n in order ==> n in modules
  {
    if order == [] then None
    else if ShutdownError(modules[order[0]]).Some? then ShutdownError(modules[order[0]])
    else FirstShutdownError(modules, order[1..])
  }

  /** The attempts are a prefix of the order; all but the last came up, and the last too if none failed. */
  lemma {:induction false} AttemptedPrefix(modules: map<NodeId, Module>, order: seq<NodeId>)
    requires forall n :: n in order ==> n in modules
    ensures Attempted(modules, order) <= order
    ensures FirstInitError(modules, order).None? <==> (forall n :: n in order ==> InitError(modules[n]).None?)
    ensures FirstInitError(modules, order).None? ==> Attempted(modules, order) == order
    ensures FirstInitError(modules, order).Some? ==>
              var a := Attempted(modules, order);
              && a != [] && InitError(modules[a[|a| - 1]]) == FirstInitError(modules, order)
              && forall n :: n in a[..|a| - 1] ==> InitError(modules[n]).None?
  {
    if order != [] && InitError(modules[order[0]]).None? {
      AttemptedPrefix(modules, order[1..]);
      var a, rest := Attempted(modules, order), Attempted(modules, order[1..]);
      assert order == [order[0]] + order[1..];
      if FirstInitError(modules, order).Some? {
        assert a[..|a| - 1] == [order[0]] + rest[..|rest| - 1];
      }
    }
  }

  /** Every module shuts down without an error. */
  predicate AllStop(modules: map<NodeId, Module>) { forall n :: n in modules ==> ShutdownError(modules[n]).None? }

  lemma {:induction false} NoShutdownError(modules: map<NodeId, Module>, order: seq<NodeId>)
    requires forall n :: n in order ==> n in modules
    ensures FirstShutdownError(modules, order).None? <==> forall n :: n in order ==> ShutdownError(modules[n]).None?
  {
    if order != [] { NoShutdownError(modules, order[1..]); }
  }

  lemma {:induction false} FirstErrorsSnoc(modules: map<NodeId, Module>, order: seq<NodeId>, n: NodeId)
    requires n in modules && forall k :: k in order ==> k in modules
    ensures FirstInitError(modules, order + [n]) ==
            if FirstInitError(modules, order).Some? then FirstInitError(modules, order) else InitError(modules[n])
    ensures FirstInitError(modules, order).None? ==> Attempted(modules, order + [n]) == order + [n]
    ensures FirstShutdownError(modules, order + [n]) ==
            if FirstShutdownError(modules, order).Some? then FirstShutdownError(modules, order)
            else ShutdownError(modules[n])
  {
    var longer := order + [n];
    if order == [] {
      assert longer == [n] && longer[1..] == [];
    } else {
      assert longer[0] == order[0] && longer[1..] == order[1..] + [n];
      FirstErrorsSnoc(modules, order[1..], n);
    }
  }

  /** A listing that begins with `done` has all of `done`'s failures first. */
  lemma {:induction false} AttemptedAppend(modules: map<NodeId, Module>, done: seq<NodeId>, rest: seq<NodeId>)
    requires forall n :: n in done + rest ==> n in modules
    requires FirstInitError(modules, done).Some?
    ensures Attempted(modules, done + rest) == Attempted(modules, done)
    ensures FirstInitError(modules, done + rest) == FirstInitError(modules, done)
  {
    var all := done + rest;
    assert all[0] == done[0] && all[1..] == done[1..] + rest;
    if InitError(modules[done[0]]).None? { AttemptedAppend(modules, done[1..], rest); }
  }

  // ----- What the graph looks like ----------------------------------------

  type States = map<NodeId, NodeState>

  ghost function ModulesOf(g: FlowGraph): map<NodeId, Module>
    reads g
  {
    ModulesIn(g.nodes)
  }

  ghost function StatesOf(g: FlowGraph): States
    reads g, g.nodes.Values
  {
    map n | n in g.nodes :: g.nodes[n].state
  }

  /** Set each of `ids` to what `next` says. */
  function Marked<V>(m: map<NodeId, V>, ids: seq<NodeId>, next: map<NodeId, V>): map<NodeId, V> {
    if ids == [] then m
    else
      var last := |ids| - 1;
      var r := Marked(m, ids[..last], next);
      if ids[last] in next then r[ids[last] := next[ids[last]]] else r
  }

  lemma {:induction false} MarkedAt<V>(m: map<NodeId, V>, ids: seq<NodeId>, next: map<NodeId, V>)
    ensures var r := Marked(m, ids, next);
            && (forall n :: n in ids && n in next ==> n in r && r[n] == next[n])
            && (forall n :: n !in ids ==> (n in r <==> n in m) && (n in m ==> r[n] == m[n]))
            && r.Keys <= m.Keys + next.Keys
  {
    if ids != [] {
      var last := |ids| - 1;
      assert ids == ids[..last] + [ids[last]];
      MarkedAt(m, ids[..last], next);
    }
  }

  lemma MarkedSnoc<V>(m: map<NodeId, V>, ids: seq<NodeId>, next: map<NodeId, V>, i: nat)
    requires i < |ids| && ids[i] in next
    ensures Marked(m, ids[..i + 1], next) == Marked(m, ids[..i], next)[ids[i] := next[ids[i]]]
  {
    assert ids[..i + 1][..i] == ids[..i];
  }

  function StatesUp(modules: map<NodeId, Module>): States {
    map n | n in modules :: if InitError(modules[n]).None? then Running else Initializing
  }

  function StatesDown(modules: map<NodeId, Module>): States {
    map n | n in modules :: if ShutdownError(modules[n]).None? then Stopped else Stopping
  }

  // ----- The operations ---------------------------------------------------

  method InitializeAt(g: FlowGraph, n: NodeId) returns (error: Option<ModuleError>)
    requires Usable(g) && n in g.nodes
    modifies g.nodes[n]
    ensures Usable(g) && ModulesOf(g) == old(ModulesOf(g)) && LogsOf(g) == old(LogsOf(g))
    ensures error == InitError(ModulesOf(g)[n])
    ensures StatesOf(g) == old(StatesOf(g))[n := StatesUp(ModulesOf(g))[n]]
  {
    error := g.nodes[n].Initialize();
    UpdatedAt(old(StatesOf(g)), StatesOf(g), n);
  }

  method DrainAt(g: FlowGraph, n: NodeId) returns (leftover: seq<Packet>)
    requires Usable(g) && n in g.nodes
    modifies g.nodes[n].queue
    ensures Usable(g) && ModulesOf(g) == old(ModulesOf(g))
    ensures LogsOf(g) == old(LogsOf(g)) && StatesOf(g) == old(StatesOf(g))
    ensures leftover == Flatten(old(QueuesOf(g))[n]) && QueuesOf(g) == old(QueuesOf(g))[n := NO_PACKETS]
  {
    leftover := g.nodes[n].queue.Drain();
    UpdatedAt(old(QueuesOf(g)), QueuesOf(g), n);
  }

  method StopAt(g: FlowGraph, n: NodeId) returns (error: Option<ModuleError>)
    requires Usable(g) && n in g.nodes
    modifies g.nodes[n]
    ensures Usable(g) && ModulesOf(g) == old(ModulesOf(g))
    ensures LogsOf(g) == old(LogsOf(g)) && QueuesOf(g) == old(QueuesOf(g))
    ensures error == ShutdownError(ModulesOf(g)[n])
    ensures StatesOf(g) == old(StatesOf(g))[n := StatesDown(ModulesOf(g))[n]]
  {
    error := g.nodes[n].Shutdown();
    UpdatedAt(old(StatesOf(g)), StatesOf(g), n);
  }

  /** Drain a node's queue, then shut it down. */
  method ShutdownAt(g: FlowGraph, n: NodeId) returns (error: Option<ModuleError>, leftover: seq<Packet>)
    requires Usable(g) && n in g.nodes
    modifies g.nodes[n], g.nodes[n].queue
    ensures Usable(g) && ModulesOf(g) == old(ModulesOf(g)) && LogsOf(g) == old(LogsOf(g))
    ensures error == ShutdownError(ModulesOf(g)[n]) && leftover == Flatten(old(QueuesOf(g))[n])
    ensures StatesOf(g) == old(StatesOf(g))[n := StatesDown(ModulesOf(g))[n]]
    ensures QueuesOf(g) == old(QueuesOf(g))[n := NO_PACKETS]
  {
    leftover := DrainAt(g, n);
    ghost var modules, logs, states, queues := ModulesOf(g), LogsOf(g), StatesOf(g), QueuesOf(g);
    error := StopAt(g, n);
    assert ModulesOf(g) == modules && LogsOf(g) == logs && QueuesOf(g) == queues;
    assert StatesOf(g) == states[n := StatesDown(modules)[n]];
  }

  predicate Within(order: seq<NodeId>, ids: set<NodeId>) { forall n :: n in order ==> n in ids }

  predicate NewAt(order: seq<NodeId>, i: nat)
    requires i < |order|
  {
    order[i] !in order[..i]
  }

  function Report(error: Option<ModuleError>): Result<(), ModuleError> {
    if error.None? then Ok(()) else Err(error.value)
  }

  /** The first `i` nodes of an order have come up. */
  ghost predicate UpTo(modules: map<NodeId, Module>, start: States, order: seq<NodeId>, i: nat, now: States) {
    && i <= |order| && Within(order, modules.Keys) && FirstInitError(modules, order[..i]).None?
    && now == Marked(start, order[..i], StatesUp(modules))
  }

  /** What initializing nodes in order reports, and how it leaves them. */
  ghost predicate CameUp(
    modules: map<NodeId, Module>, start: States, order: seq<NodeId>, now: States, r: Result<(), ModuleError>)
  {
    && Within(order, modules.Keys) && r == Report(FirstInitError(modules, order))
    && now == Marked(start, Attempted(modules, order), StatesUp(modules))
  }

  /** Initialize nodes in a given order; the first failure stops it. */
  method InitializeInOrder(g: FlowGraph, order: seq<NodeId>) returns (r: Result<(), ModuleError>)
    requires Usable(g) && Within(order, ModulesOf(g).Keys)
    modifies g.nodes.Values
    ensures Usable(g) && ModulesOf(g) == old(ModulesOf(g)) && LogsOf(g) == old(LogsOf(g))
    ensures CameUp(ModulesOf(g), old(StatesOf(g)), order, StatesOf(g), r)
  {
    ghost var modules, states := ModulesOf(g), StatesOf(g);
    var i := 0;
    while i < |order|
      invariant Usable(g) && ModulesOf(g) == modules && LogsOf(g) == old(LogsOf(g))
      invariant UpTo(modules, states, order, i, StatesOf(g))
    {
      UpToStep(modules, states, order, i, StatesOf(g));
      var error := InitializeAt(g, order[i]);
      if error.Some? { return Err(error.value); }
      i := i + 1;
    }
    AllUp(modules, states, order, StatesOf(g));
    r := Ok(());
  }

  lemma UpToStep(modules: map<NodeId, Module>, start: States, order: seq<NodeId>, i: nat, now: States)
    requires i < |order| && UpTo(modules, start, order, i, now)
    ensures var n := order[i];
            var next := now[n := StatesUp(modules)[n]];
            if InitError(modules[n]).None? then UpTo(modules, start, order, i + 1, next)
            else CameUp(modules, start, order, next, Err(InitError(modules[n]).value))
  {
    AttemptedStep(modules, order, i);
    MarkedSnoc(start, order, StatesUp(modules), i);
  }

  lemma AllUp(modules: map<NodeId, Module>, start: States, order: seq<NodeId>, now: States)
    requires UpTo(modules, start, order, |order|, now)
    ensures CameUp(modules, start, order, now, Ok(()))
  {
    assert order[..|order|] == order;
    AttemptedPrefix(modules, order);
  }

  lemma AttemptedStep(modules: map<NodeId, Module>, order: seq<NodeId>, i: nat)
    requires i < |order| && Within(order, modules.Keys) && FirstInitError(modules, order[..i]).None?
    ensures FirstInitError(modules, order[..i + 1]) == InitError(modules[order[i]])
    ensures InitError(modules[order[i]]).Some? ==>
              && Attempted(modules, order) == order[..i + 1]
              && FirstInitError(modules, order) == InitError(modules[order[i]])
  {
    AttemptedPrefix(modules, order[..i]);
    FirstErrorsSnoc(modules, order[..i], order[i]);
    assert order[..i + 1] == order[..i] + [order[i]];
    if InitError(modules[order[i]]).Some? {
      AttemptedAppend(modules, order[..i + 1], order[i + 1..]);
      assert order == order[..i + 1] + order[i + 1..];
    }
  }

  /** The nodes in whatever order the node map yields them; looking changes nothing. */
  method ListNodes(g: FlowGraph) returns (order: seq<NodeId>)
    requires Usable(g)
    ensures Lists(order, ModulesOf(g).Keys) && LogsOf(g) == old(LogsOf(g))
    ensures QueuesOf(g) == old(QueuesOf(g)) && StatesOf(g) == old(StatesOf(g))
  {
    ghost var logs, queues, states := LogsOf(g), QueuesOf(g), StatesOf(g);
    order := Listing(g.nodes.Keys);
    assert LogsOf(g) == logs && QueuesOf(g) == queues && StatesOf(g) == states;
  }

  /** Initialize every node, in whatever order the node map yields them. */
  method InitializeAll(g: FlowGraph) returns (r: Result<(), ModuleError>, order: seq<NodeId>)
    requires Usable(g)
    modifies g.nodes.Values
    ensures Usable(g) && ModulesOf(g) == old(ModulesOf(g)) && LogsOf(g) == old(LogsOf(g))
    ensures Lists(order, ModulesOf(g).Keys)
    ensures r == Report(FirstInitError(ModulesOf(g), order))
    ensures StatesOf(g) == Marked(old(StatesOf(g)), Attempted(ModulesOf(g), order), StatesUp(ModulesOf(g)))
  {
    order := ListNodes(g);
    r := InitializeInOrder(g, order);
  }

  function Flattened(queues: Queues): map<NodeId, seq<Packet>> { map n | n in queues :: Flatten(queues[n]) }

  function AllEmptied(queues: Queues): Queues { map n | n in queues :: NO_PACKETS }

  /** Shut nodes down in a given order, whatever happens to the others. */
  method ShutdownInOrder(g: FlowGraph, order: seq<NodeId>)
    returns (r: Result<(), ModuleError>, discarded: map<NodeId, seq<Packet>>)
    requires Usable(g) && Within(order, ModulesOf(g).Keys)
    requires forall i :: 0 <= i < |order| ==> NewAt(order, i)
    modifies g.nodes.Values, NodeQueuesOf(g)
    ensures Usable(g) && ModulesOf(g) == old(ModulesOf(g)) && LogsOf(g) == old(LogsOf(g))
    ensures r == Report(FirstShutdownError(ModulesOf(g), order))
    ensures discarded == Marked(map[], order, Flattened(old(QueuesOf(g))))
    ensures StatesOf(g) == Marked(old(StatesOf(g)), order, StatesDown(ModulesOf(g)))
    ensures QueuesOf(g) == Marked(old(QueuesOf(g)), order, AllEmptied(old(QueuesOf(g))))
  {
    ghost var modules, queues, states := ModulesOf(g), QueuesOf(g), StatesOf(g);
    var i, firstError := 0, None;
    discarded := map[];
    while i < |order|
      invariant Usable(g) && ModulesOf(g) == modules && LogsOf(g) == old(LogsOf(g))
      invariant DownTo(modules, states, queues, order, i, firstError, discarded, StatesOf(g), QueuesOf(g))
    {
      DownToStep(modules, states, queues, order, i, firstError, discarded, StatesOf(g), QueuesOf(g));
      var error, leftover := ShutdownAt(g, order[i]);
      discarded := discarded[order[i] := leftover];
      if firstError.None? { firstError := error; }
      i := i + 1;
    }
    assert order[..i] == order;
    r := Report(firstError);
  }

  /** The first `i` nodes of an order have been shut down. */
  ghost predicate DownTo(
    modules: map<NodeId, Module>, states: States, queues: Queues, order: seq<NodeId>, i: nat,
    firstError: Option<ModuleError>, discarded: map<NodeId, seq<Packet>>, states': States, queues': Queues)
  {
    && i <= |order| && Within(order, modules.Keys) && firstError == FirstShutdownError(modules, order[..i])
    && discarded == Marked(map[], order[..i], Flattened(queues))
    && states' == Marked(states, order[..i], StatesDown(modules))
    && queues' == Marked(queues, order[..i], AllEmptied(queues))
  }

  lemma DownToStep(
    modules: map<NodeId, Module>, states: States, queues: Queues, order: seq<NodeId>, i: nat,
    firstError: Option<ModuleError>, discarded: map<NodeId, seq<Packet>>, states': States, queues': Queues)
    requires i < |order| && NewAt(order, i) && order[i] in queues
    requires DownTo(modules, states, queues, order, i, firstError, discarded, states', queues')
    ensures var n := order[i];
            var next := if firstError.None? then ShutdownError(modules[n]) else firstError;
            n in queues' &&
            DownTo(modules, states, queues, order, i + 1, next, discarded[n := Flatten(queues'[n])],
                   states'[n := StatesDown(modules)[n]], queues'[n := NO_PACKETS])
  {
    ShutdownErrorStep(modules, order, i);
    MarkedSnoc(map[], order, Flattened(queues), i);
    MarkedSnoc(states, order, StatesDown(modules), i);
    MarkedSnoc(queues, order, AllEmptied(queues), i);
    StillFull(queues, order, i);
  }

  lemma ShutdownErrorStep(modules: map<NodeId, Module>, order: seq<NodeId>, i: nat)
    requires i < |order| && Within(order, modules.Keys)
    ensures FirstShutdownError(modules, order[..i + 1]) ==
            if FirstShutdownError(modules, order[..i]).Some? then FirstShutdownError(modules, order[..i])
            else ShutdownError(modules[order[i]])
  {
    FirstErrorsSnoc(modules, order[..i], order[i]);
    assert order[..i + 1] == order[..i] + [order[i]];
  }

  lemma StillFull(queues: Queues, order: seq<NodeId>, i: nat)
    requires i < |order| && order[i] in queues && NewAt(order, i)
    ensures var now := Marked(queues, order[..i], AllEmptied(queues));
            order[i] in now && now[order[i]] == queues[order[i]]
  {
    MarkedAt(queues, order[..i], AllEmptied(queues));
  }

  lemma AllNew(order: seq<NodeId>)
    requires Distinct(order)
    ensures forall i :: 0 <= i < |order| ==> NewAt(order, i)
  {
  }

  /** All of a finite map marked is the other map. */
  lemma MarkedAll<V>(m: map<NodeId, V>, order: seq<NodeId>, next: map<NodeId, V>)
    requires m.Keys <= next.Keys && forall n: NodeId :: n in order <==> n in next
    ensures Marked(m, order, next) == next
  {
    MarkedAt(m, order, next);
  }

  lemma AllDown(modules: map<NodeId, Module>, states: States, queues: Queues, order: seq<NodeId>)
    requires Lists(order, modules.Keys) && states.Keys == modules.Keys && queues.Keys == modules.Keys
    ensures Marked(map[], order, Flattened(queues)) == Flattened(queues)
    ensures Marked(states, order, StatesDown(modules)) == StatesDown(modules)
    ensures Marked(queues, order, AllEmptied(queues)) == AllEmptied(queues)
    ensures FirstShutdownError(modules, order).None? <==> AllStop(modules)
  {
    MarkedAll(map[], order, Flattened(queues));
    MarkedAll(states, order, StatesDown(modules));
    MarkedAll(queues, order, AllEmptied(queues));
    NoShutdownError(modules, order);
  }

  /**
   Shut every node down, whatever happens to the others, discarding what its queue still holds;
   report the first failure.
   */
  method ShutdownAll(g: FlowGraph)
    returns (r: Result<(), ModuleError>, order: seq<NodeId>, discarded: map<NodeId, seq<Packet>>)
    requires Usable(g)
    modifies g.nodes.Values, NodeQueuesOf(g)
    ensures Usable(g) && ModulesOf(g) == old(ModulesOf(g)) && LogsOf(g) == old(LogsOf(g))
    ensures Lists(order, ModulesOf(g).Keys)
    ensures r == Report(FirstShutdownError(ModulesOf(g), order)) && (r.Ok? <==> AllStop(ModulesOf(g)))
    ensures discarded == Flattened(old(QueuesOf(g)))
    ensures StatesOf(g) == StatesDown(ModulesOf(g))
    ensures QueuesEmpty(NetOf(g), QueuesOf(g))
  {
    ghost var modules, queues, states := ModulesOf(g), QueuesOf(g), StatesOf(g);
    order := ListNodes(g);
    AllNew(order);
    r, discarded := ShutdownInOrder(g, order);
    AllDown(modules, states, queues, order);
  }
}
